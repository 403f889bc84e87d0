// Log records as the frames that carry them.
module Wire {
  import opened Bytes
  import opened Messages
  import opened Codec
  import opened Record
  import opened Recovery
  import opened QueueState
  import opened Journal

  // encodeConfig and decodeConfig: JSON, taken as given.
  datatype ConfigCodec = ConfigCodec(encode: Config -> bytes, decode: bytes -> Option<Config>)

  // The one thing asked of it: validated configurations come back, NextSeq included, and fit one record.
  ghost predicate Faithful(j: ConfigCodec) {
    forall c :: Validated(c) && WithinWidths(c) ==> j.decode(j.encode(c)) == Some(c) && |j.encode(c)| <= MAX_RECORD_SIZE
  }

  function FrameOf(j: ConfigCodec, r: LogRec): Frame {
    match r
    case MetaRec(cfg) => Frame(TYPE_META, j.encode(cfg))
    case EnqueueRec(m, dead) => Frame(TYPE_ENQUEUE, EncodeMessage(m, dead))
    case AckRec(id) => Frame(TYPE_ACK, id)
    case NackRec(id) => Frame(TYPE_NACK, id)
    case ExpireRec(id) => Frame(TYPE_LEASE_EXPIRE, id)
    case DedupRec(e) => Frame(TYPE_DEDUP, EncodeDedup(e))
  }

  // The six types by their numbers on disk; three of them carry the bare id of a message.
  lemma RecordTypes(j: ConfigCodec, r: LogRec)
    ensures FrameOf(j, r).typ == match r
                                 case MetaRec(_) => 1
                                 case EnqueueRec(_, _) => 2
                                 case AckRec(_) => 3
                                 case NackRec(_) => 4
                                 case ExpireRec(_) => 5
                                 case DedupRec(_) => 6
    ensures r.AckRec? || r.NackRec? || r.ExpireRec? ==> FrameOf(j, r).payload == r.id
  {
  }

  // The decoding half of apply. None is an error.
  function RecOf(j: ConfigCodec, f: Frame): Option<LogRec> {
    if f.typ == TYPE_META then
      (match j.decode(f.payload) case None => None case Some(c) => Some(MetaRec(c)))
    else if f.typ == TYPE_ENQUEUE then
      (match DecodeMessage(f.payload) case None => None case Some((m, dead)) => Some(EnqueueRec(m, dead)))
    else if f.typ == TYPE_ACK then Some(AckRec(f.payload))
    else if f.typ == TYPE_NACK then Some(NackRec(f.payload))
    else if f.typ == TYPE_LEASE_EXPIRE then Some(ExpireRec(f.payload))
    else if f.typ == TYPE_DEDUP then
      (match DecodeDedup(f.payload) case None => None case Some(e) => Some(DedupRec(e)))
    else None
  }

  function FramesOf(j: ConfigCodec, recs: seq<LogRec>): (fs: seq<Frame>)
    ensures |fs| == |recs|
  {
    seq(|recs|, i requires 0 <= i < |recs| => FrameOf(j, recs[i]))
  }

  // A record that fits is written as a frame the log reader accepts, and decodes to itself.
  lemma FrameRoundTrip(j: ConfigCodec, r: LogRec, now: int)
    requires Faithful(j) && RecFits(r, now)
    ensures Writable(FrameOf(j, r)) && RecOf(j, FrameOf(j, r)) == Some(r)
  {
    hide EncodeMessage, DecodeMessage, EncodeDedup, DecodeDedup, Validated, InBounds;
    match r
    case MetaRec(cfg) => assert j.decode(j.encode(cfg)) == Some(cfg);
    case EnqueueRec(m, dead) =>
      MessageRoundTrip(m, dead);
      MessageSize(m, dead);
    case DedupRec(e) =>
      DedupRoundTrip(e);
      DedupSize(e);
    case _ =>
  }

  lemma MessageSize(m: Msg, dead: bool)
    ensures |EncodeMessage(m, dead)| == FIXED_PART + 8 + |m.id| + |m.dedupID| + |m.payload|
  {
    hide Fixed;
  }

  lemma DedupSize(e: DedupEntry)
    ensures |EncodeDedup(e)| == 12 + |e.dedupID| + |e.messageID|
  {
  }
}
