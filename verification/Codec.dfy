// queue/codec.go: the binary payloads of ENQUEUE and DEDUP records.
module Codec {
  import opened Bytes
  import opened Messages
  import opened Seqs

  const MESSAGE_FORMAT_VERSION: byte := 2

  // Version, four 64-bit fields, attempts, flags.
  const FIXED_PART := 38

  function AppendString16(s: bytes): bytes {
    LE(|s|, 2) + s
  }

  // The string at p and the position after it.
  function ReadString16(b: bytes, p: nat): (r: Option<(bytes, nat)>)
    ensures r.Some? ==> p + 2 <= r.value.1 <= |b| && r.value.1 == p + 2 + |r.value.0| && |r.value.0| < TWO_16
  {
    if p + 2 > |b| then None
    else
      Widths();
      var n := UnLE(b[p..p + 2]);
      if p + 2 + n > |b| then None else Some((b[p + 2..p + 2 + n], p + 2 + n))
  }

  function Fixed(m: Msg, dead: bool): (b: bytes)
    ensures |b| == FIXED_PART
  {
    [MESSAGE_FORMAT_VERSION] + LE(m.seqNo, 8) + LE(Wrap64(m.priority), 8) + LE(Wrap64(m.visibleAt), 8)
    + LE(Wrap64(m.createdAt), 8) + LE(m.attempts, 4) + [if dead then 1 else 0]
  }

  function EncodeMessage(m: Msg, dead: bool): bytes {
    Fixed(m, dead) + AppendString16(m.id) + AppendString16(m.dedupID) + (LE(|m.payload|, 4) + m.payload)
  }

  // None is any of the decoder's errors. Fields are read at the cursor positions of the source.
  function DecodeMessage(b: bytes): Option<(Msg, bool)> {
    if |b| < FIXED_PART then None
    else if b[0] != MESSAGE_FORMAT_VERSION then None
    else
      var seqNo := UnLE(b[1..9]);
      var priority := Signed64(UnLE(b[9..17]));
      var visibleAt := Signed64(UnLE(b[17..25]));
      var createdAt := Signed64(UnLE(b[25..33]));
      var attempts := UnLE(b[33..37]);
      var flags := b[37];
      match ReadString16(b, FIXED_PART)
      case None => None
      case Some((id, p)) =>
        match ReadString16(b, p)
        case None => None
        case Some((dedupID, p)) =>
          if p + 4 > |b| then None
          else
            var n := UnLE(b[p..p + 4]);
            if p + 4 + n > |b| then None
            else if id == [] then None
            else Some((Msg(id, dedupID, seqNo, priority, visibleAt, b[p + 4..p + 4 + n], attempts, createdAt),
                       flags % 2 == 1))
  }

  // The values the fixed-width fields can hold.
  predicate InBounds(m: Msg) {
    && m.id != [] && |m.id| < TWO_16 && |m.dedupID| < TWO_16 && |m.payload| < TWO_32
    && m.seqNo < TWO_64 && m.attempts < TWO_32
    && FitsInt64(m.priority) && FitsInt64(m.visibleAt) && FitsInt64(m.createdAt)
  }

  lemma ReadNumber(pre: bytes, n: nat, k: nat, rest: bytes)
    requires n < Pow256(k)
    ensures var b := pre + (LE(n, k) + rest); UnLE(b[|pre|..|pre| + k]) == n
  {
    hide UnLE, LE, Pow256;
    var b := pre + (LE(n, k) + rest);
    DropPrefix(pre, LE(n, k) + rest);
    DropPrefix(LE(n, k), rest);
    assert b[|pre|..|pre| + k] == b[|pre|..][..k];
    UnLELE(n, k);
    assert n % Pow256(k) == n by { SmallMod(n, Pow256(k)); }
  }

  lemma SmallMod(n: nat, m: nat)
    requires n < m
    ensures n % m == n
  {
  }

  lemma ReadString(pre: bytes, s: bytes, rest: bytes)
    requires |s| < TWO_16
    ensures ReadString16(pre + (AppendString16(s) + rest), |pre|) == Some((s, |pre| + 2 + |s|))
  {
    hide UnLE, LE, Pow256;
    Widths();
    var b := pre + (AppendString16(s) + rest);
    Associative(LE(|s|, 2), s, rest);
    ReadNumber(pre, |s|, 2, s + rest);
    assert b == (pre + LE(|s|, 2)) + (s + rest);
    DropPrefix(pre + LE(|s|, 2), s + rest);
    DropPrefix(s, rest);
    assert b[|pre| + 2..|pre| + 2 + |s|] == b[|pre| + 2..][..|s|];
  }

  lemma ReadFixed(m: Msg, dead: bool, rest: bytes)
    requires InBounds(m)
    ensures var b := Fixed(m, dead) + rest;
            && b[0] == MESSAGE_FORMAT_VERSION && b[37] == (if dead then 1 else 0)
            && UnLE(b[1..9]) == m.seqNo && Signed64(UnLE(b[9..17])) == m.priority
            && Signed64(UnLE(b[17..25])) == m.visibleAt && Signed64(UnLE(b[25..33])) == m.createdAt
            && UnLE(b[33..37]) == m.attempts
  {
    hide UnLE, LE, Pow256, Wrap64, Signed64;
    Widths();
    Signed64Wrap64(m.priority);
    Signed64Wrap64(m.visibleAt);
    Signed64Wrap64(m.createdAt);
    var a0, a1, a2, a3 := LE(m.seqNo, 8), LE(Wrap64(m.priority), 8), LE(Wrap64(m.visibleAt), 8),
      LE(Wrap64(m.createdAt), 8);
    var a4, a5 := LE(m.attempts, 4), [if dead then 1 else 0];
    UnLELE(m.seqNo, 8);
    UnLELE(Wrap64(m.priority), 8);
    UnLELE(Wrap64(m.visibleAt), 8);
    UnLELE(Wrap64(m.createdAt), 8);
    UnLELE(m.attempts, 4);
    FixedFields(a0, a1, a2, a3, a4, a5, rest);
  }

  lemma FixedFields(a0: bytes, a1: bytes, a2: bytes, a3: bytes, a4: bytes, a5: bytes, rest: bytes)
    requires |a0| == |a1| == |a2| == |a3| == 8 && |a4| == 4 && |a5| == 1
    ensures var b := [MESSAGE_FORMAT_VERSION] + a0 + a1 + a2 + a3 + a4 + a5 + rest;
            && b[0] == MESSAGE_FORMAT_VERSION && b[37] == a5[0]
            && b[1..9] == a0 && b[9..17] == a1 && b[17..25] == a2 && b[25..33] == a3 && b[33..37] == a4
  {
  }

  lemma DecodeEncoded(m: Msg, dead: bool)
    requires InBounds(m)
    ensures DecodeMessage(EncodeMessage(m, dead)) == Some((m, dead))
  {
    hide UnLE, LE, Pow256, Fixed, AppendString16, ReadString16, Signed64, FitsInt64;
    var fixed, id, did := Fixed(m, dead), AppendString16(m.id), AppendString16(m.dedupID);
    var tail := LE(|m.payload|, 4) + m.payload;
    var b := EncodeMessage(m, dead);
    assert |id| == 2 + |m.id| && |did| == 2 + |m.dedupID| by { StringLength(m.id); StringLength(m.dedupID); }
    Associative(fixed, id, did);
    Associative(fixed, id + did, tail);
    Associative(id, did, tail);
    ReadFixed(m, dead, id + (did + tail));
    ReadString(fixed, m.id, did + tail);
    Associative(fixed, id, did + tail);
    ReadString(fixed + id, m.dedupID, tail);
    Associative(fixed + id, did, tail);
    Widths();
    ReadNumber(fixed + id + did, |m.payload|, 4, m.payload);
    Associative(fixed + id + did, LE(|m.payload|, 4), m.payload);
    DropPrefix(fixed + id + did + LE(|m.payload|, 4), m.payload);
    var p := |fixed + id + did|;
    assert b[p + 4..p + 4 + |m.payload|] == m.payload;
  }

  lemma StringLength(s: bytes)
    ensures |AppendString16(s)| == 2 + |s|
  {
  }

  lemma DecodedInBounds(b: bytes)
    requires DecodeMessage(b).Some?
    ensures InBounds(DecodeMessage(b).value.0)
  {
    hide UnLE;
    Widths();
  }

  // A message comes back exactly when every field fits its place in the layout, negative and 64-bit priorities
  // included; when one does not, decoding fails or yields a different message, whatever the damage.
  lemma MessageRoundTrip(m: Msg, dead: bool)
    ensures DecodeMessage(EncodeMessage(m, dead)) == Some((m, dead)) <==> InBounds(m)
  {
    if InBounds(m) {
      DecodeEncoded(m, dead);
    } else if DecodeMessage(EncodeMessage(m, dead)) == Some((m, dead)) {
      DecodedInBounds(EncodeMessage(m, dead));
    }
  }

  // The byte strings in their order on disk, numbers with their least significant byte first and negative ones as the
  // two's complement.
  predicate MessageLaidOut(b: bytes, m: Msg, dead: bool) {
    var p := 40 + |m.id|;
    var q := p + 2 + |m.dedupID|;
    && |b| == q + 4 + |m.payload|
    && b[0] == 2
    && Eight(b[1..9]) == m.seqNo % TWO_64 && Eight(b[9..17]) == m.priority % TWO_64
    && Eight(b[17..25]) == m.visibleAt % TWO_64 && Eight(b[25..33]) == m.createdAt % TWO_64
    && Four(b[33..37]) == m.attempts % TWO_32 && b[37] == (if dead then 1 else 0)
    && Two(b[38..40]) == |m.id| % TWO_16 && b[40..p] == m.id
    && Two(b[p..p + 2]) == |m.dedupID| % TWO_16 && b[p + 2..q] == m.dedupID
    && Four(b[q..q + 4]) == |m.payload| % TWO_32 && b[q + 4..] == m.payload
  }

  predicate DedupLaidOut(b: bytes, e: DedupEntry) {
    var p := 2 + |e.dedupID|;
    var q := p + 2 + |e.messageID|;
    && |b| == q + 8
    && Two(b[0..2]) == |e.dedupID| % TWO_16 && b[2..p] == e.dedupID
    && Two(b[p..p + 2]) == |e.messageID| % TWO_16 && b[p + 2..q] == e.messageID
    && Eight(b[q..]) == e.expiresAt % TWO_64
  }

  // What every message and every dedup entry looks like on disk, whether or not it fits and comes back.
  lemma EncodedMessageLaidOut(m: Msg, dead: bool)
    ensures MessageLaidOut(EncodeMessage(m, dead), m, dead)
  {
    hide UnLE, LE, Pow256, Wrap64, Two, Four, Eight;
    var b := EncodeMessage(m, dead);
    var a0, a1, a2, a3 := LE(m.seqNo, 8), LE(Wrap64(m.priority), 8), LE(Wrap64(m.visibleAt), 8),
      LE(Wrap64(m.createdAt), 8);
    var id, did := AppendString16(m.id), AppendString16(m.dedupID);
    var n := LE(|m.payload|, 4);
    Associative(Fixed(m, dead) + id, did, n + m.payload);
    Associative(Fixed(m, dead), id, did + (n + m.payload));
    FixedFields(a0, a1, a2, a3, LE(m.attempts, 4), [if dead then 1 else 0], id + (did + (n + m.payload)));
    VariableFields(Fixed(m, dead), LE(|m.id|, 2), m.id, LE(|m.dedupID|, 2), m.dedupID, n, m.payload);
    Numbers(m.seqNo);
    Numbers(Wrap64(m.priority));
    Numbers(Wrap64(m.visibleAt));
    Numbers(Wrap64(m.createdAt));
    Numbers(m.attempts);
    Numbers(|m.id|);
    Numbers(|m.dedupID|);
    Numbers(|m.payload|);
    WrapIsMod(m.priority);
    WrapIsMod(m.visibleAt);
    WrapIsMod(m.createdAt);
  }

  lemma WrapIsMod(i: int)
    ensures Wrap64(i) == i % TWO_64 == Wrap64(i) % TWO_64
  {
  }

  lemma VariableFields(pre: bytes, k0: bytes, s0: bytes, k1: bytes, s1: bytes, k2: bytes, s2: bytes)
    requires |k0| == |k1| == 2
    ensures var b := pre + (k0 + s0) + (k1 + s1) + (k2 + s2);
            var o := |pre|;
            var p := o + 2 + |s0|;
            var q := p + 2 + |s1|;
            && |b| == q + |k2| + |s2|
            && b[o..o + 2] == k0 && b[o + 2..p] == s0
            && b[p..p + 2] == k1 && b[p + 2..q] == s1
            && b[q..q + |k2|] == k2 && b[q + |k2|..] == s2
  {
  }

  lemma EncodedDedupLaidOut(e: DedupEntry)
    ensures DedupLaidOut(EncodeDedup(e), e)
  {
    hide UnLE, LE, Pow256, Wrap64, Two, Four, Eight;
    var x := LE(Wrap64(e.expiresAt), 8);
    assert [] + (LE(|e.dedupID|, 2) + e.dedupID) == LE(|e.dedupID|, 2) + e.dedupID && x + [] == x;
    VariableFields([], LE(|e.dedupID|, 2), e.dedupID, LE(|e.messageID|, 2), e.messageID, x, []);
    Numbers(|e.dedupID|);
    Numbers(|e.messageID|);
    Numbers(Wrap64(e.expiresAt));
    WrapIsMod(e.expiresAt);
  }

  function EncodeDedup(e: DedupEntry): bytes {
    AppendString16(e.dedupID) + AppendString16(e.messageID) + LE(Wrap64(e.expiresAt), 8)
  }

  function DecodeDedup(b: bytes): Option<DedupEntry> {
    match ReadString16(b, 0)
    case None => None
    case Some((dedupID, p)) =>
      match ReadString16(b, p)
      case None => None
      case Some((messageID, p)) =>
        if p + 8 > |b| then None
        else Some(DedupEntry(dedupID, messageID, Signed64(UnLE(b[p..p + 8]))))
  }

  predicate EntryInBounds(e: DedupEntry) {
    |e.dedupID| < TWO_16 && |e.messageID| < TWO_16 && FitsInt64(e.expiresAt)
  }

  lemma DedupRoundTrip(e: DedupEntry)
    ensures DecodeDedup(EncodeDedup(e)) == Some(e) <==> EntryInBounds(e)
  {
    hide UnLE, LE, Pow256, AppendString16, ReadString16, Wrap64;
    Widths();
    var b := EncodeDedup(e);
    if EntryInBounds(e) {
      var d, m, x := AppendString16(e.dedupID), AppendString16(e.messageID), LE(Wrap64(e.expiresAt), 8);
      StringLength(e.dedupID);
      StringLength(e.messageID);
      Associative(d, m, x);
      assert [] + b == b;
      ReadString([], e.dedupID, m + x);
      ReadString(d, e.messageID, x);
      assert x + [] == x;
      ReadNumber(d + m, Wrap64(e.expiresAt), 8, []);
      Signed64Wrap64(e.expiresAt);
    } else if DecodeDedup(b) == Some(e) {
      DecodedEntryInBounds(b);
    }
  }

  lemma DecodedEntryInBounds(b: bytes)
    requires DecodeDedup(b).Some?
    ensures EntryInBounds(DecodeDedup(b).value)
  {
    hide UnLE;
    Widths();
  }
}
