// What a log says about a queue, whatever the time it is replayed at.
module Images {
  import opened Bytes
  import opened Messages
  import opened QueueState

  // A live message as the log determines it. A message that has been attempted is visible whatever its
  // VisibleAt (replay restamps it), so that field is dropped then.
  datatype Stored = Stored(m: Msg, dead: bool)

  datatype Image = Image(cfg: Config, nextSeq: nat, msgs: map<bytes, Stored>, dedup: map<bytes, DedupEntry>)

  function Norm(m: Msg): Msg {
    if m.attempts > 0 then m.(visibleAt := 0) else m
  }

  function StoredOf(e: Entry): Stored {
    Stored(Norm(e.m), e.status.Dead?)
  }

  function Settings(c: Config): Config {
    c.(nextSeq := 0)
  }

  function MsgsOf(live: map<bytes, Entry>): map<bytes, Stored> {
    map id | id in live :: StoredOf(live[id])
  }

  function ImageOf(s: State): Image {
    Image(Settings(s.cfg), s.nextSeq, MsgsOf(s.live), s.dedup)
  }

  function StoredAttempt(cfg: Config, m: Msg): Stored {
    var n := m.attempts + 1;
    Stored(Norm(m.(attempts := n)), n >= cfg.maxAttempts)
  }

  function IApply(v: Image, r: LogRec): Option<Image> {
    match r
    case MetaRec(cfg) =>
      (match Validate(cfg)
       case None => None
       case Some(c) => Some(v.(cfg := Settings(c), nextSeq := Max(v.nextSeq, c.nextSeq))))
    case EnqueueRec(m, dead) =>
      if m.id in v.msgs then None
      else Some(v.(nextSeq := Max(v.nextSeq, m.seqNo + 1),
                   msgs := v.msgs[m.id := Stored(Norm(m), dead)],
                   dedup := Remember(v.cfg, v.dedup, m)))
    case AckRec(id) => if id !in v.msgs then None else Some(v.(msgs := v.msgs - {id}))
    case NackRec(id) =>
      if id !in v.msgs then None else Some(v.(msgs := v.msgs[id := StoredAttempt(v.cfg, v.msgs[id].m)]))
    case ExpireRec(id) =>
      if id !in v.msgs then None else Some(v.(msgs := v.msgs[id := StoredAttempt(v.cfg, v.msgs[id].m)]))
    case DedupRec(e) => Some(v.(dedup := v.dedup[e.dedupID := e]))
  }

  // The image of a whole log; None when some record cannot be applied.
  function IFold(recs: seq<LogRec>): Option<Image> {
    if recs == [] then Some(ImageOf(NEW_QUEUE))
    else
      match IFold(recs[..|recs| - 1])
      case None => None
      case Some(v) => IApply(v, recs[|recs| - 1])
  }

  // Replay of decoded records into a new queue, record i at time clock[i].
  function Replayed(recs: seq<LogRec>, clock: seq<int>): Option<State>
    requires |clock| == |recs|
  {
    if recs == [] then Some(NEW_QUEUE)
    else
      match Replayed(recs[..|recs| - 1], clock[..|recs| - 1])
      case None => None
      case Some(s) => ApplyRec(s, recs[|recs| - 1], clock[|recs| - 1])
  }

  // One record has the same effect on the image whatever the clock says.
  lemma ImageStep(s: State, r: LogRec, now: int)
    ensures match (ApplyRec(s, r, now), IApply(ImageOf(s), r))
            case (Some(s'), Some(v)) => ImageOf(s') == v
            case (None, None) => true
            case _ => false
  {
    hide Validate, EffectivePriority, Norm, MsgsOf, Attempted;
    assert MsgsOf(s.live).Keys == s.live.Keys by { MsgsKeys(s.live); }
    match r
    case MetaRec(cfg) =>
    case EnqueueRec(m, dead) =>
      LiveUpdate(s.live, m.id, Entry(m, if dead then Dead else Placed(s.cfg, m, now)));
    case AckRec(id) => LiveRemove(s.live, id);
    case NackRec(id) => if id in s.live { AttemptImage(s, id, now); }
    case ExpireRec(id) => if id in s.live { AttemptImage(s, id, now); }
    case DedupRec(e) =>
  }

  lemma MsgsKeys(live: map<bytes, Entry>)
    ensures MsgsOf(live).Keys == live.Keys
  {
  }

  lemma LiveUpdate(live: map<bytes, Entry>, id: bytes, e: Entry)
    ensures MsgsOf(live[id := e]) == MsgsOf(live)[id := StoredOf(e)]
  {
    hide Norm;
  }

  lemma LiveRemove(live: map<bytes, Entry>, id: bytes)
    ensures MsgsOf(live - {id}) == MsgsOf(live) - {id}
  {
    hide Norm;
  }

  lemma AttemptImage(s: State, id: bytes, now: int)
    requires id in s.live
    ensures id in MsgsOf(s.live)
    ensures MsgsOf(s.live[id := Attempted(s.cfg, s.live[id].m, now)])
            == MsgsOf(s.live)[id := StoredAttempt(Settings(s.cfg), MsgsOf(s.live)[id].m)]
  {
    hide EffectivePriority;
    LiveUpdate(s.live, id, Attempted(s.cfg, s.live[id].m, now));
  }

  lemma {:induction false} ReplayedImage(recs: seq<LogRec>, clock: seq<int>)
    requires |clock| == |recs|
    ensures match (Replayed(recs, clock), IFold(recs))
            case (Some(s), Some(v)) => ImageOf(s) == v
            case (None, None) => true
            case _ => false
    decreases |recs|
  {
    hide ApplyRec, IApply, ImageOf;
    if recs != [] {
      var n := |recs| - 1;
      ReplayedImage(recs[..n], clock[..n]);
      if Replayed(recs[..n], clock[..n]).Some? {
        ImageStep(Replayed(recs[..n], clock[..n]).value, recs[n], clock[n]);
      }
    }
  }

  lemma FoldSnoc(recs: seq<LogRec>, r: LogRec)
    ensures IFold(recs + [r]) == if IFold(recs).None? then None else IApply(IFold(recs).value, r)
  {
    assert (recs + [r])[..|recs|] == recs;
  }

  // Prefixes of a log that folds also fold.
  lemma {:induction false} FoldPrefix(recs: seq<LogRec>, k: nat)
    requires k <= |recs| && IFold(recs).Some?
    ensures IFold(recs[..k]).Some?
    decreases |recs|
  {
    if k < |recs| {
      FoldPrefix(recs[..|recs| - 1], k);
      assert recs[..|recs| - 1][..k] == recs[..k];
    } else {
      assert recs[..k] == recs;
    }
  }

  // How a message stands for its consumers.
  datatype Standing = Exhausted | DueAt(until: int) | Available

  // A running queue once everything due by T is promoted; leases count as available, as a restart makes them.
  function StandingOf(e: Entry): Standing {
    match e.status
    case Dead => Exhausted
    case Delayed => DueAt(e.m.visibleAt)
    case Ready(_) => Available
    case InFlight(_) => Available
  }

  function Standings(s: State): map<bytes, Standing> {
    map id | id in s.live :: StandingOf(s.live[id])
  }

  function StandingAt(x: Stored, T: int): Standing {
    if x.dead then Exhausted
    else if x.m.attempts == 0 && x.m.visibleAt > T then DueAt(x.m.visibleAt)
    else Available
  }

  // Statuses are consistent with the time: nothing is available early, and nothing attempted is delayed.
  predicate Timely(s: State, now: int) {
    forall id :: id in s.live ==> TimelyEntry(s.live[id], now)
  }

  predicate TimelyEntry(e: Entry, now: int) {
    && (e.status.Ready? || e.status.InFlight? ==> e.m.visibleAt <= now)
    && (e.status.Delayed? ==> e.m.attempts == 0)
  }

  lemma StandingsFromImage(s: State, T: int)
    requires Timely(s, T)
    ensures Standings(Promote(s, T)) == map id | id in s.live :: StandingAt(ImageOf(s).msgs[id], T)
  {
    hide EffectivePriority;
  }
}
