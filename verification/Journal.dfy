// A queue and the log it writes: the operations as events, and the invariant every event keeps.
module Journal {
  import opened Bytes
  import opened Messages
  import opened Codec
  import opened QueueState
  import opened Images
  import opened Invariants
  import Record

  // What the queue's methods do to its state, each under one hold of the mutex. EvDequeue promotes first.
  datatype Event =
    | EvEnqueue(m: Msg)
    | EvDequeue(ids: seq<bytes>, deadline: int)
    | EvAck(id: bytes)
    | EvNack(id: bytes)
    | EvExpire(id: bytes)
    | EvPromote
    | EvAge
    | EvPurge

  // A message that fits one record.
  predicate Small(m: Msg) {
    FIXED_PART + 8 + |m.id| + |m.dedupID| + |m.payload| <= Record.MAX_RECORD_SIZE
  }

  predicate Leased(s: State, id: bytes) {
    id in s.live && s.live[id].status.InFlight?
  }

  ghost predicate Enabled(s: State, used: set<bytes>, e: Event, now: int) {
    match e
    case EvEnqueue(m) =>
      && FreshMessage(m, now) && m.seqNo == s.nextSeq
      && m.id !in used && Small(m)
      && !IsDuplicate(s, m.dedupID, now)
      && EntryInBounds(DedupOf(s.cfg, m))
    case EvDequeue(ids, deadline) =>
      && deadline > now
      && DistinctSeqs(Promote(s, now)) && ids <= SortedReady(Promote(s, now))
    case EvAck(id) => id in s.live && (s.live[id].status.InFlight? || s.live[id].status.Dead?)
    case EvNack(id) => Leased(s, id) && FitsInt64(now)
    case EvExpire(id) => Leased(s, id) && s.live[id].status.deadline <= now && FitsInt64(now)
    case EvPromote => true
    case EvAge => true
    case EvPurge => true
  }

  function RecsOf(e: Event): seq<LogRec> {
    match e
    case EvEnqueue(m) => [EnqueueRec(m, false)]
    case EvAck(id) => [AckRec(id)]
    case EvNack(id) => [NackRec(id)]
    case EvExpire(id) => [ExpireRec(id)]
    case _ => []
  }

  function Elements(q: seq<bytes>): set<bytes> {
    set id | id in q
  }

  // The live transitions are the ones replay applies; the rest leave no record.
  function After(s: State, e: Event, now: int): State {
    match e
    case EvEnqueue(m) => ApplyRec(s, EnqueueRec(m, false), now).GetOr(s)
    case EvAck(id) => ApplyRec(s, AckRec(id), now).GetOr(s)
    case EvNack(id) => ApplyRec(s, NackRec(id), now).GetOr(s)
    case EvExpire(id) => ApplyRec(s, ExpireRec(id), now).GetOr(s)
    case EvDequeue(ids, deadline) => Lease(Promote(s, now), Elements(ids), deadline)
    case EvPromote => Promote(s, now)
    case EvAge => Age(s, now)
    case EvPurge => Purge(s, now)
  }

  // base is how much of the log was there when the file was last opened or replaced: no crash can cut into it.
  datatype Core = Core(s: State, now: int, log: seq<LogRec>, base: nat, used: set<bytes>)

  predicate RecFits(r: LogRec, now: int) {
    match r
    case MetaRec(c) => Validated(c) && WithinWidths(c)
    case EnqueueRec(m, dead) => InBounds(m) && Small(m) && (!dead && m.attempts > 0 ==> m.visibleAt <= now)
    case AckRec(id) => |id| < TWO_16
    case NackRec(id) => |id| < TWO_16
    case ExpireRec(id) => |id| < TWO_16
    case DedupRec(e) => EntryInBounds(e)
  }

  predicate EntryFits(e: Entry, now: int) {
    TimelyEntry(e, now) && FitsInt64(e.m.visibleAt) && Small(e.m)
  }

  ghost predicate StateFits(s: State, now: int) {
    forall id :: id in s.live ==> EntryFits(s.live[id], now)
  }

  ghost predicate NamesUsed(v: Image, used: set<bytes>) {
    v.msgs.Keys <= used && forall d :: d in v.dedup ==> v.dedup[d].messageID in used
  }

  ghost predicate ImageFits(v: Image, now: int, used: set<bytes>) {
    Good(v, now) && NamesUsed(v, used)
  }

  // Every prefix a restart could find replays, to a good image.
  ghost predicate PrefixesFold(log: seq<LogRec>, base: nat, now: int, used: set<bytes>) {
    forall k :: base <= k <= |log| ==> IFold(log[..k]).Some? && ImageFits(IFold(log[..k]).value, now, used)
  }

  ghost predicate LogFits(log: seq<LogRec>, now: int) {
    && |log| > 0 && log[0].MetaRec?
    && (forall i :: 0 <= i < |log| ==> RecFits(log[i], now))
    && (forall i :: 0 < i < |log| ==> !log[i].MetaRec?)
  }

  ghost predicate Inv(c: Core) {
    && LogFits(c.log, c.now) && 1 <= c.base <= |c.log|
    && PrefixesFold(c.log, c.base, c.now, c.used)
    && IFold(c.log).Some?
    && Tracks(IFold(c.log).value, c.s, c.log[0].cfg.nextSeq, c.now)
    && ImageFits(ImageOf(c.s), c.now, c.used)
    && StateFits(c.s, c.now)
  }

  function NewlyUsed(e: Event): set<bytes> {
    if e.EvEnqueue? then {e.m.id} else {}
  }

  function Next(c: Core, e: Event, now: int): Core {
    Core(After(c.s, e, now), now, c.log + RecsOf(e), c.base, c.used + NewlyUsed(e))
  }

  // What Dequeue and Compact rely on holds of every queue: distinct sequence numbers, and dedup entries filed under
  // their own ids.
  lemma ReachableIsOrderly(c: Core)
    requires Inv(c)
    ensures DistinctSeqs(c.s) && forall d :: d in c.s.dedup ==> c.s.dedup[d].dedupID == d
  {
    var v := ImageOf(c.s);
    forall a, b | a in c.s.live && b in c.s.live && a != b ensures c.s.live[a].m.seqNo != c.s.live[b].m.seqNo {
      assert v.msgs[a].m.seqNo == c.s.live[a].m.seqNo && v.msgs[b].m.seqNo == c.s.live[b].m.seqNo;
    }
    hide IFold, BoundsGood, DeadGood, Keyed, Validated;
  }

  // Time passing breaks nothing.
  lemma InvLater(c: Core, now: int)
    requires Inv(c) && c.now <= now
    ensures Inv(c.(now := now))
  {
    hide Good, TimelyEntry, Small, InBounds, IFold, ImageOf, MsgsOf, Validated, EntryInBounds;
    GoodLater(ImageOf(c.s), c.now, now);
    AgreeLater(IFold(c.log).value.dedup, c.s.dedup, c.now, now);
    forall k | c.base <= k <= |c.log| ensures ImageFits(IFold(c.log[..k]).value, now, c.used) {
      GoodLater(IFold(c.log[..k]).value, c.now, now);
    }
    forall id | id in c.s.live ensures EntryFits(c.s.live[id], now) {
      TimelyLater(c.s.live[id], c.now, now);
    }
  }

  lemma TimelyLater(e: Entry, now: int, later: int)
    requires EntryFits(e, now) && now <= later
    ensures EntryFits(e, later)
  {
  }

  // One more record: the log's image and the state move together.
  lemma LogGrows(c: Core, r: LogRec, s': State, used': set<bytes>)
    requires Inv(c) && !r.MetaRec? && !r.DedupRec? && RecFits(r, c.now) && c.used <= used'
    requires ApplyRec(c.s, r, c.now) == Some(s')
    requires ImageFits(ImageOf(s'), c.now, used') && StateFits(s', c.now)
    requires IApply(IFold(c.log).value, r).Some? ==> ImageFits(IApply(IFold(c.log).value, r).value, c.now, used')
    ensures Inv(Core(s', c.now, c.log + [r], c.base, used'))
  {
    hide Good, RecFits, IFold, ImageOf, MsgsOf, ApplyRec, IApply, StateFits;
    var log' := c.log + [r];
    TracksStep(IFold(c.log).value, c.s, c.log[0].cfg.nextSeq, c.now, r, c.now);
    FoldSnoc(c.log, r);
    assert log'[..|log'|] == log';
    forall k | c.base <= k <= |log'|
      ensures IFold(log'[..k]).Some? && ImageFits(IFold(log'[..k]).value, c.now, used')
    {
      if k <= |c.log| { assert log'[..k] == c.log[..k]; }
    }
  }

  // What both images of the queue satisfy when a message is enqueued.
  lemma EnqueueFits(v: Image, m: Msg, now: int, used: set<bytes>)
    requires ImageFits(v, now, used) && FreshMessage(m, now) && Newest(v, m.seqNo) && m.id !in used
    requires Fresh(v.dedup, m.dedupID, now).None?
    requires EntryInBounds(DedupOf(v.cfg, m))
    ensures IApply(v, EnqueueRec(m, false)).Some?
    ensures ImageFits(IApply(v, EnqueueRec(m, false)).value, now, used + {m.id})
  {
    hide Good, EntryInBounds, InBounds, Norm;
    GoodEnqueue(v, m, now);
  }

  lemma AckFits(v: Image, id: bytes, now: int, used: set<bytes>)
    requires ImageFits(v, now, used) && id in v.msgs
    ensures ImageFits(IApply(v, AckRec(id)).value, now, used)
  {
    hide Good;
    GoodAck(v, id, now);
  }

  lemma AttemptFits(v: Image, r: LogRec, id: bytes, now: int, used: set<bytes>)
    requires ImageFits(v, now, used) && id in v.msgs && !v.msgs[id].dead && (r == NackRec(id) || r == ExpireRec(id))
    ensures ImageFits(IApply(v, r).value, now, used)
  {
    assert v.msgs[id].m.attempts < v.cfg.maxAttempts;
    hide Good, StoredAttempt;
    GoodAttempt(v, id, now);
  }

  lemma MetaSeqIsLower(v: Image, c: Core, m: Msg)
    requires Inv(c) && IFold(c.log) == Some(v) && m.seqNo == c.s.nextSeq
    ensures Newest(v, m.seqNo) && Newest(ImageOf(c.s), m.seqNo)
  {
    hide IFold;
  }

  lemma EnqueueKeepsInv(c: Core, m: Msg)
    requires Inv(c) && Enabled(c.s, c.used, EvEnqueue(m), c.now)
    ensures Inv(Next(c, EvEnqueue(m), c.now))
  {
    var v := IFold(c.log).value;
    var r := EnqueueRec(m, false);
    assert RecFits(r, c.now);
    LastImageFits(c);
    MetaSeqIsLower(v, c, m);
    hide Good, RecFits, IFold, StateFits, InBounds, EntryInBounds, Placed, Norm, PrefixesFold, LogFits, Small;
    assert Fresh(v.dedup, m.dedupID, c.now) == Fresh(c.s.dedup, m.dedupID, c.now);
    EmptyDedupId(v, c.now);
    EmptyDedupId(ImageOf(c.s), c.now);
    assert m.dedupID == [] ==> [] !in c.s.dedup && [] !in v.dedup;
    EnqueueFits(v, m, c.now, c.used);
    EnqueueFits(ImageOf(c.s), m, c.now, c.used);
    ImageStep(c.s, r, c.now);
    var s' := ApplyRec(c.s, r, c.now).value;
    EnqueueStateFits(c.s, m, c.now);
    LogGrows(c, r, s', c.used + {m.id});
  }

  lemma EmptyDedupId(v: Image, now: int)
    requires Good(v, now)
    ensures [] !in v.dedup
  {
  }

  lemma LastImageFits(c: Core)
    requires Inv(c)
    ensures ImageFits(IFold(c.log).value, c.now, c.used)
  {
    hide Good, IFold;
    assert c.log[..|c.log|] == c.log;
  }

  lemma EnqueueStateFits(s: State, m: Msg, now: int)
    requires StateFits(s, now) && FreshMessage(m, now) && Small(m) && m.id !in s.live
    ensures StateFits(ApplyRec(s, EnqueueRec(m, false), now).value, now)
  {
    hide EffectivePriority, Small;
  }

  lemma AckKeepsInv(c: Core, id: bytes)
    requires Inv(c) && Enabled(c.s, c.used, EvAck(id), c.now)
    ensures Inv(Next(c, EvAck(id), c.now))
  {
    var v := IFold(c.log).value;
    IdFits(c, id);
    LastImageFits(c);
    assert StateFits(ApplyRec(c.s, AckRec(id), c.now).value, c.now) by { hide EntryFits; }
    hide Good, IFold, StateFits, PrefixesFold, LogFits;
    AckFits(v, id, c.now, c.used);
    AckFits(ImageOf(c.s), id, c.now, c.used);
    ImageStep(c.s, AckRec(id), c.now);
    LogGrows(c, AckRec(id), ApplyRec(c.s, AckRec(id), c.now).value, c.used);
    assert c.used + {} == c.used;
  }

  lemma IdFits(c: Core, id: bytes)
    requires Inv(c) && id in c.s.live
    ensures |id| < TWO_16 && id in MsgsOf(c.s.live)
  {
    assert id in ImageOf(c.s).msgs && ImageOf(c.s).msgs[id].m.id == id;
  }

  lemma AttemptKeepsInv(c: Core, e: Event, id: bytes)
    requires Inv(c) && Enabled(c.s, c.used, e, c.now) && (e == EvNack(id) || e == EvExpire(id))
    ensures Inv(Next(c, e, c.now))
  {
    hide Good, IFold, StateFits, PrefixesFold, LogFits, MsgsOf, StoredAttempt, Attempted;
    var v := IFold(c.log).value;
    var r := RecsOf(e)[0];
    IdFits(c, id);
    LeasedIsAlive(c.s, id);
    LastImageFits(c);
    AttemptStateFits(c.s, r, id, c.now);
    AttemptFits(v, r, id, c.now, c.used);
    AttemptFits(ImageOf(c.s), r, id, c.now, c.used);
    ImageStep(c.s, r, c.now);
    LogGrows(c, r, ApplyRec(c.s, r, c.now).value, c.used);
    assert c.used + {} == c.used;
  }

  lemma LeasedIsAlive(s: State, id: bytes)
    requires Leased(s, id)
    ensures id in MsgsOf(s.live) && !MsgsOf(s.live)[id].dead
  {
  }

  lemma AttemptStateFits(s: State, r: LogRec, id: bytes, now: int)
    requires StateFits(s, now) && id in s.live && FitsInt64(now) && (r == NackRec(id) || r == ExpireRec(id))
    ensures ApplyRec(s, r, now).Some? && StateFits(ApplyRec(s, r, now).value, now)
  {
    hide EffectivePriority;
    assert EntryFits(s.live[id], now);
    assert EntryFits(Attempted(s.cfg, s.live[id].m, now), now);
    hide EntryFits, Attempted;
  }

  // The events that write nothing leave the image alone, but for expired dedup entries.
  lemma QuietKeepsInv(c: Core, s': State)
    requires Inv(c) && StateFits(s', c.now)
    requires s'.cfg == c.s.cfg && s'.nextSeq == c.s.nextSeq && MsgsOf(s'.live) == MsgsOf(c.s.live)
    requires s'.dedup == c.s.dedup || s' == Purge(c.s, c.now)
    ensures Inv(c.(s := s'))
  {
    hide IFold, PrefixesFold, LogFits, StateFits, MsgsOf;
    if s' == Purge(c.s, c.now) {
      GoodPurge(ImageOf(c.s), c.now);
      hide Good;
      var v := IFold(c.log).value;
      forall d ensures Fresh(v.dedup, d, c.now) == Fresh(s'.dedup, d, c.now) {
        assert Fresh(v.dedup, d, c.now) == Fresh(c.s.dedup, d, c.now);
      }
    }
  }

  lemma PromoteIsQuiet(s: State, now: int)
    requires StateFits(s, now)
    ensures MsgsOf(Promote(s, now).live) == MsgsOf(s.live) && StateFits(Promote(s, now), now)
  {
    hide EffectivePriority, Norm, Small;
  }

  lemma AgeIsQuiet(s: State, now: int)
    requires StateFits(s, now)
    ensures MsgsOf(Age(s, now).live) == MsgsOf(s.live) && StateFits(Age(s, now), now)
  {
    hide EffectivePriority, Norm, Small;
  }

  lemma LeaseIsQuiet(s: State, ids: set<bytes>, deadline: int, now: int)
    requires StateFits(s, now) && SomeReady(s, ids)
    ensures MsgsOf(Lease(s, ids, deadline).live) == MsgsOf(s.live) && StateFits(Lease(s, ids, deadline), now)
  {
    hide Norm, Small;
  }

  lemma TakenAreReady(s: State, ids: seq<bytes>)
    requires DistinctSeqs(s) && ids <= SortedReady(s)
    ensures SomeReady(s, Elements(ids))
  {
    SortedIsASort(s, ReadyIds(s));
    hide IdBefore, DistinctSeqs, Sorted;
    forall id | id in Elements(ids) ensures id in ReadyIds(s) {
      var i :| 0 <= i < |ids| && ids[i] == id;
      assert SortedReady(s)[i] == id;
    }
  }

  // Every operation, at any later time, keeps the invariant.
  lemma StepKeepsInv(c: Core, e: Event, now: int)
    requires Inv(c) && c.now <= now && Enabled(c.s, c.used, e, now)
    ensures Inv(Next(c, e, now))
  {
    var d := c.(now := now);
    InvLater(c, now);
    assert StateFits(d.s, now);
    hide Inv, StateFits, EntryFits, Promote, Age, Lease, MsgsOf;
    assert d.log + [] == d.log && d.used + {} == d.used;
    match e
    case EvEnqueue(m) => EnqueueKeepsInv(d, m);
    case EvAck(id) => AckKeepsInv(d, id);
    case EvNack(id) => AttemptKeepsInv(d, e, id);
    case EvExpire(id) => AttemptKeepsInv(d, e, id);
    case EvPromote =>
      PromoteIsQuiet(d.s, now);
      PromoteKeepsRest(d.s, now);
      QuietKeepsInv(d, Promote(d.s, now));
    case EvAge =>
      AgeIsQuiet(d.s, now);
      PromoteKeepsRest(d.s, now);
      QuietKeepsInv(d, Age(d.s, now));
    case EvDequeue(ids, deadline) =>
      var p := Promote(d.s, now);
      PromoteIsQuiet(d.s, now);
      PromoteKeepsRest(d.s, now);
      TakenAreReady(p, ids);
      LeaseIsQuiet(p, Elements(ids), deadline, now);
      PromoteKeepsRest(p, now);
      LeaseKeepsRest(p, Elements(ids), deadline);
      QuietKeepsInv(d, Lease(p, Elements(ids), deadline));
    case EvPurge =>
      PurgeFits(d.s, now);
      QuietKeepsInv(d, Purge(d.s, now));
  }

  lemma PromoteKeepsRest(s: State, now: int)
    ensures Promote(s, now).(live := s.live) == s && Age(s, now).(live := s.live) == s
  {
  }

  lemma LeaseKeepsRest(s: State, ids: set<bytes>, deadline: int)
    ensures Lease(s, ids, deadline).(live := s.live) == s
  {
  }

  lemma PurgeFits(s: State, now: int)
    requires StateFits(s, now)
    ensures StateFits(Purge(s, now), now) && Purge(s, now).(dedup := s.dedup) == s
  {
  }
}
