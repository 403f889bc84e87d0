// Whole runs of one queue: operations, compactions and clean restarts, with a record of what it told its clients.
module Runs {
  import opened Bytes
  import opened Messages
  import opened QueueState
  import opened Images
  import opened Invariants
  import opened Snapshots
  import opened Restarts
  import J = Journal

  // What is left of a message that was acknowledged: its attempts, and whether it was leased at the time.
  datatype Gone = Gone(attempts: nat, leased: bool)

  // The books of one process. start is a message's attempts when the process first had it.
  datatype Ledger = Ledger(
    granted: map<bytes, nat>,
    start: map<bytes, nat>,
    gone: map<bytes, Gone>,
    enqueued: nat,
    acked: nat,
    carried: nat)

  // accepted is every message ever enqueued, in order, across restarts.
  datatype World = World(core: J.Core, accepted: seq<Msg>, books: Ledger)

  datatype Move =
    | Operation(e: J.Event, now: int)
    | Compaction(recs: seq<LogRec>, now: int)
    | CleanRestart(clock: seq<int>, now: int)

  ghost predicate Enabled(w: World, mv: Move) {
    match mv
    case Operation(e, now) => w.core.now <= now && J.Enabled(w.core.s, w.core.used, e, now)
    case Compaction(recs, now) => w.core.now <= now && IsSnapshot(recs, w.core.s, now)
    case CleanRestart(clock, now) =>
      |clock| == |w.core.log| && ClockWithin(clock, w.core.now, now) && w.core.now <= now
  }

  function AttemptsOf(s: State): map<bytes, nat> {
    map id | id in s.live :: s.live[id].m.attempts
  }

  function NewLedger(s: State): Ledger {
    Ledger(map id | id in s.live :: 0, AttemptsOf(s), map[], 0, 0, |s.live|)
  }

  function Posted(b: Ledger, s: State, e: J.Event): Ledger {
    match e
    case EvEnqueue(m) =>
      b.(granted := b.granted[m.id := 0], start := b.start[m.id := m.attempts], enqueued := b.enqueued + 1)
    case EvDequeue(ids, _) =>
      b.(granted := map id | id in b.granted :: b.granted[id] + if id in ids then 1 else 0)
    case EvAck(id) =>
      if id !in s.live then b
      else b.(gone := b.gone[id := Gone(s.live[id].m.attempts, s.live[id].status.InFlight?)], acked := b.acked + 1)
    case _ => b
  }

  function Do(w: World, mv: Move): World {
    match mv
    case Operation(e, now) =>
      World(J.Next(w.core, e, now), w.accepted + (if e.EvEnqueue? then [e.m] else []), Posted(w.books, w.core.s, e))
    case Compaction(recs, now) => w.(core := J.Core(w.core.s, now, recs, |recs|, w.core.used))
    case CleanRestart(clock, now) =>
      if |clock| != |w.core.log| then w
      else
        match Replayed(w.core.log, clock)
        case None => w
        case Some(r) => World(J.Core(r, now, w.core.log, |w.core.log|, w.core.used), w.accepted, NewLedger(r))
  }

  // The last message accepted with a DedupID.
  function Latest(accepted: seq<Msg>, d: bytes): (m: Option<Msg>)
    ensures m.Some? ==> m.value in accepted && m.value.dedupID == d
  {
    if accepted == [] then None
    else
      var n := |accepted| - 1;
      if accepted[n].dedupID == d then Some(accepted[n]) else Latest(accepted[..n], d)
  }

  // What the queue should answer for a DedupID: the latest message accepted with it, while its window is open.
  function Expected(accepted: seq<Msg>, cfg: Config, d: bytes, now: int): Option<DedupEntry> {
    match Latest(accepted, d)
    case None => None
    case Some(m) => if d != [] && now < m.createdAt + cfg.dedupWindowMS * 1_000_000 then Some(DedupOf(cfg, m)) else None
  }

  ghost predicate Answers(w: World, now: int) {
    forall d :: Fresh(w.core.s.dedup, d, now) == Expected(w.accepted, w.core.s.cfg, d, now)
  }

  // Accepted messages that share a DedupID are at least a window apart.
  ghost predicate Spaced(accepted: seq<Msg>, cfg: Config) {
    forall i, j :: 0 <= i < j < |accepted| && accepted[i].dedupID == accepted[j].dedupID != [] ==>
      accepted[j].createdAt >= accepted[i].createdAt + cfg.dedupWindowMS * 1_000_000
  }

  ghost predicate Inv(w: World) {
    && J.Inv(w.core)
    && Answers(w, w.core.now)
    && Spaced(w.accepted, w.core.s.cfg)
    && InOrder(w.accepted, w.core.now)
    && Balanced(w.books, w.core.s, w.core.used)
  }

  // Messages are accepted as time goes on.
  ghost predicate InOrder(accepted: seq<Msg>, now: int) {
    && (forall i :: 0 <= i < |accepted| ==> accepted[i].createdAt <= now)
    && (forall i, j :: 0 <= i <= j < |accepted| ==> accepted[i].createdAt <= accepted[j].createdAt)
  }

  // The leases a message was granted are the attempts it gained, and one more while it is leased.
  predicate Accounted(b: Ledger, id: bytes, attempts: nat, leased: bool) {
    && id in b.granted && id in b.start
    && b.start[id] + b.granted[id] == attempts + if leased then 1 else 0
  }

  ghost predicate Balanced(b: Ledger, s: State, used: set<bytes>) {
    && b.granted.Keys == b.start.Keys <= used
    && LiveAccounted(b, s)
    && GoneAccounted(b, s)
    && NoneOverLeased(b, s)
    && Conserved(b, s)
  }

  ghost predicate LiveAccounted(b: Ledger, s: State) {
    forall id :: id in s.live ==> Accounted(b, id, s.live[id].m.attempts, s.live[id].status.InFlight?)
  }

  ghost predicate GoneAccounted(b: Ledger, s: State) {
    && (forall id :: id in b.gone ==> id !in s.live && Accounted(b, id, b.gone[id].attempts, b.gone[id].leased))
    && (forall id :: id in b.granted ==> id in s.live || id in b.gone)
  }

  // No message is delivered more often than its attempts allow.
  ghost predicate NoneOverLeased(b: Ledger, s: State) {
    forall id :: id in b.granted && id in b.start ==> b.start[id] + b.granted[id] <= s.cfg.maxAttempts
  }

  predicate Conserved(b: Ledger, s: State) {
    b.carried + b.enqueued == b.acked + |s.live|
  }

  lemma AnswersLater(w: World, now: int)
    requires Answers(w, w.core.now) && w.core.now <= now
    ensures Answers(w, now)
  {
    forall d ensures Fresh(w.core.s.dedup, d, now) == Expected(w.accepted, w.core.s.cfg, d, now) {
      assert Fresh(w.core.s.dedup, d, w.core.now) == Expected(w.accepted, w.core.s.cfg, d, w.core.now);
    }
  }

  lemma {:induction false} LatestIsLast(accepted: seq<Msg>, d: bytes, i: nat)
    requires i < |accepted| && accepted[i].dedupID == d
    ensures Latest(accepted, d).Some?
    ensures exists k :: i <= k < |accepted| && accepted[k] == Latest(accepted, d).value
    decreases |accepted|
  {
    var n := |accepted| - 1;
    if accepted[n].dedupID != d {
      LatestIsLast(accepted[..n], d, i);
    }
  }

  // A new message leaves the answers for other DedupIDs alone and is the answer for its own.
  lemma AcceptedAnswers(w: World, m: Msg, now: int)
    requires Answers(w, now) && m.createdAt == now && m.id !in w.core.s.live
    requires w.core.s.cfg.DedupWindow() > 0
    ensures Answers(Do(w, Operation(J.EvEnqueue(m), now)), now)
  {
    var z := Do(w, Operation(J.EvEnqueue(m), now));
    hide EffectivePriority;
    assert z.accepted[..|w.accepted|] == w.accepted;
    forall d ensures Fresh(z.core.s.dedup, d, now) == Expected(z.accepted, z.core.s.cfg, d, now) {
      assert Fresh(w.core.s.dedup, d, now) == Expected(w.accepted, w.core.s.cfg, d, now);
      if d == [] && m.dedupID == [] { assert Expected(w.accepted, w.core.s.cfg, d, now) == None; }
    }
  }

  lemma AcceptedSpaced(w: World, m: Msg, now: int)
    requires Answers(w, now) && Spaced(w.accepted, w.core.s.cfg) && m.createdAt == now
    requires !IsDuplicate(w.core.s, m.dedupID, now)
    requires InOrder(w.accepted, now)
    ensures Spaced(w.accepted + [m], w.core.s.cfg)
  {
    var all := w.accepted + [m];
    forall i, j | 0 <= i < j < |all| && all[i].dedupID == all[j].dedupID != []
      ensures all[j].createdAt >= all[i].createdAt + w.core.s.cfg.dedupWindowMS * 1_000_000
    {
      if j == |w.accepted| {
        LatestIsLast(w.accepted, m.dedupID, i);
        assert Fresh(w.core.s.dedup, m.dedupID, now) == None;
        assert Expected(w.accepted, w.core.s.cfg, m.dedupID, now) == None;
      }
    }
  }

  // The settings of a queue never change, and an operation other than Enqueue leaves every open window as it was.
  lemma SettingsStay(s: State, e: J.Event, now: int)
    ensures J.After(s, e, now).cfg == s.cfg
    ensures !e.EvEnqueue? ==> forall d :: Fresh(J.After(s, e, now).dedup, d, now) == Fresh(s.dedup, d, now)
  {
    hide EffectivePriority, Attempted;
  }

  lemma AnswersKept(w: World, e: J.Event, now: int)
    requires Inv(w) && Enabled(w, Operation(e, now))
    ensures var z := Do(w, Operation(e, now));
            Answers(z, now) && Spaced(z.accepted, z.core.s.cfg) && InOrder(z.accepted, now)
  {
    hide J.Inv, Balanced, J.After, Expected, Fresh, J.Enabled;
    AnswersLater(w, now);
    SettingsStay(w.core.s, e, now);
    if e.EvEnqueue? {
      AcceptedKept(w, e.m, now);
    } else {
      assert Do(w, Operation(e, now)).accepted == w.accepted;
    }
  }

  lemma AcceptedKept(w: World, m: Msg, now: int)
    requires J.Inv(w.core) && J.Enabled(w.core.s, w.core.used, J.EvEnqueue(m), now)
    requires Answers(w, now) && Spaced(w.accepted, w.core.s.cfg) && InOrder(w.accepted, now)
    requires J.After(w.core.s, J.EvEnqueue(m), now).cfg == w.core.s.cfg
    ensures var z := Do(w, Operation(J.EvEnqueue(m), now));
            Answers(z, now) && Spaced(z.accepted, z.core.s.cfg) && InOrder(z.accepted, now)
  {
    hide J.Inv, J.After, Answers, J.Enabled, Spaced, IsDuplicate;
    FreshIsNew(w.core, m, now);
    AcceptedAnswers(w, m, now);
    AcceptedSpaced(w, m, now);
  }

  lemma FreshIsNew(c: J.Core, m: Msg, now: int)
    requires J.Inv(c) && J.Enabled(c.s, c.used, J.EvEnqueue(m), now)
    ensures m.id !in c.s.live && m.createdAt == now && m.attempts == 0 && c.s.cfg.DedupWindow() > 0
    ensures !IsDuplicate(c.s, m.dedupID, now) && m.id !in c.used && c.s.live.Keys <= c.used
  {
    assert c.s.live.Keys == ImageOf(c.s).msgs.Keys by { MsgsKeys(c.s.live); }
    assert Validated(ImageOf(c.s).cfg);
    hide Good, IFold;
  }

  // A message is dead exactly when its attempts are used up.
  lemma DeadWhenUsedUp(c: J.Core, id: bytes)
    requires J.Inv(c) && id in c.s.live
    ensures c.s.live[id].status.Dead? <==> c.s.live[id].m.attempts >= c.s.cfg.maxAttempts
    ensures c.s.live[id].m.attempts <= c.s.cfg.maxAttempts
    ensures id in c.used
  {
    assert ImageOf(c.s).msgs[id] == StoredOf(c.s.live[id]);
    hide IFold, SeqsGood, DedupGood, BoundsGood, Keyed, Validated;
  }

  lemma BalancedEnqueue(b: Ledger, s: State, used: set<bytes>, m: Msg, now: int)
    requires Balanced(b, s, used) && m.id !in used && m.id !in s.live && m.attempts == 0 && s.cfg.maxAttempts >= 0
    ensures Balanced(Posted(b, s, J.EvEnqueue(m)), J.After(s, J.EvEnqueue(m), now), used + {m.id})
  {
    hide EffectivePriority;
    var t := J.After(s, J.EvEnqueue(m), now);
    var e := t.live[m.id];
    assert t.cfg == s.cfg && t.live == s.live[m.id := e] && e.m.attempts == 0 && !e.status.InFlight?;
    hide J.After;
    BalancedAdded(b, s, t, used, m, e);
  }

  lemma BalancedAdded(b: Ledger, s: State, t: State, used: set<bytes>, m: Msg, e: Entry)
    requires Balanced(b, s, used) && m.id !in used && m.id !in s.live && m.attempts == 0 && s.cfg.maxAttempts >= 0
    requires t.cfg == s.cfg && t.live == s.live[m.id := e] && e.m.attempts == 0 && !e.status.InFlight?
    ensures Balanced(Posted(b, s, J.EvEnqueue(m)), t, used + {m.id})
  {
    var b' := Posted(b, s, J.EvEnqueue(m));
    AddedLive(b, s, t, m, e);
    AddedGone(b, s, t, m, e);
    AddedBounds(b, s, t, used, m, e);
    hide LiveAccounted, GoneAccounted, Conserved, NoneOverLeased;
  }

  lemma AddedLive(b: Ledger, s: State, t: State, m: Msg, e: Entry)
    requires LiveAccounted(b, s) && m.id !in s.live && m.attempts == 0
    requires t.live == s.live[m.id := e] && e.m.attempts == 0 && !e.status.InFlight?
    ensures LiveAccounted(Posted(b, s, J.EvEnqueue(m)), t)
  {
  }

  lemma AddedGone(b: Ledger, s: State, t: State, m: Msg, e: Entry)
    requires GoneAccounted(b, s) && m.id !in b.granted && t.live == s.live[m.id := e]
    ensures GoneAccounted(Posted(b, s, J.EvEnqueue(m)), t)
  {
  }

  lemma AddedBounds(b: Ledger, s: State, t: State, used: set<bytes>, m: Msg, e: Entry)
    requires NoneOverLeased(b, s) && Conserved(b, s) && m.id !in s.live && m.attempts == 0 && s.cfg.maxAttempts >= 0
    requires t.cfg == s.cfg && t.live == s.live[m.id := e] && b.granted.Keys == b.start.Keys <= used
    ensures var b' := Posted(b, s, J.EvEnqueue(m));
            NoneOverLeased(b', t) && Conserved(b', t) && b'.granted.Keys == b'.start.Keys <= used + {m.id}
  {
    assert |t.live| == |s.live| + 1;
  }

  lemma BalancedAck(b: Ledger, s: State, used: set<bytes>, id: bytes, now: int)
    requires Balanced(b, s, used) && id in s.live
    ensures Balanced(Posted(b, s, J.EvAck(id)), J.After(s, J.EvAck(id), now), used)
  {
    assert (s.live - {id}).Keys == s.live.Keys - {id};
    assert |s.live| == |(s.live - {id})| + 1;
  }

  lemma BalancedAttempt(b: Ledger, s: State, used: set<bytes>, e: J.Event, id: bytes, now: int)
    requires Balanced(b, s, used) && J.Leased(s, id) && (e == J.EvNack(id) || e == J.EvExpire(id))
    ensures Balanced(Posted(b, s, e), J.After(s, e, now), used)
  {
    hide EffectivePriority;
    var t := J.After(s, e, now);
    var x := t.live[id];
    assert t.cfg == s.cfg && t.live == s.live[id := x] && x.m.attempts == s.live[id].m.attempts + 1;
    assert !x.status.InFlight?;
    hide J.After, Balanced;
    BalancedReturned(b, s, t, used, id, x);
  }

  lemma BalancedReturned(b: Ledger, s: State, t: State, used: set<bytes>, id: bytes, x: Entry)
    requires Balanced(b, s, used) && J.Leased(s, id) && t.cfg == s.cfg && t.live == s.live[id := x]
    requires x.m.attempts == s.live[id].m.attempts + 1 && !x.status.InFlight?
    ensures Balanced(b, t, used)
  {
    assert |t.live| == |t.live.Keys| && t.live.Keys == s.live.Keys;
    assert LiveAccounted(b, t) by { hide GoneAccounted, NoneOverLeased, Conserved; }
    hide LiveAccounted;
  }

  // Events that change no attempts and no leases.
  lemma BalancedQuiet(b: Ledger, s: State, t: State, used: set<bytes>)
    requires Balanced(b, s, used) && t.live.Keys == s.live.Keys && t.cfg == s.cfg
    requires forall id :: id in s.live ==>
               && t.live[id].m.attempts == s.live[id].m.attempts
               && (t.live[id].status.InFlight? <==> s.live[id].status.InFlight?)
    ensures Balanced(b, t, used)
  {
    assert |t.live| == |t.live.Keys| == |s.live.Keys| == |s.live|;
  }

  lemma QuietEvents(s: State, now: int)
    ensures var t := Promote(s, now);
            && t.live.Keys == s.live.Keys && t.cfg == s.cfg
            && forall id :: id in s.live ==>
                      t.live[id].m == s.live[id].m && (t.live[id].status.InFlight? <==> s.live[id].status.InFlight?)
    ensures var t := Age(s, now);
            && t.live.Keys == s.live.Keys && t.cfg == s.cfg
            && forall id :: id in s.live ==>
                      t.live[id].m == s.live[id].m && (t.live[id].status.InFlight? <==> s.live[id].status.InFlight?)
  {
    hide EffectivePriority;
  }

  // Each leased message was ready, so it was under no lease; it is granted one.
  lemma BalancedLease(b: Ledger, s: State, used: set<bytes>, ids: set<bytes>, deadline: int)
    requires Balanced(b, s, used) && SomeReady(s, ids)
    requires forall id :: id in ids ==> s.live[id].m.attempts < s.cfg.maxAttempts
    ensures Balanced(b.(granted := map id | id in b.granted :: b.granted[id] + if id in ids then 1 else 0),
                     Lease(s, ids, deadline), used)
  {
    var t := Lease(s, ids, deadline);
    assert t.live.Keys == s.live.Keys;
    assert |t.live| == |t.live.Keys| == |s.live.Keys| == |s.live|;
    var b' := b.(granted := map id | id in b.granted :: b.granted[id] + if id in ids then 1 else 0);
    assert b'.granted.Keys == b.granted.Keys;
    forall id | id in s.live ensures Accounted(b', id, t.live[id].m.attempts, t.live[id].status.InFlight?) {
      assert Accounted(b, id, s.live[id].m.attempts, s.live[id].status.InFlight?);
    }
    forall id | id in b.gone ensures Accounted(b', id, b.gone[id].attempts, b.gone[id].leased) {
      assert Accounted(b, id, b.gone[id].attempts, b.gone[id].leased);
    }
  }

  lemma BalancedDequeue(c: J.Core, b: Ledger, ids: seq<bytes>, deadline: int, now: int)
    requires J.Inv(c) && Balanced(b, c.s, c.used) && J.Enabled(c.s, c.used, J.EvDequeue(ids, deadline), now)
    ensures Balanced(Posted(b, c.s, J.EvDequeue(ids, deadline)), J.After(c.s, J.EvDequeue(ids, deadline), now), c.used)
  {
    hide J.Inv, Promote, Lease, SortedReady, DistinctSeqs, Accounted;
    var p := Promote(c.s, now);
    J.TakenAreReady(p, ids);
    QuietEvents(c.s, now);
    forall id | id in c.s.live
      ensures c.s.live[id].status.Dead? <==> c.s.live[id].m.attempts >= c.s.cfg.maxAttempts
    {
      DeadWhenUsedUp(c, id);
    }
    PromotedWereAlive(c.s, J.Elements(ids), now);
    BalancedQuiet(b, c.s, p, c.used);
    hide Balanced, J.Enabled;
    BalancedLease(b, p, c.used, J.Elements(ids), deadline);
    LeasesPosted(b, c.s, ids, deadline);
  }

  lemma LeasesPosted(b: Ledger, s: State, ids: seq<bytes>, deadline: int)
    ensures Posted(b, s, J.EvDequeue(ids, deadline)) ==
            b.(granted := map id | id in b.granted :: b.granted[id] + if id in J.Elements(ids) then 1 else 0)
  {
  }

  lemma PromotedWereAlive(s: State, ids: set<bytes>, now: int)
    requires SomeReady(Promote(s, now), ids)
    ensures forall id :: id in ids ==> id in s.live && !s.live[id].status.Dead?
  {
    hide EffectivePriority;
  }

  lemma BooksKept(w: World, e: J.Event, now: int)
    requires Inv(w) && Enabled(w, Operation(e, now))
    ensures var z := Do(w, Operation(e, now)); Balanced(z.books, z.core.s, z.core.used)
  {
    var c := w.core;
    hide J.Inv, Answers, Spaced, InOrder, Promote, Age, Lease, J.Enabled;
    assert c.used + {} == c.used;
    match e
    case EvEnqueue(m) =>
      FreshIsNew(c, m, now);
      MaxIsPositive(c);
      hide Balanced;
      BalancedEnqueue(w.books, c.s, c.used, m, now);
    case EvDequeue(ids, deadline) =>
      hide Balanced;
      BalancedDequeue(c, w.books, ids, deadline, now);
    case EvAck(id) =>
      EventIsOf(c.s, c.used, e, id, now);
      hide Balanced;
      BalancedAck(w.books, c.s, c.used, id, now);
    case EvNack(id) =>
      EventIsOf(c.s, c.used, e, id, now);
      hide Balanced;
      BalancedAttempt(w.books, c.s, c.used, e, id, now);
    case EvExpire(id) =>
      EventIsOf(c.s, c.used, e, id, now);
      hide Balanced;
      BalancedAttempt(w.books, c.s, c.used, e, id, now);
    case EvPromote =>
      QuietEvents(c.s, now);
      BalancedQuiet(w.books, c.s, Promote(c.s, now), c.used);
    case EvAge =>
      QuietEvents(c.s, now);
      BalancedQuiet(w.books, c.s, Age(c.s, now), c.used);
    case EvPurge =>
      BalancedQuiet(w.books, c.s, Purge(c.s, now), c.used);
  }

  lemma MaxIsPositive(c: J.Core)
    requires J.Inv(c)
    ensures c.s.cfg.maxAttempts >= 1
  {
    assert Validated(ImageOf(c.s).cfg);
    hide Good, IFold;
  }

  lemma EventIsOf(s: State, used: set<bytes>, e: J.Event, id: bytes, now: int)
    requires J.Enabled(s, used, e, now)
    ensures e == J.EvAck(id) ==> id in s.live
    ensures e == J.EvNack(id) || e == J.EvExpire(id) ==> J.Leased(s, id)
  {
  }

  lemma OperationKeepsInv(w: World, e: J.Event, now: int)
    requires Inv(w) && Enabled(w, Operation(e, now))
    ensures Inv(Do(w, Operation(e, now)))
  {
    J.StepKeepsInv(w.core, e, now);
    AnswersKept(w, e, now);
    BooksKept(w, e, now);
    hide J.Inv, Answers, Spaced, InOrder, Balanced, J.After, J.Enabled;
  }

  lemma CompactionKeepsInv(w: World, recs: seq<LogRec>, now: int)
    requires Inv(w) && Enabled(w, Compaction(recs, now))
    ensures Inv(Do(w, Compaction(recs, now)))
  {
    hide J.Inv, Spaced, Balanced, IsSnapshot, Fresh, Expected;
    CompactKeepsInv(w.core, recs, now);
    AnswersLater(w, now);
  }

  lemma ExpectedSettings(accepted: seq<Msg>, a: Config, b: Config)
    requires Settings(a) == Settings(b)
    ensures forall d, now :: Expected(accepted, a, d, now) == Expected(accepted, b, d, now)
    ensures Spaced(accepted, a) ==> Spaced(accepted, b)
  {
  }

  // A restart leases nothing.
  lemma {:induction false} ReplayedUnleased(recs: seq<LogRec>, clock: seq<int>)
    requires |clock| == |recs| && Replayed(recs, clock).Some?
    ensures forall id :: id in Replayed(recs, clock).value.live ==>
              !Replayed(recs, clock).value.live[id].status.InFlight?
    decreases |recs|
  {
    hide EffectivePriority, Validate;
    if recs != [] {
      var n := |recs| - 1;
      ReplayedUnleased(recs[..n], clock[..n]);
    }
  }

  lemma NewBooks(c: J.Core)
    requires J.Inv(c) && forall id :: id in c.s.live ==> !c.s.live[id].status.InFlight?
    ensures Balanced(NewLedger(c.s), c.s, c.used)
  {
    hide J.Inv, LiveAccounted, GoneAccounted, NoneOverLeased;
    forall id | id in c.s.live ensures c.s.live[id].m.attempts <= c.s.cfg.maxAttempts && id in c.used {
      DeadWhenUsedUp(c, id);
    }
    NewSettled(c.s);
  }

  lemma NewSettled(s: State)
    requires forall id :: id in s.live ==> !s.live[id].status.InFlight? && s.live[id].m.attempts <= s.cfg.maxAttempts
    ensures var b := NewLedger(s); LiveAccounted(b, s) && GoneAccounted(b, s) && NoneOverLeased(b, s)
  {
  }

  lemma RestartKeepsBooks(w: World, clock: seq<int>, now: int)
    requires Inv(w) && Enabled(w, CleanRestart(clock, now))
    ensures Inv(Do(w, CleanRestart(clock, now)))
  {
    hide J.Inv, Spaced, Balanced, Fresh, Expected, Replayed, IFold, Answers, ClockWithin;
    var c := w.core;
    BaseWithin(c);
    assert c.log[..|c.log|] == c.log;
    RestartKeepsInv(c, |c.log|, |c.log|, clock, now);
    ReplayRefinesLive(c, clock, now);
    ReplayedUnleased(c.log, clock);
    var z := Do(w, CleanRestart(clock, now));
    NewBooks(z.core);
    ExpectedSettings(w.accepted, c.s.cfg, z.core.s.cfg);
    RestartAnswers(w, z, now);
  }

  lemma RestartAnswers(w: World, z: World, now: int)
    requires Answers(w, w.core.now) && w.core.now <= now && z.accepted == w.accepted
    requires forall d, t :: t >= now ==> Fresh(z.core.s.dedup, d, t) == Fresh(w.core.s.dedup, d, t)
    requires forall d, t :: Expected(w.accepted, w.core.s.cfg, d, t) == Expected(w.accepted, z.core.s.cfg, d, t)
    ensures Answers(z, now)
  {
    hide Fresh, Expected;
    AnswersLater(w, now);
  }

  ghost predicate Legal(w: World, run: seq<Move>)
    decreases |run|
  {
    run == [] || (Enabled(w, run[0]) && Legal(Do(w, run[0]), run[1..]))
  }

  function Run(w: World, run: seq<Move>): World
    decreases |run|
  {
    if run == [] then w else Run(Do(w, run[0]), run[1..])
  }

  lemma {:induction false} RunKeepsInv(w: World, run: seq<Move>)
    requires Inv(w) && Legal(w, run)
    ensures Inv(Run(w, run))
    decreases |run|
  {
    hide Inv, Enabled, Do;
    if run != [] {
      match run[0] {
        case Operation(e, now) => OperationKeepsInv(w, e, now);
        case Compaction(recs, now) => CompactionKeepsInv(w, recs, now);
        case CleanRestart(clock, now) => RestartKeepsBooks(w, clock, now);
      }
      RunKeepsInv(Do(w, run[0]), run[1..]);
    }
  }

  // A queue just made by Create.
  function Begun(cfg: Config, now: int): World {
    World(Created(cfg, now), [], NewLedger(Created(cfg, now).s))
  }

  lemma BegunInv(cfg: Config, now: int)
    requires Validated(cfg) && WithinWidths(cfg)
    ensures Inv(Begun(cfg, now))
  {
    CreatedInv(cfg, now);
    hide J.Inv;
  }

  // Idempotent enqueue, over any run with compactions and clean restarts. Messages accepted with one DedupID were
  // created at least a window apart. At any later time a DedupID is a duplicate exactly while the window of the latest
  // message accepted with it is open, and the answer then names that message, whether or not it is still live.
  lemma IdempotentEnqueue(cfg: Config, start: int, run: seq<Move>, d: bytes, t: int)
    requires Validated(cfg) && WithinWidths(cfg) && Legal(Begun(cfg, start), run)
    requires t >= Run(Begun(cfg, start), run).core.now && d != []
    ensures var w := Run(Begun(cfg, start), run);
            var latest := Latest(w.accepted, d);
            && Spaced(w.accepted, w.core.s.cfg)
            && (IsDuplicate(w.core.s, d, t) <==>
                  latest.Some? && t < latest.value.createdAt + w.core.s.cfg.dedupWindowMS * 1_000_000)
            && (IsDuplicate(w.core.s, d, t) ==> w.core.s.dedup[d].messageID == latest.value.id)
  {
    hide Run, Legal, J.Inv, Balanced, Latest;
    BegunInv(cfg, start);
    RunKeepsInv(Begun(cfg, start), run);
    var w := Run(Begun(cfg, start), run);
    AnswersLater(w, t);
    assert Fresh(w.core.s.dedup, d, t) == Expected(w.accepted, w.core.s.cfg, d, t);
  }

  // Delivery accounting of the process that is running. A message is dead exactly when its attempts are used up; the
  // leases granted for it are the attempts it gained, and one more while it is leased or if it was acknowledged
  // leased; so none is delivered more often than MaxAttempts allows; and no message is lost or made up.
  lemma DeliveryAccounting(cfg: Config, start: int, run: seq<Move>, id: bytes)
    requires Validated(cfg) && WithinWidths(cfg) && Legal(Begun(cfg, start), run)
    ensures var w := Run(Begun(cfg, start), run);
            var s, b := w.core.s, w.books;
            && (id in s.live ==>
                  && (s.live[id].status.Dead? <==> s.live[id].m.attempts >= s.cfg.maxAttempts)
                  && id in b.granted && id in b.start
                  && b.granted[id]
                     == s.live[id].m.attempts - b.start[id] + if s.live[id].status.InFlight? then 1 else 0)
            && (id in b.gone ==>
                  && id in b.granted && id in b.start && id !in s.live
                  && b.granted[id] == b.gone[id].attempts - b.start[id] + if b.gone[id].leased then 1 else 0)
            && (id in b.granted ==> id in b.start && b.start[id] + b.granted[id] <= s.cfg.maxAttempts)
            && b.carried + b.enqueued - b.acked == |s.live|
  {
    hide Run, Legal, J.Inv, Answers, Spaced, InOrder;
    BegunInv(cfg, start);
    RunKeepsInv(Begun(cfg, start), run);
    var w := Run(Begun(cfg, start), run);
    if id in w.core.s.live { DeadWhenUsedUp(w.core, id); }
  }

  // In the first process nothing was carried over, so what was enqueued and not acknowledged is what is live.
  lemma {:induction false} NothingCarried(w: World, run: seq<Move>)
    requires Legal(w, run) && forall i :: 0 <= i < |run| ==> !run[i].CleanRestart?
    ensures Run(w, run).books.carried == w.books.carried
    decreases |run|
  {
    hide Enabled;
    if run != [] {
      NothingCarried(Do(w, run[0]), run[1..]);
    }
  }

  lemma EnqueuedLessAcked(cfg: Config, start: int, run: seq<Move>)
    requires Validated(cfg) && WithinWidths(cfg) && Legal(Begun(cfg, start), run)
    requires forall i :: 0 <= i < |run| ==> !run[i].CleanRestart?
    ensures var w := Run(Begun(cfg, start), run); w.books.enqueued - w.books.acked == |w.core.s.live|
  {
    DeliveryAccounting(cfg, start, run, []);
    NothingCarried(Begun(cfg, start), run);
    assert |Created(cfg, start).s.live| == 0;
  }

  // No message is under two leases: what a Dequeue hands out was under none, and is handed out once.
  lemma NeverLeasedTwice(s: State, used: set<bytes>, ids: seq<bytes>, deadline: int, now: int)
    requires J.Enabled(s, used, J.EvDequeue(ids, deadline), now)
    ensures forall i :: 0 <= i < |ids| ==> ids[i] in s.live && !s.live[ids[i]].status.InFlight?
    ensures forall i, j :: 0 <= i < j < |ids| ==> ids[i] != ids[j]
  {
    hide Promote, IdBefore, DistinctSeqs;
    var p := Promote(s, now);
    J.TakenAreReady(p, ids);
    QuietEvents(s, now);
    SortedIsASort(p, ReadyIds(p));
    forall i, j | 0 <= i < j < |ids| ensures ids[i] != ids[j] {
      assert SortedReady(p)[i] == ids[i] && SortedReady(p)[j] == ids[j];
    }
    forall i | 0 <= i < |ids| ensures ids[i] in s.live && !s.live[ids[i]].status.InFlight? {
      assert ids[i] in J.Elements(ids);
    }
  }
}
