// One turn of each of the queue's loops, on the abstract state.
module QueueLoops {
  import opened Bytes
  import opened Messages
  import opened QueueState
  import J = Journal

  // Promoting one due message first changes nothing in the end.
  lemma PromoteOne(s: State, id: bytes, now: int)
    requires id in s.live && Due(s.live[id], now)
    ensures Promote(s.(live := s.live[id := MakeReady(s.cfg, s.live[id], now)]), now) == Promote(s, now)
  {
    hide EffectivePriority;
  }

  lemma NothingDue(s: State, now: int)
    requires forall id :: id in s.live ==> !Due(s.live[id], now)
    ensures Promote(s, now) == s
  {
    hide EffectivePriority;
  }

  predicate Overdue(e: Entry, now: int) {
    e.status.InFlight? && e.status.deadline <= now
  }

  // What tick does to the leases whose deadlines have passed.
  function Expire(s: State, now: int): State {
    s.(live := map id | id in s.live ::
      if Overdue(s.live[id], now) then Attempted(s.cfg, s.live[id].m, now) else s.live[id])
  }

  // What it has done so far.
  function ExpireIds(s: State, ids: set<bytes>, now: int): (t: State)
    ensures t.live.Keys == s.live.Keys && t.cfg == s.cfg
  {
    s.(live := map id | id in s.live ::
      if id in ids then Attempted(s.cfg, s.live[id].m, now) else s.live[id])
  }

  lemma ExpireNone(s: State, now: int)
    ensures ExpireIds(s, J.Elements([]), now) == s && AllOverdue(s, [], now) && UsedUp(s, []) == 0
  {
    hide Attempted;
  }

  predicate AllOverdue(s: State, ids: seq<bytes>, now: int) {
    forall id :: id in ids ==> id in s.live && Overdue(s.live[id], now)
  }

  // What a tick expires: leases overdue once the due messages are promoted, each of them once.
  predicate Expired(s: State, ids: seq<bytes>, now: int) {
    AllOverdue(Promote(s, now), ids, now) && forall a, b :: 0 <= a < b < |ids| ==> ids[a] != ids[b]
  }

  lemma ExpireOneMore(s: State, ids: seq<bytes>, id: bytes, now: int)
    requires AllOverdue(s, ids, now)
    requires id in s.live && Overdue(ExpireIds(s, J.Elements(ids), now).live[id], now)
    ensures var t := ExpireIds(s, J.Elements(ids), now);
            && t.(live := t.live[id := Attempted(s.cfg, t.live[id].m, now)])
               == ExpireIds(s, J.Elements(ids + [id]), now)
            && AllOverdue(s, ids + [id], now) && id !in ids
            && InFlightIds(ExpireIds(s, J.Elements(ids + [id]), now)) < InFlightIds(t)
  {
    hide EffectivePriority;
    var t := ExpireIds(s, J.Elements(ids), now);
    assert id in InFlightIds(t) && id !in InFlightIds(ExpireIds(s, J.Elements(ids + [id]), now));
  }

  // How many of them have their attempts used up by it.
  function UsedUp(s: State, ids: seq<bytes>): nat {
    if ids == [] then 0
    else
      var id := ids[|ids| - 1];
      UsedUp(s, ids[..|ids| - 1])
      + if id in s.live && s.live[id].m.attempts + 1 >= s.cfg.maxAttempts then 1 else 0
  }

  lemma OneMoreUsedUp(s: State, ids: seq<bytes>, id: bytes, now: int)
    requires id in s.live && id !in ids
    ensures var t := ExpireIds(s, J.Elements(ids), now);
            && id in t.live
            && UsedUp(s, ids + [id])
               == UsedUp(s, ids) + if Attempted(s.cfg, t.live[id].m, now).status.Dead? then 1 else 0
  {
    hide EffectivePriority;
    assert (ids + [id])[..|ids|] == ids;
  }

  lemma AllExpired(s: State, ids: seq<bytes>, now: int)
    requires AllOverdue(s, ids, now)
    requires forall id :: id in s.live ==> !Overdue(ExpireIds(s, J.Elements(ids), now).live[id], now)
    ensures ExpireIds(s, J.Elements(ids), now) == Expire(s, now)
  {
    hide EffectivePriority;
  }

  lemma NothingToAge(s: State, now: int)
    requires ReadyIds(s) == {}
    ensures Age(s, now) == s
  {
    assert forall id :: id in s.live && s.live[id].status.Ready? ==> id in ReadyIds(s);
    hide EffectivePriority;
  }

  // Two states that agree on some ready messages sort them alike.
  predicate AgreeOn(s: State, t: State, ids: set<bytes>) {
    s.cfg == t.cfg && forall id :: id in ids ==> id in s.live && id in t.live && s.live[id] == t.live[id]
  }

  lemma {:induction false} SortedAlike(s: State, t: State, ids: set<bytes>)
    requires AgreeOn(s, t, ids) && SomeReady(s, ids) && DistinctSeqs(s) && DistinctSeqs(t)
    ensures SomeReady(t, ids) && Sorted(s, ids) == Sorted(t, ids)
  {
    SortedIsASort(s, ids);
    SortAlike(s, t, ids, Sorted(s, ids));
    SortIsUnique(t, ids, Sorted(s, ids));
  }

  lemma SortAlike(s: State, t: State, ids: set<bytes>, q: seq<bytes>)
    requires AgreeOn(s, t, ids) && SomeReady(s, ids) && SomeReady(t, ids) && IsSortOf(s, ids, q)
    ensures IsSortOf(t, ids, q)
  {
    hide Less;
    forall i, j | 0 <= i < j < |q|
      ensures q[i] in ids && q[j] in ids && q[i] != q[j] && IdBefore(t, q[i], q[j])
    {
      assert IdBefore(s, q[i], q[j]);
    }
  }

  // Leasing the first ready message leaves the rest of the line as it was.
  lemma LeaseFirst(s: State, id: bytes, deadline: int)
    requires DistinctSeqs(s) && ReadyIds(s) != {} && IsFirst(s, ReadyIds(s), id)
    ensures var t := s.(live := s.live[id := s.live[id].(status := InFlight(deadline))]);
            DistinctSeqs(t) && SortedReady(s) == [id] + SortedReady(t)
  {
    var t := s.(live := s.live[id := s.live[id].(status := InFlight(deadline))]);
    FirstIsUnique(s, ReadyIds(s), id, First(s, ReadyIds(s)));
    assert ReadyIds(t) == ReadyIds(s) - {id};
    assert DistinctSeqs(t);
    hide IdBefore, DistinctSeqs, IsFirst, ReadyIds;
    SortedAlike(s, t, ReadyIds(s) - {id});
  }

  // Leases add up.
  lemma LeaseOneMore(s: State, ids: seq<bytes>, id: bytes, deadline: int)
    requires id in ReadyIds(Lease(s, J.Elements(ids), deadline))
    ensures var t := Lease(s, J.Elements(ids), deadline);
            && id in s.live && t.live[id] == s.live[id]
            && t.(live := t.live[id := t.live[id].(status := InFlight(deadline))])
               == Lease(s, J.Elements(ids + [id]), deadline)
  {
  }

  lemma PromoteKeepsSeqs(s: State, now: int)
    requires DistinctSeqs(s)
    ensures DistinctSeqs(Promote(s, now))
  {
    hide EffectivePriority;
  }

  lemma LeaseNone(s: State, deadline: int)
    ensures Lease(s, J.Elements([]), deadline) == s
  {
  }

  lemma NoneLeft(s: State)
    requires DistinctSeqs(s) && ReadyIds(s) == {}
    ensures SortedReady(s) == []
  {
  }

  // Nothing that should already have happened is left.
  predicate NothingPast(s: State, now: int) {
    forall id :: id in s.live ==>
      && (s.live[id].status.Delayed? ==> s.live[id].m.visibleAt > now)
      && (s.live[id].status.InFlight? ==> s.live[id].status.deadline > now)
  }

  // What a tick goes on to do after the leases, whether or not an append failed among them.
  function Tidied(s: State, now: int, aging: bool, purging: bool): State {
    var s := if aging then Age(s, now) else s;
    if purging then Purge(s, now) else s
  }

  // Everything a tick does to a healthy queue.
  function Ticked(s: State, now: int, aging: bool, purging: bool): State {
    Tidied(Expire(Promote(s, now), now), now, aging, purging)
  }

  lemma TickSettles(s: State, now: int, aging: bool, purging: bool)
    ensures NothingPast(Ticked(s, now, aging, purging), now)
  {
    hide EffectivePriority;
  }

  // What a tick does to each message, in its own fields: one whose time has come is ready, a lease that has run out is
  // one more failed attempt, a lease or a delay that has not is left alone, and every ready message is brought up to
  // date if it is time for that. The dead stay dead, and no message comes or goes.
  ghost predicate TickedFrom(cfg: Config, e: Entry, e': Entry, now: int, aging: bool) {
    match e.status
    case Delayed => if e.m.visibleAt > now then e' == e else e'.m == e.m && ReadyNow(cfg, e', now)
    case InFlight(deadline) =>
      if deadline > now then e' == e else FailedOnce(cfg, e.m, e', now)
    case Ready(_) => if aging then e'.m == e.m && ReadyNow(cfg, e', now) else e' == e
    case Dead => e' == e
  }

  ghost predicate AllTicked(s: State, t: State, now: int, aging: bool, purging: bool) {
    && t.cfg == s.cfg && t.nextSeq == s.nextSeq && t.live.Keys == s.live.Keys
    && (forall id :: id in s.live ==> TickedFrom(s.cfg, s.live[id], t.live[id], now, aging))
    && (forall d :: d in t.dedup <==> d in s.dedup && (purging ==> now < s.dedup[d].expiresAt))
    && (forall d :: d in t.dedup ==> t.dedup[d] == s.dedup[d])
  }

  lemma TickMeans(s: State, now: int, aging: bool, purging: bool)
    ensures AllTicked(s, Ticked(s, now, aging, purging), now, aging, purging)
  {
    hide EffectivePriority, Boosts;
    forall id | id in s.live
      ensures TickedFrom(s.cfg, s.live[id], Ticked(s, now, aging, purging).live[id], now, aging)
    {
      var m := s.live[id].m;
      EffectiveBoosts(s.cfg, m.priority, m.createdAt, now);
    }
  }

  // A time by which the timer has to have fired.
  predicate NoLater(next: Option<int>, t: int) {
    next.Some? && next.value <= t
  }

  // The events a running queue is waiting for.
  predicate Pending(s: State, lastAge: int, lastPurge: int, purgeInterval: int, t: int) {
    || (exists id :: id in s.live && s.live[id].status.Delayed? && s.live[id].m.visibleAt == t)
    || (exists id :: id in s.live && s.live[id].status.InFlight? && s.live[id].status.deadline == t)
    || (s.cfg.agingIntervalMS > 0 && ReadyIds(s) != {} && t == lastAge + s.cfg.agingIntervalMS * 1_000_000)
    || (s.dedup != map[] && t == lastPurge + purgeInterval)
  }

  // next is the earliest of them.
  ghost predicate IsNext(s: State, lastAge: int, lastPurge: int, purgeInterval: int, next: Option<int>) {
    && (forall t :: Pending(s, lastAge, lastPurge, purgeInterval, t) ==> NoLater(next, t))
    && (next.Some? ==> Pending(s, lastAge, lastPurge, purgeInterval, next.value))
  }
}
