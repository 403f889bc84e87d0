// The queue's state as a value, and every transition on it: what the methods of Queue are proved against.
module QueueState {
  import opened Bytes
  import opened Messages

  datatype Status = Ready(eff: int) | Delayed | InFlight(deadline: int) | Dead

  datatype Entry = Entry(m: Msg, status: Status)

  datatype State = State(cfg: Config, nextSeq: nat, live: map<bytes, Entry>, dedup: map<bytes, DedupEntry>)

  // One log record, its payload decoded.
  datatype LogRec =
    | MetaRec(cfg: Config)
    | EnqueueRec(m: Msg, dead: bool)
    | AckRec(id: bytes)
    | NackRec(id: bytes)
    | ExpireRec(id: bytes)
    | DedupRec(e: DedupEntry)

  const EMPTY_CONFIG := Config("", Unset, false, 0, 0, 0, 0, 0, 0)

  // newQueue
  const NEW_QUEUE := State(EMPTY_CONFIG, 1, map[], map[])

  function Max(a: int, b: int): int {
    if a > b then a else b
  }

  // place
  function Placed(cfg: Config, m: Msg, now: int): Status {
    if m.visibleAt > now then Delayed else Ready(EffectivePriority(cfg, m.priority, m.createdAt, now))
  }

  function DedupOf(cfg: Config, m: Msg): DedupEntry {
    DedupEntry(m.dedupID, m.id, m.createdAt + cfg.DedupWindow())
  }

  function Remember(cfg: Config, dedup: map<bytes, DedupEntry>, m: Msg): map<bytes, DedupEntry> {
    if m.dedupID == [] then dedup else dedup[m.dedupID := DedupOf(cfg, m)]
  }

  function ApplyEnqueue(s: State, m: Msg, dead: bool, now: int): Option<State> {
    if m.id in s.live then None
    else Some(s.(
      nextSeq := Max(s.nextSeq, m.seqNo + 1),
      live := s.live[m.id := Entry(m, if dead then Dead else Placed(s.cfg, m, now))],
      dedup := Remember(s.cfg, s.dedup, m)))
  }

  function ApplyAck(s: State, id: bytes): Option<State> {
    if id !in s.live then None else Some(s.(live := s.live - {id}))
  }

  // The message after one more failed delivery.
  function Attempted(cfg: Config, m: Msg, now: int): Entry {
    var n := m.attempts + 1;
    if n >= cfg.maxAttempts then Entry(m.(attempts := n), Dead)
    else
      var m' := m.(attempts := n, visibleAt := now);
      Entry(m', Placed(cfg, m', now))
  }

  function ApplyAttempt(s: State, id: bytes, now: int): Option<State> {
    if id !in s.live then None
    else Some(s.(live := s.live[id := Attempted(s.cfg, s.live[id].m, now)]))
  }

  function ApplyMeta(s: State, cfg: Config): Option<State> {
    match Validate(cfg)
    case None => None
    case Some(c) => Some(s.(cfg := c, nextSeq := Max(s.nextSeq, c.nextSeq)))
  }

  // apply: replay of one record, at the time it is replayed.
  function ApplyRec(s: State, r: LogRec, now: int): Option<State> {
    match r
    case MetaRec(cfg) => ApplyMeta(s, cfg)
    case EnqueueRec(m, dead) => ApplyEnqueue(s, m, dead, now)
    case AckRec(id) => ApplyAck(s, id)
    case NackRec(id) => ApplyAttempt(s, id, now)
    case ExpireRec(id) => ApplyAttempt(s, id, now)
    case DedupRec(e) => Some(s.(dedup := s.dedup[e.dedupID := e]))
  }

  predicate IsDuplicate(s: State, dedupID: bytes, now: int) {
    dedupID != [] && dedupID in s.dedup && now < s.dedup[dedupID].expiresAt
  }

  predicate Due(e: Entry, now: int) {
    e.status.Delayed? && e.m.visibleAt <= now
  }

  function MakeReady(cfg: Config, e: Entry, now: int): Entry {
    e.(status := Ready(EffectivePriority(cfg, e.m.priority, e.m.createdAt, now)))
  }

  // promoteDue
  function Promote(s: State, now: int): State {
    s.(live := map id | id in s.live :: if Due(s.live[id], now) then MakeReady(s.cfg, s.live[id], now) else s.live[id])
  }

  // agePriorities, when it runs
  function Age(s: State, now: int): State {
    s.(live := map id | id in s.live ::
      if s.live[id].status.Ready? then MakeReady(s.cfg, s.live[id], now) else s.live[id])
  }

  // The purge of expired dedup entries
  function Purge(s: State, now: int): State {
    s.(dedup := map d | d in s.dedup && now < s.dedup[d].expiresAt :: s.dedup[d])
  }

  // Leasing some ready messages
  function Lease(s: State, ids: set<bytes>, deadline: int): State {
    s.(live := map id | id in s.live :: if id in ids then s.live[id].(status := InFlight(deadline)) else s.live[id])
  }

  function ReadyIds(s: State): set<bytes> {
    set id | id in s.live && s.live[id].status.Ready?
  }

  function InFlightIds(s: State): set<bytes> {
    set id | id in s.live && s.live[id].status.InFlight?
  }

  // Live messages never share a sequence number.
  predicate DistinctSeqs(s: State) {
    forall a, b :: a in s.live && b in s.live && a != b ==> s.live[a].m.seqNo != s.live[b].m.seqNo
  }

  predicate SomeReady(s: State, ids: set<bytes>) {
    forall id :: id in ids ==> id in s.live && s.live[id].status.Ready?
  }

  function RankOf(s: State, id: bytes): Rank
    requires id in s.live && s.live[id].status.Ready?
  {
    Rank(s.live[id].status.eff, s.live[id].m.seqNo)
  }

  predicate IdBefore(s: State, a: bytes, b: bytes)
    requires SomeReady(s, {a, b})
  {
    Less(s.cfg, RankOf(s, a), RankOf(s, b))
  }

  predicate IsFirst(s: State, ids: set<bytes>, f: bytes)
    requires SomeReady(s, ids)
  {
    f in ids && forall x :: x in ids && x != f ==> IdBefore(s, f, x)
  }

  lemma {:induction false} FirstExists(s: State, ids: set<bytes>)
    requires SomeReady(s, ids) && DistinctSeqs(s) && ids != {}
    ensures exists f :: IsFirst(s, ids, f)
    decreases ids
  {
    hide Less;
    var x :| x in ids;
    var rest := ids - {x};
    if rest == {} {
      assert ids == {x};
      assert IsFirst(s, ids, x);
    } else {
      FirstExists(s, rest);
      var f :| IsFirst(s, rest, f);
      LessIsStrictTotal(s.cfg, RankOf(s, x), RankOf(s, f), RankOf(s, f));
      if IdBefore(s, f, x) {
        assert IsFirst(s, ids, f);
      } else {
        assert IdBefore(s, x, f);
        forall y | y in ids && y != x ensures IdBefore(s, x, y) {
          assert y != f ==> IdBefore(s, f, y);
          LessIsStrictTotal(s.cfg, RankOf(s, x), RankOf(s, f), RankOf(s, y));
        }
        assert IsFirst(s, ids, x);
      }
    }
  }

  lemma FirstIsUnique(s: State, ids: set<bytes>, f: bytes, g: bytes)
    requires SomeReady(s, ids) && IsFirst(s, ids, f) && IsFirst(s, ids, g)
    ensures f == g
  {
    LessIsStrictTotal(s.cfg, RankOf(s, f), RankOf(s, g), RankOf(s, f));
  }

  ghost function First(s: State, ids: set<bytes>): (f: bytes)
    requires SomeReady(s, ids) && DistinctSeqs(s) && ids != {}
    ensures IsFirst(s, ids, f)
  {
    FirstExists(s, ids);
    var f :| IsFirst(s, ids, f);
    f
  }

  // A plain sort of ready messages by the comparator, with no heap in sight.
  ghost function Sorted(s: State, ids: set<bytes>): (q: seq<bytes>)
    requires SomeReady(s, ids) && DistinctSeqs(s)
    ensures |q| == |ids|
    decreases ids
  {
    if ids == {} then [] else [First(s, ids)] + Sorted(s, ids - {First(s, ids)})
  }

  ghost function SortedReady(s: State): seq<bytes>
    requires DistinctSeqs(s)
  {
    Sorted(s, ReadyIds(s))
  }

  // q lists exactly `ids`, each once, each before all that follow it.
  ghost predicate IsSortOf(s: State, ids: set<bytes>, q: seq<bytes>)
    requires SomeReady(s, ids)
  {
    && (forall id :: id in q <==> id in ids)
    && (forall i, j :: 0 <= i < j < |q| ==> q[i] in ids && q[j] in ids && q[i] != q[j] && IdBefore(s, q[i], q[j]))
  }

  lemma {:induction false} SortedIsASort(s: State, ids: set<bytes>)
    requires SomeReady(s, ids) && DistinctSeqs(s)
    ensures IsSortOf(s, ids, Sorted(s, ids))
    decreases ids
  {
    hide IdBefore, DistinctSeqs, IsSortOf;
    if ids == {} {
      EmptyIsSortOf(s);
    } else {
      var f := First(s, ids);
      SortedIsASort(s, ids - {f});
      ConsIsSortOf(s, ids, f, Sorted(s, ids - {f}));
    }
  }

  lemma EmptyIsSortOf(s: State)
    ensures IsSortOf(s, {}, [])
  {
  }

  lemma ConsIsSortOf(s: State, ids: set<bytes>, f: bytes, rest: seq<bytes>)
    requires SomeReady(s, ids) && IsFirst(s, ids, f) && IsSortOf(s, ids - {f}, rest)
    ensures IsSortOf(s, ids, [f] + rest)
  {
    hide IdBefore;
    var q := [f] + rest;
    forall id ensures id in q <==> id in ids {
      assert id in q <==> id == f || id in rest;
    }
    forall i, j | 0 <= i < j < |q|
      ensures q[i] in ids && q[j] in ids && q[i] != q[j] && IdBefore(s, q[i], q[j])
    {
      assert q[j] == rest[j - 1] && rest[j - 1] in rest;
      if i > 0 { assert q[i] == rest[i - 1]; }
    }
  }

  // The comparator leaves no choice: any list with those properties is the sort.
  lemma {:induction false} SortIsUnique(s: State, ids: set<bytes>, q: seq<bytes>)
    requires SomeReady(s, ids) && DistinctSeqs(s) && IsSortOf(s, ids, q)
    ensures q == Sorted(s, ids)
    decreases |q|
  {
    hide IdBefore, DistinctSeqs;
    if q == [] {
      assert ids == {};
    } else {
      var f, rest := q[0], q[1..];
      assert f in q && q == [f] + rest;
      HeadIsFirst(s, ids, q);
      FirstIsUnique(s, ids, f, First(s, ids));
      TailIsSortOf(s, ids, q);
      SortIsUnique(s, ids - {f}, rest);
    }
  }

  lemma HeadIsFirst(s: State, ids: set<bytes>, q: seq<bytes>)
    requires SomeReady(s, ids) && IsSortOf(s, ids, q) && q != []
    ensures IsFirst(s, ids, q[0])
  {
    hide IdBefore;
    assert q[0] in q;
    forall x | x in ids && x != q[0] ensures IdBefore(s, q[0], x) {
      assert x in q;
      var j :| 0 <= j < |q| && q[j] == x;
    }
  }

  lemma TailMembers(ids: set<bytes>, q: seq<bytes>)
    requires q != [] && (forall id :: id in q <==> id in ids) && forall j :: 0 < j < |q| ==> q[0] != q[j]
    ensures forall id :: id in q[1..] <==> id in ids - {q[0]}
  {
    forall id ensures id in q[1..] <==> id in ids && id != q[0] {
      assert q == [q[0]] + q[1..];
      assert id in q <==> id == q[0] || id in q[1..];
    }
  }

  lemma TailIsSortOf(s: State, ids: set<bytes>, q: seq<bytes>)
    requires SomeReady(s, ids) && IsSortOf(s, ids, q) && q != []
    ensures IsSortOf(s, ids - {q[0]}, q[1..])
  {
    hide IdBefore;
    var rest := q[1..];
    TailMembers(ids, q);
    forall i, j | 0 <= i < j < |rest|
      ensures rest[i] in ids - {q[0]} && rest[j] in ids - {q[0]} && rest[i] != rest[j] && IdBefore(s, rest[i], rest[j])
    {
      assert rest[i] == q[i + 1] && rest[j] == q[j + 1];
      assert rest[i] in rest && rest[j] in rest;
    }
  }

  // Being ahead of another ready message, in the messages' own numbers. With priorities on no lower priority is ahead;
  // without them, or at equal priority, sequence numbers decide, the greater one ahead exactly when the ordering is
  // LIFO.
  predicate Ahead(s: State, a: bytes, b: bytes)
    requires SomeReady(s, {a, b})
  {
    var x, y := s.live[a], s.live[b];
    && (s.cfg.priorityEnabled ==> x.status.eff >= y.status.eff)
    && (!s.cfg.priorityEnabled || x.status.eff == y.status.eff ==>
          x.m.seqNo != y.m.seqNo && (x.m.seqNo > y.m.seqNo <==> s.cfg.ordering == LIFO))
  }

  // q is a line of ready messages, each ahead of all that follow it.
  ghost predicate InLine(s: State, q: seq<bytes>) {
    && (forall i :: 0 <= i < |q| ==> SomeReady(s, {q[i]}))
    && (forall i, j :: 0 <= i < j < |q| ==> Ahead(s, q[i], q[j]))
  }

  // q is the first part of the line, n long or all of it: whoever is ready and not in it is behind everybody who is.
  ghost predicate FirstInLine(s: State, q: seq<bytes>, n: nat) {
    && InLine(s, q) && |q| <= n
    && (forall id :: id in s.live && s.live[id].status.Ready? && id !in q ==>
          |q| == n && forall i :: 0 <= i < n ==> Ahead(s, q[i], id))
  }

  lemma BeforeIsAhead(s: State, a: bytes, b: bytes)
    requires SomeReady(s, {a, b}) && IdBefore(s, a, b)
    ensures Ahead(s, a, b)
  {
  }

  // A plain sort gives that line, and any n of its first are the first in line.
  lemma SortedInLine(s: State, n: nat)
    requires DistinctSeqs(s)
    ensures var all := SortedReady(s); FirstInLine(s, all[..if n < |all| then n else |all|], n)
  {
    hide IdBefore, DistinctSeqs, Ahead, Sorted;
    var all := SortedReady(s);
    var q := all[..if n < |all| then n else |all|];
    SortedIsASort(s, ReadyIds(s));
    forall i | 0 <= i < |all| ensures SomeReady(s, {all[i]}) { assert all[i] in all; }
    forall i, j | 0 <= i < j < |all| ensures Ahead(s, all[i], all[j]) {
      BeforeIsAhead(s, all[i], all[j]);
    }
    forall id | id in s.live && s.live[id].status.Ready? && id !in q
      ensures |q| == n && forall i :: 0 <= i < n ==> Ahead(s, q[i], id)
    {
      assert id in ReadyIds(s) && id in all;
      var k :| 0 <= k < |all| && all[k] == id;
      assert k >= |q|;
    }
  }

  lemma AheadIsBefore(s: State, a: bytes, b: bytes)
    requires SomeReady(s, {a, b}) && Ahead(s, a, b)
    ensures IdBefore(s, a, b) && a != b
  {
  }

  // And the line is the only one: whatever lists the ready messages like that is the sort.
  lemma LineIsUnique(s: State, q: seq<bytes>)
    requires DistinctSeqs(s) && InLine(s, q) && forall id :: id in ReadyIds(s) ==> id in q
    ensures q == SortedReady(s)
  {
    hide IdBefore, DistinctSeqs, Ahead;
    forall id | id in q ensures id in ReadyIds(s) {
      var i :| 0 <= i < |q| && q[i] == id;
      assert SomeReady(s, {q[i]});
    }
    forall i, j | 0 <= i < j < |q|
      ensures q[i] in ReadyIds(s) && q[j] in ReadyIds(s) && q[i] != q[j] && IdBefore(s, q[i], q[j])
    {
      assert q[i] in q && q[j] in q;
      AheadIsBefore(s, q[i], q[j]);
    }
    SortIsUnique(s, ReadyIds(s), q);
  }

  // A message stands ready with the priority that is due to it now.
  ghost predicate ReadyNow(cfg: Config, e: Entry, now: int) {
    e.status.Ready? && Boosts(cfg, e.m.priority, e.m.createdAt, now, e.status.eff)
  }

  // Aging brings every ready message up to date, and leaves the others alone.
  ghost predicate AgedFrom(s: State, t: State, now: int) {
    && t == s.(live := t.live) && t.live.Keys == s.live.Keys
    && forall id :: id in s.live ==>
         if s.live[id].status.Ready? then t.live[id].m == s.live[id].m && ReadyNow(s.cfg, t.live[id], now)
         else t.live[id] == s.live[id]
  }

  lemma AgeMeans(s: State, now: int)
    ensures AgedFrom(s, Age(s, now), now)
  {
    hide EffectivePriority, Boosts;
    forall id | id in s.live && s.live[id].status.Ready? ensures ReadyNow(s.cfg, Age(s, now).live[id], now) {
      EffectiveBoosts(s.cfg, s.live[id].m.priority, s.live[id].m.createdAt, now);
    }
  }

  // Promotion makes exactly the delayed messages ready whose time has come, at the priority due to them.
  ghost predicate PromotedFrom(s: State, t: State, now: int) {
    && t == s.(live := t.live) && t.live.Keys == s.live.Keys
    && forall id :: id in s.live ==>
         if s.live[id].status.Delayed? && s.live[id].m.visibleAt <= now
         then t.live[id].m == s.live[id].m && ReadyNow(s.cfg, t.live[id], now)
         else t.live[id] == s.live[id]
  }

  lemma PromoteMeans(s: State, now: int)
    ensures PromotedFrom(s, Promote(s, now), now)
  {
    hide EffectivePriority, Boosts;
    forall id | id in s.live && Due(s.live[id], now) ensures ReadyNow(s.cfg, Promote(s, now).live[id], now) {
      EffectiveBoosts(s.cfg, s.live[id].m.priority, s.live[id].m.createdAt, now);
    }
  }

  // A message that is placed waits until its time, or is ready now.
  lemma PlacedMeans(cfg: Config, m: Msg, now: int)
    ensures Placed(cfg, m, now).Delayed? <==> m.visibleAt > now
    ensures m.visibleAt <= now ==> ReadyNow(cfg, Entry(m, Placed(cfg, m, now)), now)
  {
    hide EffectivePriority, Boosts;
    EffectiveBoosts(cfg, m.priority, m.createdAt, now);
  }

  // One more failed delivery: one more attempt, dead when they are used up, otherwise ready at once.
  ghost predicate FailedOnce(cfg: Config, m: Msg, e: Entry, now: int) {
    if m.attempts + 1 >= cfg.maxAttempts then e == Entry(m.(attempts := m.attempts + 1), Dead)
    else e.m == m.(attempts := m.attempts + 1, visibleAt := now) && ReadyNow(cfg, e, now)
  }

  lemma AttemptedMeans(cfg: Config, m: Msg, now: int)
    ensures FailedOnce(cfg, m, Attempted(cfg, m, now), now)
  {
    hide EffectivePriority, Boosts;
    EffectiveBoosts(cfg, m.priority, m.createdAt, now);
  }

  // A message handed out was ready or due, and is leased until the deadline; promotion is all that happens to the rest.
  ghost predicate HandedOut(s: State, t: State, ids: set<bytes>, deadline: int, now: int) {
    && t == s.(live := t.live) && t.live.Keys == s.live.Keys && ids <= s.live.Keys
    && forall id :: id in s.live ==>
         var e := s.live[id];
         var due := e.status.Delayed? && e.m.visibleAt <= now;
         if id in ids then (due || e.status.Ready?) && t.live[id] == Entry(e.m, InFlight(deadline))
         else if due then t.live[id].m == e.m && ReadyNow(s.cfg, t.live[id], now)
         else t.live[id] == e
  }

  lemma LeaseMeans(s: State, q: seq<bytes>, ids: set<bytes>, n: nat, deadline: int, now: int)
    requires FirstInLine(Promote(s, now), q, n) && forall id :: id in ids <==> id in q
    ensures HandedOut(s, Lease(Promote(s, now), ids, deadline), ids, deadline, now)
  {
    hide Ahead, ReadyNow, Promote;
    PromoteMeans(s, now);
    var t := Promote(s, now);
    forall id | id in ids ensures id in t.live && t.live[id].status.Ready? {
      var i :| 0 <= i < |q| && q[i] == id;
      assert SomeReady(t, {q[i]});
    }
  }

  // A new message takes the next number and stands by itself: delayed, or ready at its own priority. Its DedupID is
  // remembered for the window from now on.
  predicate Admitted(s: State, t: State, m: Msg, now: int) {
    && t.cfg == s.cfg && m.seqNo == s.nextSeq && t.nextSeq == s.nextSeq + 1
    && t.live == s.live[m.id := Entry(m, if m.visibleAt > now then Delayed else Ready(m.priority))]
    && t.dedup == if m.dedupID == [] then s.dedup
                  else s.dedup[m.dedupID := DedupEntry(m.dedupID, m.id, now + s.cfg.dedupWindowMS * 1_000_000)]
  }

  lemma EnqueueMeans(s: State, m: Msg, now: int)
    requires m.createdAt == now && m.seqNo == s.nextSeq && m.id !in s.live
    ensures Admitted(s, ApplyEnqueue(s, m, false, now).GetOr(s), m, now)
  {
  }
}
