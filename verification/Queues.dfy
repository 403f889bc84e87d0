// queue/queue.go as an object: each method is the code that runs under one hold of the queue's mutex.
module Queues {
  import opened Bytes
  import opened Seqs
  import opened Messages
  import opened QueueState
  import opened QueueLoops
  import J = Journal
  import L = Log
  import G = GroupCommit
  import opened Record
  import opened Codec
  import opened Wire
  import opened Images
  import opened Loading
  import opened Sorting
  import opened Snapshots
  import opened Listings
  import opened Writers
  import opened HeapOrder
  import opened Heaps
  import opened Reordering

  function StatusOf(m: Message): Status
    reads m`state, m`effPriority, m`deadline
  {
    match m.state
    case StateReady => Ready(m.effPriority)
    case StateDelayed => Delayed
    case StateInFlight => InFlight(m.deadline)
    case StateDead => Dead
  }

  function EntryOf(m: Message): Entry
    reads m`visibleAt, m`attempts, m`state, m`effPriority, m`deadline
  {
    Entry(m.Persisted(), StatusOf(m))
  }

  datatype Counters = Counters(
    enqueued: nat,
    dequeued: nat,
    acked: nat,
    nacked: nat,
    expired: nat,
    deadLettered: nat,
    duplicates: nat,
    compactions: nat)

  // Why a call is turned down.
  datatype Refusal = ErrClosed | ErrFailed | ErrNotFound | ErrNotInFlight | ErrAppend | ErrInconsistent

  datatype EnqueueResult =
    | NotAccepted(why: Refusal)
    | Duplicate(id: bytes)
    | Accepted(m: Msg, batch: nat) // the caller goes on to wait for the batch

  datatype Compaction =
    | Turned(why: Refusal)
    | SyncFailed
    | NotInstalled
    | Unsettled(recs: seq<LogRec>)
    | NotReopened(recs: seq<LogRec>)
    | Compacted(recs: seq<LogRec>)

  datatype Answer = Rejected(error: Refusal) | Recorded(batch: nat)

  // A leased message as Dequeue hands it out: a copy.
  datatype LeasedCopy = LeasedCopy(m: Msg, deadline: int)

  function IdsOf(out: seq<LeasedCopy>): (ids: seq<bytes>)
    ensures |ids| == |out| && forall i :: 0 <= i < |out| ==> ids[i] == out[i].m.id
  {
    seq(|out|, i requires 0 <= i < |out| => out[i].m.id)
  }

  // Each copy is of the message as it was, with its new deadline.
  predicate CopiesOf(s: State, out: seq<LeasedCopy>, deadline: int) {
    forall x :: x in out ==> x.m.id in s.live && x == LeasedCopy(s.live[x.m.id].m, deadline)
  }

  lemma NothingOut(s: State, deadline: int)
    ensures CopiesOf(s, [], deadline) && IdsOf([]) == []
  {
  }

  lemma OneMoreOut(s: State, out: seq<LeasedCopy>, x: LeasedCopy, deadline: int, rest: seq<bytes>)
    requires CopiesOf(s, out, deadline) && x.m.id in s.live && x == LeasedCopy(s.live[x.m.id].m, deadline)
    ensures CopiesOf(s, out + [x], deadline) && IdsOf(out + [x]) == IdsOf(out) + [x.m.id]
    ensures IdsOf(out) + ([x.m.id] + rest) == IdsOf(out + [x]) + rest
  {
    assert IdsOf(out + [x]) == IdsOf(out) + [x.m.id];
  }

  lemma FirstIsReady(s: State, id: bytes)
    requires SomeReady(s, ReadyIds(s)) && IsFirst(s, ReadyIds(s), id)
    ensures id in ReadyIds(s) && id in s.live && ReadyIds(s) != {}
  {
  }

  predicate NoRepeats(ms: seq<Message>) {
    forall i, j :: 0 <= i < j < |ms| ==> ms[i] != ms[j]
  }

  twostate predicate Same(m: Message)
    reads m
  {
    && m.index == old(m.index) && m.state == old(m.state) && m.visibleAt == old(m.visibleAt)
    && m.effPriority == old(m.effPriority) && m.deadline == old(m.deadline)
  }

  // A heap whose messages keep their slots and keys stays a heap.
  twostate lemma Untouched(h: Heap)
    requires old(h.Valid()) && h.items == old(h.items) && h.order == old(h.order) && h.inOrder == old(h.inOrder)
    requires forall m :: m in h.items ==>
               m.index == old(m.index) && m.visibleAt == old(m.visibleAt)
               && m.effPriority == old(m.effPriority) && m.deadline == old(m.deadline)
    ensures h.Valid()
  {
    hide Ordered, KeysOf;
    assert h.Keys() == old(h.Keys());
  }

  // The `consider` of nextDeadlineLocked.
  function Sooner(next: Option<int>, t: int): (r: Option<int>)
    ensures r.Some? && (r.value == t || r == next) && r.value <= t
    ensures forall u :: NoLater(next, u) ==> NoLater(r, u)
  {
    if next.None? || t < next.value then Some(t) else next
  }

  const DEDUP_PURGE_INTERVAL: int := 30_000 * MILLISECOND
  const DEFAULT_COMPACT_THRESHOLD: int := 8 * 1024 * 1024

  function ExpiryFrames(ids: seq<bytes>): (fs: seq<Frame>)
    ensures |fs| == |ids|
  {
    seq(|ids|, i requires 0 <= i < |ids| => Frame(TYPE_LEASE_EXPIRE, ids[i]))
  }

  lemma ExpiryFramesMore(ids: seq<bytes>, id: bytes)
    ensures ExpiryFrames([]) == [] && ExpiryFrames(ids + [id]) == ExpiryFrames(ids) + [Frame(TYPE_LEASE_EXPIRE, id)]
  {
  }

  // Where tick's loop over the expired leases stands: from s, l and was it has come to t, p and c, by way of ids.
  predicate ExpiredSoFar(s: State, l: G.LogState<Frame>, was: Counters, ids: seq<bytes>, now: int,
                         t: State, p: G.LogState<Frame>, c: Counters, maxBatch: nat) {
    && AllOverdue(s, ids, now) && t == ExpireIds(s, J.Elements(ids), now)
    && (forall a, b :: 0 <= a < b < |ids| ==> ids[a] != ids[b])
    && p == G.Appended(l, ExpiryFrames(ids)) && (ids != [] ==> !G.Refuses(l))
    && maxBatch == (if ids == [] then 0 else p.NextSeq())
    && c == was.(expired := was.expired + |ids|, deadLettered := was.deadLettered + UsedUp(s, ids))
  }

  lemma SoFarMeans(s: State, l: G.LogState<Frame>, was: Counters, ids: seq<bytes>, now: int,
                   t: State, p: G.LogState<Frame>, c: Counters, maxBatch: nat)
    requires ExpiredSoFar(s, l, was, ids, now, t, p, c, maxBatch)
    ensures AllOverdue(s, ids, now) && t == ExpireIds(s, J.Elements(ids), now)
    ensures forall a, b :: 0 <= a < b < |ids| ==> ids[a] != ids[b]
    ensures p == G.Appended(l, ExpiryFrames(ids)) && (ids != [] ==> !G.Refuses(l))
    ensures maxBatch == if ids == [] then 0 else p.NextSeq()
    ensures c == was.(expired := was.expired + |ids|, deadLettered := was.deadLettered + UsedUp(s, ids))
  {
    hide AllOverdue, ExpireIds, J.Elements, ExpiryFrames, UsedUp;
  }

  lemma NoneExpired(s: State, l: G.LogState<Frame>, was: Counters, now: int)
    ensures ExpiredSoFar(s, l, was, [], now, s, l, was, 0)
  {
    hide AllOverdue, ExpireIds, J.Elements, UsedUp;
    ExpireNone(s, now);
    ExpiryFramesMore([], []);
  }

  lemma SoFarRefuses(s: State, l: G.LogState<Frame>, was: Counters, ids: seq<bytes>, now: int,
                     t: State, p: G.LogState<Frame>, c: Counters, maxBatch: nat)
    requires ExpiredSoFar(s, l, was, ids, now, t, p, c, maxBatch)
    ensures G.Refuses(p) <==> G.Refuses(l)
  {
    hide AllOverdue, ExpireIds, J.Elements, UsedUp, ExpiryFrames;
  }

  lemma OneMoreExpired(s: State, l: G.LogState<Frame>, was: Counters, ids: seq<bytes>, id: bytes, now: int,
                       t: State, p: G.LogState<Frame>, c: Counters, maxBatch: nat)
    requires ExpiredSoFar(s, l, was, ids, now, t, p, c, maxBatch)
    requires id in t.live && Overdue(t.live[id], now) && !G.Refuses(p)
    ensures var x := Attempted(t.cfg, t.live[id].m, now);
            var t' := t.(live := t.live[id := x]);
            var p' := G.Do(p, G.Append(Frame(TYPE_LEASE_EXPIRE, id)));
            var c' := c.(expired := c.expired + 1, deadLettered := c.deadLettered + if x.status.Dead? then 1 else 0);
            var batch := p'.NextSeq();
            && ExpiredSoFar(s, l, was, ids + [id], now, t', p', c', if batch > maxBatch then batch else maxBatch)
            && InFlightIds(t') < InFlightIds(t)
  {
    hide AllOverdue, ExpireIds, J.Elements, Overdue, InFlightIds, ExpiryFrames, UsedUp, Attempted;
    ExpireOneMore(s, ids, id, now);
    OneMoreUsedUp(s, ids, id, now);
    ExpiryFramesMore(ids, id);
    G.AppendedMore(l, ExpiryFrames(ids), Frame(TYPE_LEASE_EXPIRE, id));
  }

  class Queue {
    var cfg: Config
    const ready: Heap
    const delayed: Heap
    const inflight: Heap
    var byID: map<bytes, Message>
    var dlq: seq<Message>
    var dedup: map<bytes, DedupEntry>
    var nextSeq: nat
    var lastAge: int
    var lastPurge: int
    var compactThreshold: int
    var compactFloor: int
    var failed: bool // the log has failed: the queue is read-only
    var closed: bool
    var log: L.Log
    var counters: Counters

    // newQueue
    constructor (l: L.Log)
      ensures Structure({}) && ready.inOrder && Abs() == NEW_QUEUE && log == l && !failed && !closed
      ensures fresh(ready) && fresh(delayed) && fresh(inflight)
      ensures compactFloor == 0 && compactThreshold == 8_388_608
    {
      log := l;
      cfg := EMPTY_CONFIG;
      ready := new Heap(ByComparator(EMPTY_CONFIG));
      delayed := new Heap(ByVisibleAt);
      inflight := new Heap(ByDeadline);
      byID, dlq, dedup, nextSeq := map[], [], map[], 1;
      failed, closed, counters := false, false, Counters(0, 0, 0, 0, 0, 0, 0, 0);
      lastAge, lastPurge, compactThreshold, compactFloor := 0, 0, DEFAULT_COMPACT_THRESHOLD, 0;
    }

    ghost function Abs(): State
      reads this`cfg, this`nextSeq, this`byID, this`dedup
      reads byID.Values`visibleAt, byID.Values`attempts, byID.Values`state, byID.Values`effPriority,
            byID.Values`deadline
    {
      State(cfg, nextSeq, map id | id in byID :: EntryOf(byID[id]), dedup)
    }

    predicate Known(m: Message)
      reads this`byID
    {
      m.id in byID && byID[m.id] == m
    }

    // items holds exactly the messages in a given state, but for those being moved.
    ghost predicate Lists(items: seq<Message>, st: Owner, moving: set<bytes>)
      reads this`byID, items`state, byID.Values`state
    {
      && (forall m :: m in items ==> Known(m) && m.id !in moving && m.state == st)
      && (forall id :: id in byID && id !in moving && byID[id].state == st ==> byID[id] in items)
    }

    function Holder(st: Owner): seq<Message>
      reads this`dlq, ready, delayed, inflight
    {
      match st
      case StateReady => ready.items
      case StateDelayed => delayed.items
      case StateInFlight => inflight.items
      case StateDead => dlq
    }

    // The structural invariant: every message is in exactly the one structure its state names, the heaps of delayed and
    // leased messages are in order, and every message in a heap knows its slot. Messages being moved are in none. That
    // the ready heap is in order is for ready.inOrder to say: nothing but a META record can end it.
    ghost predicate Structure(moving: set<bytes>)
      reads this`cfg, this`byID, this`dlq, ready, delayed, inflight, ready.items, delayed.items, inflight.items
      reads byID.Values`state, dlq`state
    {
      && ready != delayed && delayed != inflight && ready != inflight
      && ready.order == ByComparator(cfg) && delayed.order == ByVisibleAt && inflight.order == ByDeadline
      && ready.Valid() && delayed.Valid() && inflight.Valid() && delayed.inOrder && inflight.inOrder
      && (forall id :: id in byID ==> byID[id].id == id)
      && Lists(ready.items, StateReady, moving)
      && Lists(delayed.items, StateDelayed, moving)
      && Lists(inflight.items, StateInFlight, moving)
      && Lists(dlq, StateDead, moving)
      && NoRepeats(dlq)
    }

    // The bounds guard of detach never skips a removal.
    method Unheap(h: Heap, m: Message)
      requires h.Valid() && m in h.items
      modifies h`items, h.items`index
      ensures h.Valid() && m.index == -1
      ensures forall x :: x in h.items <==> x in old(h.items) && x != m
    {
      if 0 <= m.index < |h.items| {
        var x := h.Remove(m.index);
        SameMembers(h.items, h.Members());
        SameMembers(old(h.items), old(h.Members()));
      }
    }

    method LeaveReady(m: Message)
      requires Structure({}) && Known(m) && m.state == StateReady
      modifies ready`items, byID.Values`index
      ensures Structure({m.id}) && m.index == -1
    {
      hide Heap.Valid, EntryOf, Lists;
      HolderKnows(StateReady, m);
      InIndex(ready.items, StateReady);
      Unheap(ready, m);
      Left(StateReady, m.id);
      StillHeld(StateDelayed, m.id);
      StillHeld(StateInFlight, m.id);
      StillHeld(StateDead, m.id);
      Untouched(delayed);
      Untouched(inflight);
    }

    method LeaveDelayed(m: Message)
      requires Structure({}) && Known(m) && m.state == StateDelayed
      modifies delayed`items, byID.Values`index
      ensures Structure({m.id}) && m.index == -1
    {
      hide Heap.Valid, EntryOf, Lists;
      HolderKnows(StateDelayed, m);
      InIndex(delayed.items, StateDelayed);
      Unheap(delayed, m);
      Left(StateDelayed, m.id);
      StillHeld(StateReady, m.id);
      StillHeld(StateInFlight, m.id);
      StillHeld(StateDead, m.id);
      Untouched(ready);
      Untouched(inflight);
    }

    method LeaveInFlight(m: Message)
      requires Structure({}) && Known(m) && m.state == StateInFlight
      modifies inflight`items, byID.Values`index
      ensures Structure({m.id}) && m.index == -1
    {
      hide Heap.Valid, EntryOf, Lists;
      HolderKnows(StateInFlight, m);
      InIndex(inflight.items, StateInFlight);
      Unheap(inflight, m);
      Left(StateInFlight, m.id);
      StillHeld(StateReady, m.id);
      StillHeld(StateDelayed, m.id);
      StillHeld(StateDead, m.id);
      Untouched(ready);
      Untouched(delayed);
    }

    method LeaveDead(m: Message)
      requires Structure({}) && Known(m) && m.state == StateDead
      modifies this`dlq
      ensures Structure({m.id})
    {
      hide Heap.Valid, EntryOf, Lists;
      HolderKnows(StateDead, m);
      for i := 0 to |dlq|
        invariant dlq == old(dlq) && m !in dlq[..i]
      {
        if dlq[i] == m {
          WithoutAt(dlq, i);
          dlq := dlq[..i] + dlq[i + 1..];
          break;
        }
      }
      Left(StateDead, m.id);
      StillHeld(StateReady, m.id);
      StillHeld(StateDelayed, m.id);
      StillHeld(StateInFlight, m.id);
      Untouched(ready);
      Untouched(delayed);
      Untouched(inflight);
    }

    lemma InIndex(items: seq<Message>, st: Owner)
      requires Lists(items, st, {})
      ensures forall m :: m in items ==> m in byID.Values
    {
    }

    lemma HolderKnows(st: Owner, m: Message)
      requires Lists(Holder(st), st, {}) && Known(m) && m.state == st
      ensures m in Holder(st)
    {
    }

    // The list a message has left,
    twostate lemma Left(new st: Owner, new id: bytes)
      requires old(Lists(Holder(st), st, {})) && byID == old(byID) && id in byID
      requires forall x :: x in byID ==> byID[x].state == old(byID[x].state)
      requires forall m :: m in Holder(st) <==> m in old(Holder(st)) && m != byID[id]
      requires forall x :: x in byID ==> byID[x].id == x
      ensures Lists(Holder(st), st, {id})
    {
    }

    // and the ones it was not in.
    twostate lemma StillHeld(new st: Owner, new id: bytes)
      requires old(Lists(Holder(st), st, {})) && byID == old(byID) && Holder(st) == old(Holder(st))
      requires id in byID && byID[id].state != st
      requires forall x :: x in byID ==> byID[x].state == old(byID[x].state) && (byID[x].state == st ==> Same(byID[x]))
      ensures Lists(Holder(st), st, {id})
      ensures forall m :: m in Holder(st) ==> Same(m)
    {
      forall m | m in Holder(st) ensures Same(m) && m.state == st && m.id != id {
        assert m.id in byID;
      }
    }

    lemma HeapsApart(moving: set<bytes>)
      requires Structure(moving)
      ensures ready != delayed && delayed != inflight && ready != inflight
    {
    }

    lemma IndexKeyed(moving: set<bytes>)
      requires Structure(moving)
      ensures forall id :: id in byID ==> byID[id].id == id
    {
    }

    // detach: only the holder that the state names is touched.
    method Detach(m: Message)
      requires Structure({}) && Known(m)
      modifies ready`items, delayed`items, inflight`items, this`dlq, byID.Values`index
      ensures Structure({m.id}) && m.index == -1
      ensures Abs() == old(Abs())
    {
      hide Structure, Lists, EntryOf, Abs;
      IndexKeyed({});
      match m.state {
        case StateReady => LeaveReady(m);
        case StateDelayed => LeaveDelayed(m);
        case StateInFlight => LeaveInFlight(m);
        case StateDead => LeaveDead(m);
      }
      label Removed:
      m.index := -1;
      MovingAside@Removed(m.id);
      NothingChanged();
    }

    twostate lemma NothingChanged()
      requires cfg == old(cfg) && nextSeq == old(nextSeq) && byID == old(byID) && dedup == old(dedup)
      requires forall x :: x in byID ==>
                 && byID[x].visibleAt == old(byID[x].visibleAt) && byID[x].attempts == old(byID[x].attempts)
                 && byID[x].state == old(byID[x].state) && byID[x].effPriority == old(byID[x].effPriority)
                 && byID[x].deadline == old(byID[x].deadline)
      ensures Abs() == old(Abs())
    {
    }

    // The list a message enters,
    twostate lemma Entered(new st: Owner, new id: bytes)
      requires old(Lists(Holder(st), st, {id})) && byID == old(byID) && id in byID && byID[id].id == id
      requires byID[id].state == st && forall x :: x in byID && x != id ==> byID[x].state == old(byID[x].state)
      requires forall x :: x in byID ==> byID[x].id == x
      requires forall m :: m in Holder(st) <==> m in old(Holder(st)) || m == byID[id]
      ensures Lists(Holder(st), st, {})
    {
      forall m | m in Holder(st) ensures Known(m) && m.state == st {
        if m != byID[id] { assert m.id in byID; }
      }
    }

    // and the ones it does not.
    twostate lemma StillWithout(new st: Owner, new id: bytes)
      requires old(Lists(Holder(st), st, {id})) && byID == old(byID) && Holder(st) == old(Holder(st))
      requires id in byID && byID[id].state != st
      requires forall x :: x in byID && x != id ==>
                 byID[x].state == old(byID[x].state) && (byID[x].state == st ==> Same(byID[x]))
      ensures Lists(Holder(st), st, {})
      ensures forall m :: m in Holder(st) ==> Same(m)
    {
      forall m | m in Holder(st) ensures Same(m) && m.state == st {
        assert m.id in byID;
      }
    }

    // A message being moved is in no structure; the heaps are sound, and hold known messages only.
    lemma HoldersLack(id: bytes)
      requires Structure({id}) && id in byID
      ensures forall st, m :: m in Holder(st) ==> m in byID.Values && m.id != id && m.state == st
      ensures Holder(StateReady) == ready.items && Holder(StateDelayed) == delayed.items
      ensures Holder(StateInFlight) == inflight.items && Holder(StateDead) == dlq && NoRepeats(dlq)
      ensures forall x :: x in byID ==> byID[x].id == x
      ensures ready.Valid() && delayed.Valid() && inflight.Valid()
      ensures ready != delayed && delayed != inflight && ready != inflight
    {
      hide Heap.Valid;
      forall st, m | m in Holder(st) ensures m in byID.Values && m.id != id && m.state == st {
        assert Lists(Holder(st), st, {id});
      }
    }

    // A message has joined the list its state names, and nothing else has moved.
    twostate lemma Joined(new st: Owner, new id: bytes)
      requires old(Structure({id})) && byID == old(byID) && cfg == old(cfg) && id in byID && byID[id].state == st
      requires forall o :: o != st ==> Holder(o) == old(Holder(o))
      requires forall x :: x in byID && x != id ==>
                 byID[x].state == old(byID[x].state) && (byID[x].state != st ==> Same(byID[x]))
      requires forall m :: m in Holder(st) <==> m in old(Holder(st)) || m == byID[id]
      requires match st
               case StateReady => ready.Valid()
               case StateDelayed => delayed.Valid()
               case StateInFlight => inflight.Valid()
               case StateDead => NoRepeats(dlq)
      requires ready.order == old(ready.order) && ready.inOrder == old(ready.inOrder)
      requires delayed.order == old(delayed.order) && delayed.inOrder == old(delayed.inOrder)
      requires inflight.order == old(inflight.order) && inflight.inOrder == old(inflight.inOrder)
      ensures Structure({})
    {
      hide Heap.Valid, Lists;
      forall o | o != st ensures Lists(Holder(o), o, {}) && forall m :: m in Holder(o) ==> Same(m) {
        StillWithout(o, id);
      }
      Entered(st, id);
      assert Holder(StateReady) == ready.items && Holder(StateDelayed) == delayed.items;
      assert Holder(StateInFlight) == inflight.items && Holder(StateDead) == dlq;
      assert st != StateReady ==> ready.Valid() by { if st != StateReady { JoinedOther(StateReady, ready); } }
      assert st != StateDelayed ==> delayed.Valid() by { if st != StateDelayed { JoinedOther(StateDelayed, delayed); } }
      assert st != StateInFlight ==> inflight.Valid() by {
        if st != StateInFlight { JoinedOther(StateInFlight, inflight); }
      }
      assert Lists(Holder(StateReady), StateReady, {}) && Lists(Holder(StateDelayed), StateDelayed, {});
      assert Lists(Holder(StateInFlight), StateInFlight, {}) && Lists(Holder(StateDead), StateDead, {});
    }

    // The heaps the message has not joined are as they were.
    twostate lemma JoinedOther(new o: Owner, h: Heap)
      requires old(h.Valid()) && h.items == old(h.items) && h.order == old(h.order) && h.inOrder == old(h.inOrder)
      requires Holder(o) == h.items && forall m :: m in Holder(o) ==> Same(m)
      ensures h.Valid()
    {
      Untouched(h);
    }

    // One message's entry changes in the abstract state, the others' do not.
    twostate lemma OneChanged(new id: bytes)
      requires cfg == old(cfg) && nextSeq == old(nextSeq) && byID == old(byID) && dedup == old(dedup) && id in byID
      requires forall x :: x in byID && x != id ==> EntryOf(byID[x]) == old(EntryOf(byID[x]))
      ensures Abs() == old(Abs()).(live := old(Abs()).live[id := EntryOf(byID[id])])
    {
      hide EntryOf;
    }

    // The structures into which a message being moved can go.

    method EnterReady(m: Message, now: int)
      requires Structure({m.id}) && Known(m)
      modifies ready`items, byID.Values`index, m`state, m`effPriority
      ensures Structure({})
      ensures EntryOf(m) == Entry(old(m.Persisted()), Ready(EffectivePriority(cfg, m.priority, m.createdAt, now)))
      ensures Abs() == old(Abs()).(live := old(Abs()).live[m.id := EntryOf(m)])
    {
      hide Structure, Heap.Valid, EffectivePriority, Abs;
      HoldersLack(m.id);
      m.state := StateReady;
      m.effPriority := EffectivePriority(cfg, m.priority, m.createdAt, now);
      Untouched(ready);
      SameMembers(ready.items, ready.Members());
      ready.Push(m);
      SameMembers(ready.items, ready.Members());
      Joined(StateReady, m.id);
      OneChanged(m.id);
    }

    method EnterDelayed(m: Message)
      requires Structure({m.id}) && Known(m)
      modifies delayed`items, byID.Values`index, m`state
      ensures Structure({})
      ensures EntryOf(m) == Entry(old(m.Persisted()), Delayed)
      ensures Abs() == old(Abs()).(live := old(Abs()).live[m.id := EntryOf(m)])
    {
      hide Structure, Heap.Valid, EffectivePriority, Abs;
      HoldersLack(m.id);
      m.state := StateDelayed;
      Untouched(delayed);
      SameMembers(delayed.items, delayed.Members());
      delayed.Push(m);
      SameMembers(delayed.items, delayed.Members());
      Joined(StateDelayed, m.id);
      OneChanged(m.id);
    }

    method EnterInFlight(m: Message, deadline: int)
      requires Structure({m.id}) && Known(m)
      modifies inflight`items, byID.Values`index, m`state, m`deadline
      ensures Structure({})
      ensures EntryOf(m) == Entry(old(m.Persisted()), InFlight(deadline))
      ensures Abs() == old(Abs()).(live := old(Abs()).live[m.id := EntryOf(m)])
    {
      hide Structure, Heap.Valid, EffectivePriority, Abs;
      HoldersLack(m.id);
      m.state := StateInFlight;
      m.deadline := deadline;
      Untouched(inflight);
      SameMembers(inflight.items, inflight.Members());
      inflight.Push(m);
      SameMembers(inflight.items, inflight.Members());
      Joined(StateInFlight, m.id);
      OneChanged(m.id);
    }

    method EnterDead(m: Message)
      requires Structure({m.id}) && Known(m)
      modifies this`dlq, m`index, m`state
      ensures Structure({})
      ensures EntryOf(m) == Entry(old(m.Persisted()), Dead)
      ensures Abs() == old(Abs()).(live := old(Abs()).live[m.id := EntryOf(m)])
    {
      hide Structure, Heap.Valid, EffectivePriority, Abs;
      HoldersLack(m.id);
      m.state := StateDead;
      m.index := -1;
      dlq := dlq + [m];
      Joined(StateDead, m.id);
      OneChanged(m.id);
    }

    twostate predicate OthersSame(new id: bytes)
      reads this`byID, byID.Values
    {
      byID == old(byID) && forall x :: x in byID && x != id ==> Same(byID[x])
    }

    // The fields of a message that is being moved are nobody else's business.
    twostate lemma MovingAside(new id: bytes)
      requires old(Structure({id})) && unchanged(this, ready, delayed, inflight) && OthersSame(id)
      ensures Structure({id})
    {
      hide Heap.Valid, Lists, Known;
      MovingAsideList(StateReady, id);
      MovingAsideList(StateDelayed, id);
      MovingAsideList(StateInFlight, id);
      MovingAsideList(StateDead, id);
      Untouched(ready);
      Untouched(delayed);
      Untouched(inflight);
    }

    twostate lemma MovingAsideList(new st: Owner, new id: bytes)
      requires Holder(st) == old(Holder(st))
      requires old(Lists(Holder(st), st, {id})) && OthersSame(id)
      ensures Lists(Holder(st), st, {id})
      ensures forall m :: m in Holder(st) ==> Same(m)
    {
      forall m | m in Holder(st) ensures Same(m) && m.state == st {
        assert m.id in byID && m.id != id;
      }
    }

    // place: VisibleAt decides which heap the message joins.
    method Place(m: Message, now: int)
      requires Structure({m.id}) && Known(m)
      modifies ready`items, delayed`items, byID.Values`index, m`state, m`effPriority
      ensures Structure({})
      ensures if m.visibleAt > now then EntryOf(m).status.Delayed? else ReadyNow(cfg, EntryOf(m), now)
      ensures Abs() == old(Abs()).(
                live := old(Abs()).live[m.id := Entry(old(m.Persisted()), Placed(cfg, old(m.Persisted()), now))])
    {
      hide Structure, EffectivePriority, ReadyNow;
      PlacedMeans(cfg, m.Persisted(), now);
      if m.visibleAt > now {
        EnterDelayed(m);
        return;
      }
      EnterReady(m, now);
    }

    // A message joins the index, in no structure yet.
    twostate lemma Added(new id: bytes)
      requires old(Structure({})) && unchanged(ready, delayed, inflight) && dlq == old(dlq) && cfg == old(cfg)
      requires id !in old(byID) && id in byID && byID[id].id == id && byID == old(byID)[id := byID[id]]
      requires forall x :: x in old(byID) ==> Same(byID[x])
      ensures Structure({id})
      ensures (forall x :: x in old(byID) ==> EntryOf(byID[x]) == old(EntryOf(byID[x]))) ==>
                Abs() == State(cfg, nextSeq, old(Abs()).live[id := EntryOf(byID[id])], dedup)
    {
      hide Heap.Valid, Lists, EntryOf, Abs;
      AddedList(StateReady, id);
      AddedList(StateDelayed, id);
      AddedList(StateInFlight, id);
      AddedList(StateDead, id);
      Untouched(ready);
      Untouched(delayed);
      Untouched(inflight);
      AddedAbs(id);
    }

    twostate lemma AddedAbs(new id: bytes)
      requires cfg == old(cfg) && id in byID && byID == old(byID)[id := byID[id]]
      ensures (forall x :: x in old(byID) ==> EntryOf(byID[x]) == old(EntryOf(byID[x]))) ==>
                Abs() == State(cfg, nextSeq, old(Abs()).live[id := EntryOf(byID[id])], dedup)
    {
      hide EntryOf;
    }

    twostate lemma AddedList(new st: Owner, new id: bytes)
      requires Holder(st) == old(Holder(st)) && old(Lists(Holder(st), st, {}))
      requires id !in old(byID) && id in byID && byID == old(byID)[id := byID[id]]
      requires forall x :: x in old(byID) ==> Same(byID[x])
      ensures Lists(Holder(st), st, {id})
      ensures forall m :: m in Holder(st) ==> Same(m)
    {
      forall m | m in Holder(st) ensures Same(m) && m.state == st && Known(m) && m.id != id {
        assert m.id in old(byID) && byID[m.id] == m;
      }
    }

    lemma AbsLive()
      ensures Abs().live.Keys == byID.Keys && Abs().cfg == cfg && Abs().nextSeq == nextSeq && Abs().dedup == dedup
      ensures forall id :: id in byID ==> Abs().live[id] == EntryOf(byID[id])
    {
    }

    // A message in no structure leaves the index.
    twostate lemma Dropped(new id: bytes)
      requires old(Structure({id})) && unchanged(ready, delayed, inflight) && dlq == old(dlq) && cfg == old(cfg)
      requires byID == old(byID) - {id} && forall x :: x in byID ==> Same(byID[x])
      ensures Structure({})
      ensures nextSeq == old(nextSeq) && dedup == old(dedup)
              && (forall x :: x in byID ==> EntryOf(byID[x]) == old(EntryOf(byID[x])))
              ==> Abs() == old(Abs()).(live := old(Abs()).live - {id})
    {
      hide Heap.Valid, Lists, EntryOf;
      DroppedList(StateReady, id);
      DroppedList(StateDelayed, id);
      DroppedList(StateInFlight, id);
      DroppedList(StateDead, id);
      Untouched(ready);
      Untouched(delayed);
      Untouched(inflight);
    }

    twostate lemma DroppedList(new st: Owner, new id: bytes)
      requires Holder(st) == old(Holder(st)) && old(Lists(Holder(st), st, {id}))
      requires byID == old(byID) - {id} && forall x :: x in byID ==> Same(byID[x])
      ensures Lists(Holder(st), st, {})
      ensures forall m :: m in Holder(st) ==> Same(m)
    {
      forall m | m in Holder(st) ensures Same(m) && m.state == st && Known(m) {
        assert m.id in byID && byID[m.id] == m;
      }
    }

    method ApplyEnqueue(m: Message, now: int) returns (ok: bool)
      requires Structure({}) && m !in byID.Values
      modifies this`byID, this`dlq, this`nextSeq, this`dedup, ready`items, delayed`items, byID.Values`index
      modifies m`index, m`state, m`effPriority
      ensures Structure({})
      ensures match QueueState.ApplyEnqueue(old(Abs()), old(m.Persisted()), old(m.state).StateDead?, now)
              case None => !ok && Abs() == old(Abs()) && byID == old(byID)
              case Some(s) => ok && Abs() == s && byID == old(byID)[m.id := m]
    {
      hide Structure, EffectivePriority, Abs, EntryOf, Placed, Remember, QueueState.ApplyEnqueue;
      AbsLive();
      AppliedInTwo(Abs(), m.Persisted(), m.state.StateDead?, now, EntryOf(m));
      if m.id in byID {
        return false;
      }
      Index(m);
      Route(m, now);
      return true;
    }

    // And the part that puts it where it belongs.
    method Route(m: Message, now: int)
      requires Structure({m.id}) && Known(m)
      modifies this`dlq, ready`items, delayed`items, byID.Values`index, m`state, m`effPriority
      ensures Structure({})
      ensures Abs() == old(Abs()).(
                live := old(Abs()).live[m.id := Entry(old(m.Persisted()),
                  if old(m.state).StateDead? then Dead else Placed(cfg, old(m.Persisted()), now))])
    {
      hide Structure, EffectivePriority, Abs, Placed;
      if m.state.StateDead? {
        EnterDead(m);
        return;
      }
      Place(m, now);
    }

    // The part of applyEnqueue that indexes the message.
    method Index(m: Message)
      requires Structure({}) && m !in byID.Values && m.id !in byID
      modifies this`byID, this`nextSeq, this`dedup
      ensures Structure({m.id}) && byID == old(byID)[m.id := m]
      ensures Abs() == State(cfg, Max(old(nextSeq), m.seqNo + 1), old(Abs()).live[m.id := EntryOf(m)],
                             Remember(cfg, old(dedup), m.Persisted()))
    {
      hide Structure, Abs, EntryOf;
      if m.seqNo >= nextSeq {
        nextSeq := m.seqNo + 1;
      }
      byID := byID[m.id := m];
      if m.dedupID != [] {
        dedup := dedup[m.dedupID := DedupEntry(m.dedupID, m.id, m.createdAt + cfg.DedupWindow())];
      }
      Added(m.id);
    }

    method ApplyAck(id: bytes) returns (ok: bool)
      requires Structure({})
      modifies this`byID, this`dlq, ready`items, delayed`items, inflight`items, byID.Values`index
      ensures Structure({})
      ensures match QueueState.ApplyAck(old(Abs()), id)
              case None => !ok && Abs() == old(Abs())
              case Some(s) => ok && Abs() == s
      ensures byID == old(byID) - {id}
    {
      hide Structure, Abs;
      AbsLive();
      IndexKeyed({});
      if id !in byID {
        return false;
      }
      var m := byID[id];
      Detach(m);
      label Detached:
      byID := byID - {id};
      Dropped@Detached(id);
      return true;
    }

    method ApplyAttempt(id: bytes, now: int) returns (ok: bool, dead: bool)
      requires Structure({})
      modifies this`dlq, ready`items, delayed`items, inflight`items, byID.Values`index
      modifies byID.Values`attempts, byID.Values`visibleAt, byID.Values`state, byID.Values`effPriority
      ensures Structure({})
      ensures match QueueState.ApplyAttempt(old(Abs()), id, now)
              case None => !ok && Abs() == old(Abs())
              case Some(s) => ok && Abs() == s && (dead <==> s.live[id].status.Dead?)
    {
      hide Structure, EffectivePriority, Abs;
      AbsLive();
      IndexKeyed({});
      if id !in byID {
        return false, false;
      }
      var m := byID[id];
      Detach(m);
      dead := CountAttempt(m, now);
      return true, dead;
    }

    // What follows once the message is detached.
    method CountAttempt(m: Message, now: int) returns (dead: bool)
      requires Structure({m.id}) && Known(m)
      modifies this`dlq, ready`items, delayed`items, byID.Values`index
      modifies m`attempts, m`visibleAt, m`state, m`effPriority
      ensures Structure({})
      ensures Abs() == old(Abs()).(live := old(Abs()).live[m.id := Attempted(cfg, old(m.Persisted()), now)])
      ensures dead <==> Attempted(cfg, old(m.Persisted()), now).status.Dead?
    {
      hide Structure, EffectivePriority, Abs;
      IndexKeyed({m.id});
      m.attempts := m.attempts + 1;
      if m.attempts >= cfg.maxAttempts {
        MovingAside(m.id);
        OneChanged(m.id);
        EnterDead(m);
        return true;
      }
      m.visibleAt := now;
      MovingAside(m.id);
      OneChanged(m.id);
      Place(m, now);
      return false;
    }

    lemma HeadKnown(st: Owner)
      requires Lists(Holder(st), st, {}) && |Holder(st)| > 0
      ensures forall m :: m in Holder(st) ==> m in byID.Values
      ensures Known(Holder(st)[0]) && Holder(st)[0].state == st
    {
      InIndex(Holder(st), st);
      assert Holder(st)[0] in Holder(st);
    }

    // heap.Pop on the delayed heap and on the ready heap.
    method PopDelayed() returns (m: Message)
      requires Structure({}) && |delayed.items| > 0
      modifies delayed`items, byID.Values`index
      ensures m == old(delayed.items[0]) && Known(m) && m.state == StateDelayed && Structure({m.id})
      ensures |delayed.items| == |old(delayed.items)| - 1
    {
      hide Heap.Valid, EntryOf, Lists;
      HeadKnown(StateDelayed);
      SameMembers(delayed.items, delayed.Members());
      m := delayed.Pop();
      SameMembers(delayed.items, delayed.Members());
      Left(StateDelayed, m.id);
      StillHeld(StateReady, m.id);
      StillHeld(StateInFlight, m.id);
      StillHeld(StateDead, m.id);
      Untouched(ready);
      Untouched(inflight);
    }

    method PopReady() returns (m: Message)
      requires Structure({}) && |ready.items| > 0
      modifies ready`items, byID.Values`index
      ensures m == old(ready.items[0]) && Known(m) && m.state == StateReady && Structure({m.id})
      ensures |ready.items| == |old(ready.items)| - 1
    {
      hide Heap.Valid, EntryOf, Lists;
      HeadKnown(StateReady);
      SameMembers(ready.items, ready.Members());
      m := ready.Pop();
      SameMembers(ready.items, ready.Members());
      Left(StateReady, m.id);
      StillHeld(StateDelayed, m.id);
      StillHeld(StateInFlight, m.id);
      StillHeld(StateDead, m.id);
      Untouched(delayed);
      Untouched(inflight);
    }

    // The heads are the earliest: nothing else in those heaps can have come due before them.
    lemma DelayedHead(now: int)
      requires Structure({})
      ensures |delayed.items| > 0 && delayed.items[0].visibleAt > now ==>
                forall m :: m in delayed.items ==> m.visibleAt > now
    {
      forall m | m in delayed.items ensures |delayed.items| > 0 && !Before(ByVisibleAt, m, delayed.items[0]) {
        HeadIsLeast(delayed, m);
      }
    }

    // Once the head is not due, nothing is.
    lemma NoneDue(now: int)
      requires Structure({}) && (|delayed.items| == 0 || delayed.items[0].visibleAt > now)
      ensures Promote(Abs(), now) == Abs()
      ensures forall id :: id in byID && byID[id].state == StateDelayed ==> byID[id].visibleAt > now
    {
      DelayedHead(now);
      hide Heap.Valid, Before, Promote;
      assert Lists(delayed.items, StateDelayed, {});
      NothingDue(Abs(), now);
    }

    lemma HeadDue(m: Message, now: int)
      requires Known(m) && m.id in byID && m.state == StateDelayed && m.visibleAt <= now
      ensures m.id in Abs().live && Due(Abs().live[m.id], now)
      ensures MakeReady(cfg, Abs().live[m.id], now)
              == Entry(m.Persisted(), Ready(EffectivePriority(cfg, m.priority, m.createdAt, now)))
    {
    }

    method PromoteDue(now: int)
      requires Structure({})
      modifies ready`items, delayed`items, byID.Values`index, byID.Values`state, byID.Values`effPriority
      ensures Structure({})
      ensures Abs() == Promote(old(Abs()), now)
      ensures PromotedFrom(old(Abs()), Abs(), now)
      ensures |delayed.items| == 0 || delayed.items[0].visibleAt > now
    {
      hide Structure, Abs, EntryOf, EffectivePriority, Promote, MakeReady, PromotedFrom;
      HeapsApart({});
      PromoteMeans(Abs(), now);
      while |delayed.items| > 0 && delayed.items[0].visibleAt <= now
        invariant Structure({})
        invariant Promote(Abs(), now) == Promote(old(Abs()), now)
        decreases |delayed.items|
      {
        AbsLive();
        var m := PopDelayed();
        HeadDue(m, now);
        PromoteOne(Abs(), m.id, now);
        EnterReady(m, now);
      }
      NoneDue(now);
    }

    // The head of the ready heap comes before every other ready message.
    lemma HeadIsFirst()
      requires Structure({}) && ready.inOrder && DistinctSeqs(Abs()) && |ready.items| > 0
      ensures SomeReady(Abs(), ReadyIds(Abs())) && IsFirst(Abs(), ReadyIds(Abs()), ready.items[0].id)
      ensures ready.items[0].id in byID && byID[ready.items[0].id] == ready.items[0]
    {
      var h := ready.items[0];
      assert h in ready.items && Known(h);
      forall id | id in ReadyIds(Abs()) && id != h.id ensures IdBefore(Abs(), h.id, id) {
        assert byID[id] in ready.items;
        HeadIsLeast(ready, byID[id]);
        LessIsStrictTotal(cfg, RankOf(Abs(), h.id), RankOf(Abs(), id), RankOf(Abs(), id));
      }
    }

    lemma NoneReady()
      requires Structure({}) && DistinctSeqs(Abs()) && |ready.items| == 0
      ensures SortedReady(Abs()) == []
    {
      assert forall id :: id in byID && byID[id].state == StateReady ==> byID[id] in ready.items;
      hide Heap.Valid, Lists;
      NoneLeft(Abs());
    }

    // One turn of Dequeue's loop: the first ready message is leased.
    method LeaseHead(deadline: int) returns (x: LeasedCopy)
      requires Structure({}) && ready.inOrder && DistinctSeqs(Abs()) && |ready.items| > 0
      modifies ready`items, inflight`items, byID.Values`index, byID.Values`state, byID.Values`deadline
      ensures Structure({}) && DistinctSeqs(Abs())
      ensures var s := old(Abs()); var id := x.m.id;
              && id in ReadyIds(s) && x == LeasedCopy(s.live[id].m, deadline)
              && Abs() == s.(live := s.live[id := s.live[id].(status := InFlight(deadline))])
              && SortedReady(s) == [id] + SortedReady(Abs())
    {
      hide Structure, Abs, SortedReady, DistinctSeqs, ReadyIds;
      HeapsApart({});
      HeadIsFirst();
      AbsLive();
      ghost var s := Abs();
      var m := PopReady();
      FirstIsReady(s, m.id);
      LeaseFirst(s, m.id, deadline);
      EnterInFlight(m, deadline);
      x := LeasedCopy(m.Persisted(), deadline);
    }

    // The loop of Dequeue.
    method LeaseHeads(max: nat, deadline: int) returns (out: seq<LeasedCopy>)
      requires Structure({}) && ready.inOrder && DistinctSeqs(Abs())
      modifies ready`items, inflight`items, byID.Values`index, byID.Values`state, byID.Values`deadline
      ensures Structure({})
      ensures var all := SortedReady(old(Abs()));
              && IdsOf(out) == all[..if max < |all| then max else |all|]
              && CopiesOf(old(Abs()), out, deadline)
              && Abs() == Lease(old(Abs()), J.Elements(IdsOf(out)), deadline)
    {
      hide Structure, Abs, SortedReady, DistinctSeqs, ReadyIds, Lease, IdsOf, CopiesOf, J.Elements;
      ghost var s := Abs();
      LeaseNone(s, deadline);
      NothingOut(s, deadline);
      out := [];
      while |out| < max && |ready.items| > 0
        invariant Structure({}) && DistinctSeqs(Abs()) && |out| <= max
        invariant IdsOf(out) + SortedReady(Abs()) == SortedReady(s)
        invariant CopiesOf(s, out, deadline)
        invariant Abs() == Lease(s, J.Elements(IdsOf(out)), deadline)
      {
        ghost var t := Abs();
        var x := LeaseHead(deadline);
        LeaseOneMore(s, IdsOf(out), x.m.id, deadline);
        OneMoreOut(s, out, x, deadline, SortedReady(Abs()));
        out := out + [x];
      }
      if |ready.items| == 0 { NoneReady(); }
    }

    // checkLocked
    function Check(): (why: Option<Refusal>)
      reads this`closed, this`failed
      ensures why.None? <==> !closed && !failed
    {
      if closed then Some(ErrClosed) else if failed then Some(ErrFailed) else None
    }

    // The public operations, up to the wait for durability.

    method Dequeue(max: int, visibility: int, now: int) returns (ok: bool, out: seq<LeasedCopy>)
      requires Structure({}) && ready.inOrder && DistinctSeqs(Abs())
      modifies ready`items, delayed`items, inflight`items, byID.Values`index, byID.Values`state
      modifies byID.Values`effPriority, byID.Values`deadline, this`counters
      ensures Structure({})
      ensures ok <==> !closed && !failed
      ensures !ok ==> out == [] && Abs() == old(Abs())
      ensures counters == old(counters).(dequeued := old(counters).dequeued + |out|)
      // The first max of the ready and newly due messages, in the order of the comparator: a plain sort's answer, which
      // is the first of the line by priorities and sequence numbers.
      ensures ok ==>
                var s := Promote(old(Abs()), now);
                var n := if max <= 0 then 1 else max;
                var deadline := now + if visibility <= 0 then cfg.visibilityMS * 1_000_000 else visibility;
                && DistinctSeqs(s) && FirstInLine(s, IdsOf(out), n)
                && (var all := SortedReady(s); IdsOf(out) == all[..if n < |all| then n else |all|])
                && CopiesOf(s, out, deadline)
                && Abs() == Lease(s, J.Elements(IdsOf(out)), deadline)
                && HandedOut(old(Abs()), Abs(), J.Elements(IdsOf(out)), deadline, now)
    {
      hide Structure, Abs, SortedReady, DistinctSeqs, Promote, Lease, CopiesOf, FirstInLine, HandedOut;
      var n := if max <= 0 then 1 else max;
      if Check().Some? {
        return false, [];
      }
      PromoteKeepsSeqs(Abs(), now);
      SortedInLine(Promote(Abs(), now), n);
      PromoteDue(now);
      var timeout := if visibility <= 0 then cfg.VisibilityTimeout() else visibility;
      out := LeaseHeads(n, now + timeout);
      LeaseMeans(old(Abs()), IdsOf(out), J.Elements(IdsOf(out)), n, now + timeout, now);
      counters := counters.(dequeued := counters.dequeued + |out|);
      ok := true;
    }

    method Enqueue(payload: bytes, priority: int, delay: int, dedupID: bytes, newID: bytes, now: int)
      returns (res: EnqueueResult)
      requires Structure({}) && log.Valid()
      modifies this`byID, this`dlq, this`nextSeq, this`dedup, this`failed, this`counters
      modifies ready`items, delayed`items, byID.Values`index, log
      ensures Structure({}) && log.Valid()
      ensures old(Check()).Some? ==> res == NotAccepted(old(Check()).value)
      ensures var s := old(Abs()); var m := Msg(newID, dedupID, s.nextSeq, priority, now + delay, payload, 0, now);
              var dup := dedupID != [] && dedupID in s.dedup && now < s.dedup[dedupID].expiresAt;
              var append := G.Append(Frame(TYPE_ENQUEUE, EncodeMessage(m, false)));
              match res
              case Duplicate(id) =>
                && !closed && !old(failed) && dup && id == s.dedup[dedupID].messageID
                && Abs() == s && log.protocol == old(log.protocol) && !failed
                && counters == old(counters).(duplicates := old(counters).duplicates + 1)
              case Accepted(r, batch) =>
                && counters == old(counters).(enqueued := old(counters).enqueued + 1)
                && !closed && !failed && !dup && r == m
                && Abs() == J.After(s, J.EvEnqueue(m), now) && newID !in s.live && Admitted(s, Abs(), m, now)
                && G.Enabled(old(log.protocol), append) && log.protocol == G.Do(old(log.protocol), append)
                && batch == log.protocol.NextSeq()
              case NotAccepted(why) =>
                && Abs() == s && counters == old(counters)
                && (why == ErrClosed || why == ErrFailed ==> old(Check()) == Some(why) && failed == old(failed))
                && (why == ErrAppend ==> failed && !G.Enabled(old(log.protocol), append))
                && (why == ErrInconsistent ==> newID in s.live)
                && (why != ErrInconsistent ==> log.protocol == old(log.protocol))
                && why != ErrNotFound && why != ErrNotInFlight
    {
      hide Structure, Abs, EncodeMessage, L.Log.Valid, G.Enabled, G.Do, J.After, QueueState.ApplyEnqueue, Admitted;
      AbsLive();
      if Check().Some? {
        return NotAccepted(Check().value);
      }
      if dedupID != [] && dedupID in dedup && now < dedup[dedupID].expiresAt {
        counters := counters.(duplicates := counters.duplicates + 1);
        return Duplicate(dedup[dedupID].messageID);
      }
      AfterEnqueue(Abs(), Msg(newID, dedupID, nextSeq, priority, now + delay, payload, 0, now), now);
      if newID !in byID {
        EnqueueMeans(Abs(), Msg(newID, dedupID, nextSeq, priority, now + delay, payload, 0, now), now);
      }
      res := Admit(Msg(newID, dedupID, nextSeq, priority, now + delay, payload, 0, now), now);
      AbsLive();
    }

    // log.Append, an error of which fails the queue.
    method Record(t: byte, payload: bytes) returns (ok: bool, batch: nat)
      requires Structure({}) && log.Valid()
      modifies log, this`failed
      ensures Structure({}) && log.Valid() && Abs() == old(Abs())
      ensures ok <==> G.Enabled(old(log.protocol), G.Append(Frame(t, payload)))
      ensures ok ==> log.protocol == G.Do(old(log.protocol), G.Append(Frame(t, payload)))
                     && batch == log.protocol.NextSeq() && failed == old(failed)
      ensures !ok ==> log.protocol == old(log.protocol) && failed
    {
      hide Structure, Abs, L.Log.Valid, G.Enabled, G.Do;
      ok, batch := log.Append(t, payload);
      if !ok {
        failed := true;
      }
    }

    method AddNew(msg: Msg, dead: bool, now: int) returns (ok: bool)
      requires Structure({})
      modifies this`byID, this`dlq, this`nextSeq, this`dedup, ready`items, delayed`items, byID.Values`index
      ensures Structure({})
      ensures match QueueState.ApplyEnqueue(old(Abs()), msg, dead, now)
              case None => !ok && Abs() == old(Abs())
              case Some(s) => ok && Abs() == s
      ensures fresh(byID.Values - old(byID.Values))
    {
      hide Structure, Abs, QueueState.ApplyEnqueue;
      var m := new Message(msg, dead);
      ok := ApplyEnqueue(m, now);
    }

    // Appends the record, under the lock, and then makes the transition.
    method Admit(msg: Msg, now: int) returns (res: EnqueueResult)
      requires Structure({}) && log.Valid()
      modifies this`byID, this`dlq, this`nextSeq, this`dedup, this`failed, this`counters
      modifies ready`items, delayed`items, byID.Values`index, log
      ensures Structure({}) && log.Valid()
      ensures var s := old(Abs());
              var append := G.Append(Frame(TYPE_ENQUEUE, EncodeMessage(msg, false)));
              match res
              case Duplicate(id) => false
              case Accepted(r, batch) =>
                && r == msg && failed == old(failed)
                && counters == old(counters).(enqueued := old(counters).enqueued + 1)
                && msg.id !in s.live && Abs() == J.After(s, J.EvEnqueue(msg), now)
                && G.Enabled(old(log.protocol), append) && log.protocol == G.Do(old(log.protocol), append)
                && batch == log.protocol.NextSeq()
              case NotAccepted(why) =>
                && Abs() == s && counters == old(counters)
                && (why == ErrAppend || why == ErrInconsistent)
                && (why == ErrAppend ==>
                      failed && !G.Enabled(old(log.protocol), append) && log.protocol == old(log.protocol))
                && (why == ErrInconsistent ==> msg.id in s.live && failed == old(failed))
    {
      hide Structure, Abs, EncodeMessage, L.Log.Valid, G.Enabled, G.Do, Placed;
      AbsLive();
      var appended, batch := Record(TYPE_ENQUEUE, EncodeMessage(msg, false));
      if !appended {
        return NotAccepted(ErrAppend);
      }
      var ok := AddNew(msg, false, now);
      if !ok {
        return NotAccepted(ErrInconsistent);
      }
      counters := counters.(enqueued := counters.enqueued + 1);
      return Accepted(msg, batch);
    }

    method Ack(id: bytes) returns (a: Answer)
      requires Structure({}) && log.Valid()
      modifies this`byID, this`dlq, this`failed, this`counters, ready`items, delayed`items, inflight`items
      modifies byID.Values`index, log
      ensures Structure({}) && log.Valid()
      ensures var s := old(Abs()); var append := G.Append(Frame(TYPE_ACK, id));
              if old(Check()).Some? then a == Rejected(old(Check()).value)
              else if id !in s.live then a == Rejected(ErrNotFound)
              else if !s.live[id].status.InFlight? && !s.live[id].status.Dead? then a == Rejected(ErrNotInFlight)
              else if !G.Enabled(old(log.protocol), append) then a == Rejected(ErrAppend) && failed
              else
                && a == Recorded(log.protocol.NextSeq()) && log.protocol == G.Do(old(log.protocol), append)
                && Some(Abs()) == QueueState.ApplyAck(s, id) && Abs() == s.(live := s.live - {id})
                && counters == old(counters).(acked := old(counters).acked + 1)
      ensures a.Rejected? ==> Abs() == old(Abs()) && log.protocol == old(log.protocol) && counters == old(counters)
      ensures !a.Rejected? || a.error != ErrAppend ==> failed == old(failed)
    {
      hide Structure, Abs, L.Log.Valid, G.Enabled, G.Do, QueueState.ApplyAck;
      AbsLive();
      if Check().Some? {
        return Rejected(Check().value);
      }
      if id !in byID {
        return Rejected(ErrNotFound);
      }
      var m := byID[id];
      if m.state != StateInFlight && m.state != StateDead {
        return Rejected(ErrNotInFlight);
      }
      AckMeans(Abs(), id);
      var ok, batch := LogAck(id);
      if !ok {
        return Rejected(ErrAppend);
      }
      counters := counters.(acked := counters.acked + 1);
      return Recorded(batch);
    }

    // The record first, then the transition.
    method LogAck(id: bytes) returns (ok: bool, batch: nat)
      requires Structure({}) && log.Valid() && id in byID
      modifies this`byID, this`dlq, this`failed, ready`items, delayed`items, inflight`items, byID.Values`index, log
      ensures Structure({}) && log.Valid()
      ensures ok <==> G.Enabled(old(log.protocol), G.Append(Frame(TYPE_ACK, id)))
      ensures !ok ==> Abs() == old(Abs()) && log.protocol == old(log.protocol) && failed
      ensures ok ==>
                && failed == old(failed) && batch == log.protocol.NextSeq()
                && log.protocol == G.Do(old(log.protocol), G.Append(Frame(TYPE_ACK, id)))
                && Some(Abs()) == QueueState.ApplyAck(old(Abs()), id)
    {
      hide Structure, Abs, L.Log.Valid, G.Enabled, G.Do;
      AbsLive();
      ok, batch := Record(TYPE_ACK, id);
      if ok {
        var _ := ApplyAck(id);
      }
    }

    // A failed delivery on the live path: its record first, then the transition.
    method LogAttempt(t: byte, id: bytes, now: int) returns (ok: bool, batch: nat, dead: bool)
      requires Structure({}) && log.Valid() && id in byID
      modifies this`dlq, this`failed, ready`items, delayed`items, inflight`items
      modifies byID.Values`index, byID.Values`attempts, byID.Values`visibleAt, byID.Values`state
      modifies byID.Values`effPriority, log
      ensures Structure({}) && log.Valid()
      ensures ok <==> G.Enabled(old(log.protocol), G.Append(Frame(t, id)))
      ensures !ok ==> Abs() == old(Abs()) && log.protocol == old(log.protocol) && failed
      ensures ok ==>
                && failed == old(failed) && batch == log.protocol.NextSeq()
                && log.protocol == G.Do(old(log.protocol), G.Append(Frame(t, id)))
                && Some(Abs()) == QueueState.ApplyAttempt(old(Abs()), id, now)
                && id in Abs().live && (dead <==> Abs().live[id].status.Dead?)
    {
      hide Structure, Abs, L.Log.Valid, G.Enabled, G.Do, EntryOf, Message.Persisted, QueueState.ApplyAttempt;
      AbsLive();
      AttemptApplies(Abs(), id, now);
      dead := false;
      ok, batch := Record(t, id);
      if ok {
        AbsLive();
        var _, d := ApplyAttempt(id, now);
        dead := d;
      }
    }

    method Nack(id: bytes, now: int) returns (a: Answer)
      requires Structure({}) && log.Valid()
      modifies this`dlq, this`failed, this`counters, ready`items, delayed`items, inflight`items
      modifies byID.Values`index, byID.Values`attempts, byID.Values`visibleAt, byID.Values`state
      modifies byID.Values`effPriority, log
      ensures Structure({}) && log.Valid()
      ensures var s := old(Abs()); var append := G.Append(Frame(TYPE_NACK, id));
              if old(Check()).Some? then a == Rejected(old(Check()).value)
              else if id !in s.live then a == Rejected(ErrNotFound)
              else if !s.live[id].status.InFlight? then a == Rejected(ErrNotInFlight)
              else if !G.Enabled(old(log.protocol), append) then a == Rejected(ErrAppend) && failed
              else
                && a == Recorded(log.protocol.NextSeq()) && log.protocol == G.Do(old(log.protocol), append)
                && Some(Abs()) == QueueState.ApplyAttempt(s, id, now)
                && Abs() == s.(live := s.live[id := Abs().live[id]])
                && FailedOnce(s.cfg, s.live[id].m, Abs().live[id], now)
                && counters == old(counters).(
                     nacked := old(counters).nacked + 1,
                     deadLettered := old(counters).deadLettered + if Abs().live[id].status.Dead? then 1 else 0)
      ensures a.Rejected? ==> Abs() == old(Abs()) && log.protocol == old(log.protocol) && counters == old(counters)
      ensures !a.Rejected? || a.error != ErrAppend ==> failed == old(failed)
    {
      hide Structure, Abs, L.Log.Valid, G.Enabled, G.Do, QueueState.ApplyAttempt, FailedOnce;
      AbsLive();
      if Check().Some? {
        return Rejected(Check().value);
      }
      if id !in byID {
        return Rejected(ErrNotFound);
      }
      if byID[id].state != StateInFlight {
        return Rejected(ErrNotInFlight);
      }
      NackMeans(Abs(), id, now);
      a := NackLeased(id, now);
    }

    method NackLeased(id: bytes, now: int) returns (a: Answer)
      requires Structure({}) && log.Valid() && id in byID
      modifies this`dlq, this`failed, this`counters, ready`items, delayed`items, inflight`items
      modifies byID.Values`index, byID.Values`attempts, byID.Values`visibleAt, byID.Values`state
      modifies byID.Values`effPriority, log
      ensures Structure({}) && log.Valid()
      ensures var s := old(Abs()); var append := G.Append(Frame(TYPE_NACK, id));
              if !G.Enabled(old(log.protocol), append) then
                && a == Rejected(ErrAppend) && failed
                && Abs() == s && log.protocol == old(log.protocol) && counters == old(counters)
              else
                && a == Recorded(log.protocol.NextSeq()) && log.protocol == G.Do(old(log.protocol), append)
                && failed == old(failed)
                && Some(Abs()) == QueueState.ApplyAttempt(s, id, now)
                && id in Abs().live
                && counters == old(counters).(
                     nacked := old(counters).nacked + 1,
                     deadLettered := old(counters).deadLettered + if Abs().live[id].status.Dead? then 1 else 0)
    {
      hide Structure, Abs, L.Log.Valid, G.Enabled, G.Do, QueueState.ApplyAttempt;
      var ok, batch, dead := LogAttempt(TYPE_NACK, id, now);
      if !ok {
        return Rejected(ErrAppend);
      }
      counters := counters.(nacked := counters.nacked + 1);
      if dead {
        counters := counters.(deadLettered := counters.deadLettered + 1);
      }
      return Recorded(batch);
    }

    // What waitDurable does with the answer it gets.
    method WaitDurable(batch: nat) returns (v: G.Verdict)
      requires log.Valid()
      modifies this`failed
      ensures v == G.Wait(log.protocol, batch)
      ensures failed == (old(failed) || v == G.Failed)
    {
      v := log.Wait(batch);
      if v == G.Failed && !failed {
        failed := true;
      }
    }

    // Close takes the mutex only to turn later calls away. The log is closed after that, once the timer has stopped.
    method Close()
      modifies this`closed
      ensures closed
    {
      closed := true;
    }

    lemma LeaseHeadOverdue(now: int)
      requires Structure({}) && |inflight.items| > 0 && inflight.items[0].deadline <= now
      ensures inflight.items[0].id in byID && byID[inflight.items[0].id] == inflight.items[0]
      ensures inflight.items[0].id in Abs().live && Overdue(Abs().live[inflight.items[0].id], now)
    {
      assert inflight.items[0] in inflight.items && Known(inflight.items[0]);
    }

    // Once the head of the lease heap is not overdue, nothing is.
    lemma NoneOverdue(now: int)
      requires Structure({}) && (|inflight.items| == 0 || inflight.items[0].deadline > now)
      ensures forall id :: id in Abs().live ==> !Overdue(Abs().live[id], now)
    {
      forall m | m in inflight.items ensures m.deadline > now && !Before(ByDeadline, m, inflight.items[0]) {
        HeadIsLeast(inflight, m);
      }
      hide Heap.Valid, Before;
      assert Lists(inflight.items, StateInFlight, {});
    }

    // One turn of tick's loop over the expired leases.
    method ExpireHead(now: int) returns (ok: bool, batch: nat, id: bytes)
      requires Structure({}) && log.Valid() && |inflight.items| > 0 && inflight.items[0].deadline <= now
      modifies this`dlq, this`failed, this`counters, ready`items, delayed`items, inflight`items
      modifies byID.Values`index, byID.Values`attempts, byID.Values`visibleAt, byID.Values`state
      modifies byID.Values`effPriority, log
      ensures Structure({}) && log.Valid()
      ensures id in old(Abs()).live && Overdue(old(Abs()).live[id], now)
      ensures !ok ==> Abs() == old(Abs()) && log.protocol == old(log.protocol) && failed && counters == old(counters)
      ensures ok <==> !G.Refuses(old(log.protocol))
      ensures ok ==>
                var s := old(Abs()); var x := Attempted(s.cfg, s.live[id].m, now);
                && Abs() == s.(live := s.live[id := x])
                && failed == old(failed) && batch == log.protocol.NextSeq()
                && log.protocol == G.Do(old(log.protocol), G.Append(Frame(TYPE_LEASE_EXPIRE, id)))
                && counters == old(counters).(
                     expired := old(counters).expired + 1,
                     deadLettered := old(counters).deadLettered + if x.status.Dead? then 1 else 0)
    {
      hide Structure, Abs, L.Log.Valid, G.Enabled, G.Do, Attempted, Overdue, G.Refuses;
      LeaseHeadOverdue(now);
      id := inflight.items[0].id;
      G.AppendEnabled(log.protocol, Frame(TYPE_LEASE_EXPIRE, id));
      var appended, b, dead := LogAttempt(TYPE_LEASE_EXPIRE, id, now);
      ok, batch := appended, b;
      if !ok {
        return;
      }
      counters := counters.(expired := counters.expired + 1);
      if dead {
        counters := counters.(deadLettered := counters.deadLettered + 1);
      }
    }

    // tick's loop over the expired leases. An append error ends it.
    method ExpireLeases(now: int) returns (maxBatch: nat, ghost expired: seq<bytes>)
      requires Structure({}) && log.Valid()
      modifies this`dlq, this`failed, this`counters, ready`items, delayed`items, inflight`items
      modifies byID.Values`index, byID.Values`attempts, byID.Values`visibleAt, byID.Values`state
      modifies byID.Values`effPriority, log
      ensures Structure({}) && log.Valid()
      ensures AllOverdue(old(Abs()), expired, now) && Abs() == ExpireIds(old(Abs()), J.Elements(expired), now)
      ensures forall a, b :: 0 <= a < b < |expired| ==> expired[a] != expired[b]
      ensures log.protocol == G.Appended(old(log.protocol), ExpiryFrames(expired))
      ensures expired != [] ==> !G.Refuses(old(log.protocol))
      ensures failed != old(failed) ==> failed && G.Refuses(old(log.protocol))
      ensures !failed ==>
                Abs() == Expire(old(Abs()), now) && forall id :: id in Abs().live ==> !Overdue(Abs().live[id], now)
      ensures maxBatch == if expired == [] then 0 else log.protocol.NextSeq()
      ensures counters == old(counters).(
                expired := old(counters).expired + |expired|,
                deadLettered := old(counters).deadLettered + UsedUp(old(Abs()), expired))
    {
      hide Structure, Abs, L.Log.Valid, G.Enabled, G.Do, Attempted, Expire, Overdue, InFlightIds, ExpiredSoFar,
        G.Refuses;
      ghost var s, l, was, wasFailed := Abs(), log.protocol, counters, failed;
      maxBatch, expired := 0, [];
      NoneExpired(s, l, was, now);
      while |inflight.items| > 0 && inflight.items[0].deadline <= now
        invariant Structure({}) && log.Valid() && failed == wasFailed
        invariant ExpiredSoFar(s, l, was, expired, now, Abs(), log.protocol, counters, maxBatch)
        decreases InFlightIds(Abs())
      {
        ghost var t, p, c, m := Abs(), log.protocol, counters, maxBatch;
        var ok, batch, id := ExpireHead(now);
        if !ok {
          SoFarRefuses(s, l, was, expired, now, t, p, c, m);
          break;
        }
        if batch > maxBatch {
          maxBatch := batch;
        }
        OneMoreExpired(s, l, was, expired, id, now, t, p, c, m);
        expired := expired + [id];
      }
      SoFarMeans(s, l, was, expired, now, Abs(), log.protocol, counters, maxBatch);
      if !failed {
        NoneOverdue(now);
        AllExpired(s, expired, now);
      }
    }

    // Recomputes every stored priority.
    method Reprioritise(now: int) returns (changed: bool)
      modifies ready.items`effPriority
      ensures forall m :: m in ready.items ==> m.effPriority == EffectivePriority(cfg, m.priority, m.createdAt, now)
      ensures !changed ==> forall m :: m in ready.items ==> m.effPriority == old(m.effPriority)
    {
      hide EffectivePriority;
      changed := false;
      for i := 0 to |ready.items|
        invariant forall j :: 0 <= j < i ==>
                    ready.items[j].effPriority
                    == EffectivePriority(cfg, ready.items[j].priority, ready.items[j].createdAt, now)
        invariant !changed ==> forall m :: m in ready.items ==> m.effPriority == old(m.effPriority)
      {
        var m := ready.items[i];
        var eff := EffectivePriority(cfg, m.priority, m.createdAt, now);
        if eff != m.effPriority {
          m.effPriority := eff;
          changed := true;
        }
      }
    }

    // The stored priorities having moved, the heap order is not to be relied on until it is rebuilt.
    method Reorder(now: int)
      requires ready.Valid()
      modifies ready`items, ready.items`index, ready.items`effPriority
      ensures ready.Valid() && forall m :: m in ready.items <==> m in old(ready.items)
      ensures forall m :: m in ready.items ==> m.effPriority == EffectivePriority(cfg, m.priority, m.createdAt, now)
    {
      hide EffectivePriority, Ordered;
      var changed := Reprioritise(now);
      SameMembers(ready.items, ready.Members());
      if changed {
        ready.Init();
        SameMembers(ready.items, ready.Members());
      } else {
        Untouched(ready);
      }
    }

    // The rebuilt ready heap holds what it held.
    twostate lemma Aged()
      requires old(Structure({})) && unchanged(delayed, inflight)
      requires byID == old(byID) && dlq == old(dlq) && cfg == old(cfg) && ready.order == old(ready.order)
      requires ready.Valid() && forall m :: m in ready.items <==> m in old(ready.items)
      requires forall x :: x in byID ==>
                 byID[x].state == old(byID[x].state) && (byID[x].state != StateReady ==> Same(byID[x]))
      ensures Structure({})
    {
      hide Heap.Valid, Lists;
      assert Lists(ready.items, StateReady, {}) by { AgedReady(); }
      NotAged(StateDelayed);
      NotAged(StateInFlight);
      NotAged(StateDead);
      Untouched(delayed);
      Untouched(inflight);
    }

    twostate lemma AgedReady()
      requires old(Lists(ready.items, StateReady, {})) && byID == old(byID)
      requires forall m :: m in ready.items <==> m in old(ready.items)
      requires forall x :: x in byID ==> byID[x].state == old(byID[x].state)
      ensures Lists(ready.items, StateReady, {})
    {
      forall m | m in ready.items ensures Known(m) && m.state == StateReady {
        assert m.id in byID;
      }
    }

    twostate lemma NotAged(new st: Owner)
      requires old(Lists(Holder(st), st, {})) && byID == old(byID) && Holder(st) == old(Holder(st)) && st != StateReady
      requires forall x :: x in byID ==>
                 byID[x].state == old(byID[x].state) && (byID[x].state != StateReady ==> Same(byID[x]))
      ensures Lists(Holder(st), st, {})
      ensures forall m :: m in Holder(st) ==> Same(m)
    {
      forall m | m in Holder(st) ensures Same(m) && m.state == st {
        assert m.id in byID;
      }
    }

    twostate lemma AgedAbs(new now: int)
      requires byID == old(byID) && cfg == old(cfg) && nextSeq == old(nextSeq) && dedup == old(dedup)
      requires forall x :: x in byID ==>
                 EntryOf(byID[x]) == (var e := old(EntryOf(byID[x]));
                                      if e.status.Ready? then MakeReady(cfg, e, now) else e)
      ensures Abs() == Age(old(Abs()), now)
    {
      hide EntryOf, MakeReady;
    }

    lemma ReadyListed()
      requires Structure({})
      ensures forall m :: m in ready.items ==> m.id in byID && byID[m.id] == m && m.state == StateReady
      ensures forall x :: x in byID && byID[x].state == StateReady ==> byID[x] in ready.items
      ensures ready.Valid() && forall m :: m in ready.items ==> m in byID.Values
      ensures |ready.items| == 0 ==> ReadyIds(Abs()) == {}
    {
      hide Heap.Valid;
    }

    method AgePriorities(now: int)
      requires Structure({})
      modifies this`lastAge, ready`items, byID.Values`index, byID.Values`effPriority
      ensures Structure({})
      ensures Abs() == if cfg.agingIntervalMS > 0 && now - old(lastAge) >= cfg.agingIntervalMS * 1_000_000
                       then Age(old(Abs()), now) else old(Abs())
      ensures cfg.agingIntervalMS > 0 && now - old(lastAge) >= cfg.agingIntervalMS * 1_000_000 ==>
                AgedFrom(old(Abs()), Abs(), now)
      ensures lastAge == if cfg.agingIntervalMS > 0 && now - old(lastAge) >= cfg.agingIntervalMS * 1_000_000 &&
               ReadyIds(old(Abs())) != {}
                         then now else old(lastAge)
    {
      hide Structure, Abs, EffectivePriority, Age, ReadyIds, Heap.Valid, AgedFrom;
      NoneOf();
      HeapsApart({});
      AgeMeans(Abs(), now);
      var iv := cfg.AgingInterval();
      if iv <= 0 || |ready.items| == 0 || now - lastAge < iv {
        if |ready.items| == 0 { NothingToAge(Abs(), now); }
        return;
      }
      lastAge := now;
      Rebuild(now);
    }

    method Rebuild(now: int)
      requires Structure({})
      modifies ready`items, byID.Values`index, byID.Values`effPriority
      ensures Structure({})
      ensures Abs() == Age(old(Abs()), now) && AgedFrom(old(Abs()), Abs(), now)
    {
      hide Structure, Abs, EffectivePriority, Age, ReadyIds, AgedFrom;
      AgeMeans(Abs(), now);
      ReadyListed();
      IndexKeyed({});
      HeapsApart({});
      Reorder(now);
      hide Heap.Valid;
      Aged();
      AgedAbs(now);
    }

    lemma EarliestDelayed()
      requires Structure({}) && |delayed.items| > 0
      ensures forall id :: id in Abs().live && Abs().live[id].status.Delayed? ==>
                delayed.items[0].visibleAt <= Abs().live[id].m.visibleAt
      ensures delayed.items[0].id in Abs().live && Abs().live[delayed.items[0].id].status.Delayed?
              && Abs().live[delayed.items[0].id].m.visibleAt == delayed.items[0].visibleAt
    {
      forall m | m in delayed.items ensures !Before(ByVisibleAt, m, delayed.items[0]) {
        HeadIsLeast(delayed, m);
      }
      assert delayed.items[0] in delayed.items;
      hide Heap.Valid;
      assert Lists(delayed.items, StateDelayed, {});
    }

    lemma EarliestLease()
      requires Structure({}) && |inflight.items| > 0
      ensures forall id :: id in Abs().live && Abs().live[id].status.InFlight? ==>
                inflight.items[0].deadline <= Abs().live[id].status.deadline
      ensures inflight.items[0].id in Abs().live && Abs().live[inflight.items[0].id].status.InFlight?
              && Abs().live[inflight.items[0].id].status.deadline == inflight.items[0].deadline
    {
      forall m | m in inflight.items ensures !Before(ByDeadline, m, inflight.items[0]) {
        HeadIsLeast(inflight, m);
      }
      assert inflight.items[0] in inflight.items;
      hide Heap.Valid;
      assert Lists(inflight.items, StateInFlight, {});
    }

    // An empty structure holds no message of its state.
    lemma NoneOf()
      requires Structure({})
      ensures |delayed.items| == 0 ==> forall id :: id in Abs().live ==> !Abs().live[id].status.Delayed?
      ensures |inflight.items| == 0 ==> forall id :: id in Abs().live ==> !Abs().live[id].status.InFlight?
      ensures |ready.items| == 0 <==> ReadyIds(Abs()) == {}
    {
      hide Heap.Valid;
      assert Lists(ready.items, StateReady, {}) && Lists(delayed.items, StateDelayed, {});
      assert Lists(inflight.items, StateInFlight, {});
      if |ready.items| > 0 {
        assert ready.items[0] in ready.items;
        assert ready.items[0].id in ReadyIds(Abs());
      } else {
        assert forall id :: id in byID ==> byID[id].state != StateReady;
        assert forall id :: id !in ReadyIds(Abs());
      }
    }

    // nextDeadlineLocked: the heads of the two heaps, and the two interval timers.
    method NextDeadline() returns (next: Option<int>)
      requires Structure({})
      ensures IsNext(Abs(), lastAge, lastPurge, 30_000_000_000, next)
    {
      hide Structure, Abs, ReadyIds, EntryOf;
      NoneOf();
      AbsLive();
      next := None;
      if |delayed.items| > 0 {
        EarliestDelayed();
        next := Sooner(next, delayed.items[0].visibleAt);
      }
      if |inflight.items| > 0 {
        EarliestLease();
        next := Sooner(next, inflight.items[0].deadline);
      }
      if cfg.AgingInterval() > 0 && |ready.items| > 0 {
        next := Sooner(next, lastAge + cfg.AgingInterval());
      }
      if dedup != map[] {
        next := Sooner(next, lastPurge + DEDUP_PURGE_INTERVAL);
      }
    }

    // tick, but for the wait on maxBatch and the call of Compact, which follow outside the mutex.
    method Tick(now: int) returns (next: Option<int>, maxBatch: nat, compact: bool, ghost expired: seq<bytes>)
      requires Structure({}) && log.Valid()
      modifies this`dlq, this`failed, this`counters, this`dedup, this`lastAge, this`lastPurge
      modifies ready`items, delayed`items, inflight`items
      modifies byID.Values`index, byID.Values`attempts, byID.Values`visibleAt, byID.Values`state
      modifies byID.Values`effPriority, log
      ensures Structure({}) && log.Valid()
      ensures log.protocol == G.Appended(old(log.protocol), ExpiryFrames(expired))
      ensures old(failed) || closed ==>
                next == None && !compact && expired == [] && Abs() == old(Abs()) && failed == old(failed)
      // An append that fails stops the expiries where they are and fails the queue; the rest is done all the same.
      ensures !old(failed) && !closed ==>
                && Expired(old(Abs()), expired, now)
                && (expired != [] ==> !G.Refuses(old(log.protocol))) && (failed ==> G.Refuses(old(log.protocol)))
                && Abs() == Tidied(ExpireIds(Promote(old(Abs()), now), J.Elements(expired), now), now,
                                   cfg.agingIntervalMS > 0 && now - old(lastAge) >= cfg.agingIntervalMS * 1_000_000,
                                   now - old(lastPurge) >= 30_000_000_000)
      ensures !failed && !closed ==>
                && Abs() == Ticked(old(Abs()), now,
                                   cfg.agingIntervalMS > 0 && now - old(lastAge) >= cfg.agingIntervalMS * 1_000_000,
                                   now - old(lastPurge) >= 30_000_000_000)
                && AllTicked(old(Abs()), Abs(), now,
                             cfg.agingIntervalMS > 0 && now - old(lastAge) >= cfg.agingIntervalMS * 1_000_000,
                             now - old(lastPurge) >= 30_000_000_000)
                && NothingPast(Abs(), now)
                && lastPurge == (if now - old(lastPurge) >= 30_000_000_000 then now else old(lastPurge))
                && lastAge == (if cfg.agingIntervalMS > 0 && now - old(lastAge) >= cfg.agingIntervalMS * 1_000_000
                                  && ReadyIds(Expire(Promote(old(Abs()), now), now)) != {} then now else old(lastAge))
                && counters == old(counters).(
                     expired := old(counters).expired + |expired|,
                     deadLettered := old(counters).deadLettered + UsedUp(Promote(old(Abs()), now), expired))
                && IsNext(Abs(), lastAge, lastPurge, 30_000_000_000, next)
      ensures compact <==> !failed && !closed && log.size >= compactThreshold && log.size >= compactFloor
      ensures maxBatch == if expired == [] then 0 else log.protocol.NextSeq()
    {
      hide Structure, Abs, L.Log.Valid, Promote, Ticked, Tidied, ExpiryFrames, AllOverdue, NothingPast, IsNext,
            ReadyIds, Expire, ExpireIds, UsedUp, G.Refuses, AllTicked;
      TickMeans(Abs(), now, cfg.AgingInterval() > 0 && now - lastAge >= cfg.AgingInterval(),
                now - lastPurge >= DEDUP_PURGE_INTERVAL);
      if failed || closed {
        ExpiryFramesMore([], []);
        return None, 0, false, [];
      }
      maxBatch, expired := DueWork(now);
      compact := !failed && log.size >= compactThreshold && log.size >= compactFloor;
      next := NextDeadline();
    }

    method DueWork(now: int) returns (maxBatch: nat, ghost expired: seq<bytes>)
      requires Structure({}) && log.Valid()
      modifies this`dlq, this`failed, this`counters, this`dedup, this`lastAge, this`lastPurge
      modifies ready`items, delayed`items, inflight`items
      modifies byID.Values`index, byID.Values`attempts, byID.Values`visibleAt, byID.Values`state
      modifies byID.Values`effPriority, log
      ensures Structure({}) && log.Valid()
      ensures log.protocol == G.Appended(old(log.protocol), ExpiryFrames(expired))
      ensures expired != [] ==> !G.Refuses(old(log.protocol))
      ensures failed != old(failed) ==> failed && G.Refuses(old(log.protocol))
      ensures Expired(old(Abs()), expired, now)
      ensures Abs() == Tidied(ExpireIds(Promote(old(Abs()), now), J.Elements(expired), now), now,
                              cfg.agingIntervalMS > 0 && now - old(lastAge) >= cfg.agingIntervalMS * 1_000_000,
                              now - old(lastPurge) >= 30_000_000_000)
      ensures !failed ==>
                && Abs() == Ticked(old(Abs()), now,
                                   cfg.agingIntervalMS > 0 && now - old(lastAge) >= cfg.agingIntervalMS * 1_000_000,
                                   now - old(lastPurge) >= 30_000_000_000)
                && NothingPast(Abs(), now)
                && lastAge == (if cfg.agingIntervalMS > 0 && now - old(lastAge) >= cfg.agingIntervalMS * 1_000_000
                                  && ReadyIds(Expire(Promote(old(Abs()), now), now)) != {} then now else old(lastAge))
      ensures lastPurge == if now - old(lastPurge) >= 30_000_000_000 then now else old(lastPurge)
      ensures counters == old(counters).(
                expired := old(counters).expired + |expired|,
                deadLettered := old(counters).deadLettered + UsedUp(Promote(old(Abs()), now), expired))
      ensures maxBatch == if expired == [] then 0 else log.protocol.NextSeq()
    {
      hide Structure, Abs, L.Log.Valid, Promote, Expire, Age, ExpiryFrames, AllOverdue, ExpireIds, NothingPast,
            ReadyIds, UsedUp, G.Refuses;
      TickSettles(Abs(), now, cfg.AgingInterval() > 0 && now - lastAge >= cfg.AgingInterval(),
                  now - lastPurge >= DEDUP_PURGE_INTERVAL);
      PromoteDue(now);
      maxBatch, expired := ExpireLeases(now);
      AgePriorities(now);
      PurgeDedup(now);
    }

    // The purge of expired dedup entries, at most once an interval.
    method PurgeDedup(now: int)
      requires Structure({})
      modifies this`dedup, this`lastPurge
      ensures Structure({})
      ensures Abs() == if now - old(lastPurge) >= 30_000_000_000 then Purge(old(Abs()), now) else old(Abs())
      ensures lastPurge == if now - old(lastPurge) >= 30_000_000_000 then now else old(lastPurge)
    {
      hide Structure, EntryOf;
      if now - lastPurge >= DEDUP_PURGE_INTERVAL {
        dedup := map d | d in dedup && now < dedup[d].expiresAt :: dedup[d];
        lastPurge := now;
      }
    }

    twostate lemma Reconfigured()
      requires old(Structure({})) && unchanged(delayed, inflight) && byID == old(byID) && dlq == old(dlq)
      requires ready.items == old(ready.items) && ready.order == ByComparator(cfg)
      requires ready.inOrder ==> InOrder(cfg, ready.Ranks())
      requires forall x :: x in byID ==> Same(byID[x])
      ensures Structure({})
    {
      hide Ordered, KeysOf, Lists;
      StillThere(StateReady);
      StillThere(StateDelayed);
      StillThere(StateInFlight);
      StillThere(StateDead);
      forall i | 0 <= i < |ready.items| ensures ready.items[i].index == i {
        assert ready.items[i] in Holder(StateReady);
      }
      ready.OrderFromRanks(cfg);
      hide Heap.Valid;
      Untouched(delayed);
      Untouched(inflight);
    }

    twostate lemma StillThere(new st: Owner)
      requires old(Lists(Holder(st), st, {})) && byID == old(byID) && Holder(st) == old(Holder(st))
      requires forall x :: x in byID ==> Same(byID[x])
      ensures Lists(Holder(st), st, {})
      ensures forall m :: m in Holder(st) ==> Same(m)
    {
      forall m | m in Holder(st) ensures Same(m) && m.state == st {
        assert m.id in byID;
      }
    }

    // The heap was in order by the old settings, and still is by the new if these do not matter to it.
    lemma OrderSurvives(was: Config)
      requires Structure({}) && ready.inOrder
      ensures was == cfg ==> InOrder(was, ready.Ranks())
    {
      ready.KeysAreRankKeys(cfg);
    }

    // A META record replaces the configuration, and with it the comparator of the ready heap, which reads its settings
    // there. The heap is not rebuilt: it is in order afterwards exactly if it happens to be by the new settings.
    method ApplyMeta(c: Config) returns (ok: bool)
      requires Structure({})
      modifies this`cfg, this`nextSeq, ready`order, ready`inOrder
      ensures Structure({})
      ensures match QueueState.ApplyMeta(old(Abs()), c)
              case None => !ok && Abs() == old(Abs()) && ready.inOrder == old(ready.inOrder)
              case Some(s) => ok && Abs() == s && (ready.inOrder <==> InOrder(s.cfg, old(ready.Ranks())))
      ensures (ok <==> Permissible(c)) && (ok ==> FilledIn(c, cfg))
      ensures ok && old(ready.inOrder) && (|ready.items| <= 1 || SameComparator(old(cfg), cfg)) ==> ready.inOrder
    {
      hide Validate, EntryOf, Structure, InOrder, Heap.Ranks, SameComparator, Permissible, FilledIn, Validated;
      ValidateNormalises(c);
      var v := Validate(c);
      if v.None? {
        return false;
      }
      if ready.inOrder {
        OrderSurvives(cfg);
        if |ready.items| <= 1 || SameComparator(cfg, v.value) { StaysInOrder(cfg, v.value, ready.Ranks()); }
      }
      TakeOver(v.value);
      return true;
    }

    method TakeOver(c: Config)
      requires Structure({})
      modifies this`cfg, this`nextSeq, ready`order, ready`inOrder
      ensures Structure({}) && cfg == c && nextSeq == Max(old(nextSeq), c.nextSeq)
      ensures ready.inOrder <==> InOrder(c, old(ready.Ranks()))
    {
      hide EntryOf, Structure, InOrder, Heap.Ranks, Abs;
      HeapsApart({});
      cfg := c;
      ready.order := ByComparator(cfg);
      ready.inOrder := InOrder(cfg, ready.Ranks());
      if cfg.nextSeq > nextSeq {
        nextSeq := cfg.nextSeq;
      }
      Reconfigured();
    }

    // apply: one record, during replay.
    method Apply(j: ConfigCodec, f: Frame, now: int) returns (ok: bool)
      requires Structure({})
      modifies this`byID, this`dlq, this`nextSeq, this`dedup, this`cfg, ready, delayed, inflight, byID.Values
      ensures Structure({}) && fresh(byID.Values - old(byID.Values))
      ensures match RecOf(j, f)
              case None => !ok && Abs() == old(Abs())
              case Some(r) =>
                match ApplyRec(old(Abs()), r, now)
                case None => !ok && Abs() == old(Abs())
                case Some(s) =>
                  && ok && Abs() == s
                  && (r.MetaRec? ==> (ready.inOrder <==> InOrder(s.cfg, old(ready.Ranks()))))
      ensures (ok && f.typ == TYPE_META ==> |old(ready.items)| <= 1 || SameComparator(old(cfg), cfg)) ==>
                old(ready.inOrder) ==> ready.inOrder
    {
      hide Structure, Abs, QueueState.ApplyEnqueue, QueueState.ApplyAck, QueueState.ApplyAttempt,
        QueueState.ApplyMeta, InOrder, Heap.Ranks,
        DecodeMessage, DecodeDedup;
      HeapsApart({});
      var r := RecOf(j, f);
      if r.None? {
        return false;
      }
      match r.value {
        case MetaRec(c) => ok := ApplyMeta(c);
        case EnqueueRec(m, dead) => ok := AddNew(m, dead, now);
        case AckRec(id) => ok := ApplyAck(id);
        case NackRec(id) => ok := ReplayAttempt(id, now);
        case ExpireRec(id) => ok := ReplayAttempt(id, now);
        case DedupRec(e) =>
          AddDedup(e);
          ok := true;
      }
    }

    method ReplayAttempt(id: bytes, now: int) returns (ok: bool)
      requires Structure({})
      modifies this`dlq, ready`items, delayed`items, inflight`items, byID.Values
      ensures Structure({})
      ensures match QueueState.ApplyAttempt(old(Abs()), id, now)
              case None => !ok && Abs() == old(Abs())
              case Some(s) => ok && Abs() == s
    {
      hide Structure, Abs, QueueState.ApplyAttempt;
      var done, _ := ApplyAttempt(id, now);
      ok := done;
    }

    method AddDedup(e: DedupEntry)
      requires Structure({})
      modifies this`dedup
      ensures Structure({}) && Abs() == old(Abs()).(dedup := old(Abs()).dedup[e.dedupID := e])
    {
      hide Structure, EntryOf;
      dedup := dedup[e.dedupID := e];
    }

    lemma NewIsEmpty()
      requires Structure({}) && Abs() == NEW_QUEUE
      ensures byID == map[] && |ready.items| == 0
    {
      AbsLive();
      hide Structure;
      NoneOf();
      assert ReadyIds(NEW_QUEUE) == {};
    }

    lemma ReadyCounted()
      requires Structure({})
      ensures |ready.items| == |ReadyIds(Abs())|
    {
      HeapOnce(ready);
      CountOf(ready.items, StateReady);
      assert IdsIn(StateReady) == ReadyIds(Abs());
      hide Heap.Valid, Lists;
    }

    // What Load does with the records Replay delivers, the first of which has to be META. The ready heap ends up in
    // order if no later META record disturbs it.
    method Load(j: ConfigCodec, frames: seq<Frame>, clock: seq<int>) returns (ok: bool)
      requires Structure({}) && ready.inOrder && Abs() == NEW_QUEUE && |clock| == |frames|
      modifies this`byID, this`dlq, this`nextSeq, this`dedup, this`cfg, ready, delayed, inflight
      ensures Structure({})
      ensures (forall i :: 0 <= i < |frames| ==> HarmlessMeta(j, frames, clock, i)) ==> ready.inOrder
      ensures ok <==>
                && Decoded(j, frames).Some?
                && (|frames| > 0 ==> frames[0].typ == TYPE_META)
                && Replayed(Decoded(j, frames).value, clock).Some?
      ensures ok ==> Abs() == Replayed(Decoded(j, frames).value, clock).value
    {
      hide Structure, Abs, Decoded, Replayed, ApplyRec, RecOf, HarmlessMeta;
      NewIsEmpty();
      NothingLoaded(j, frames, clock);
      var sawMeta := false;
      for i := 0 to |frames|
        invariant Structure({}) && fresh(byID.Values)
        invariant (forall k :: 0 <= k < |frames| ==> HarmlessMeta(j, frames, clock, k)) ==> ready.inOrder
        invariant sawMeta <==> i > 0
        invariant i > 0 ==> frames[0].typ == TYPE_META
        invariant Decoded(j, frames[..i]).Some?
        invariant Replayed(Decoded(j, frames[..i]).value, clock[..i]) == Some(Abs())
      {
        if frames[i].typ == TYPE_META {
          sawMeta := true;
        } else if !sawMeta {
          return false;
        }
        OneMoreLoaded(j, frames, clock, i, Abs());
        ok := LoadOne(j, frames, clock, i);
        if !ok {
          return false;
        }
      }
      assert frames[..|frames|] == frames && clock[..|clock|] == clock;
      return true;
    }

    // One call of apply, at record i.
    method LoadOne(j: ConfigCodec, frames: seq<Frame>, clock: seq<int>, i: nat) returns (ok: bool)
      requires Structure({}) && i < |frames| == |clock| && Decoded(j, frames[..i]).Some?
      requires Replayed(Decoded(j, frames[..i]).value, clock[..i]) == Some(Abs())
      modifies this`byID, this`dlq, this`nextSeq, this`dedup, this`cfg, ready, delayed, inflight, byID.Values
      ensures Structure({}) && fresh(byID.Values - old(byID.Values))
      ensures match RecOf(j, frames[i])
              case None => !ok
              case Some(r) =>
                match ApplyRec(old(Abs()), r, clock[i])
                case None => !ok
                case Some(s) => ok && Abs() == s
      ensures old(ready.inOrder) && HarmlessMeta(j, frames, clock, i) ==> ready.inOrder
    {
      AbsLive();
      ReadyCounted();
      hide Structure, Abs, Decoded, Replayed, InOrder, Heap.Ranks, ReadyIds, SameComparator, Validate;
      MetaIsMeta(j, frames[i], Abs(), clock[i]);
      hide ApplyRec, RecOf;
      ok := Apply(j, frames[i], clock[i]);
    }

    lemma MetaIsMeta(j: ConfigCodec, f: Frame, s: State, now: int)
      ensures RecOf(j, f).Some? ==> (f.typ == TYPE_META <==> RecOf(j, f).value.MetaRec?)
      ensures RecOf(j, f).Some? && f.typ == TYPE_META ==>
                (ApplyRec(s, RecOf(j, f).value, now).Some? <==> Validate(RecOf(j, f).value.cfg).Some?)
      ensures RecOf(j, f).Some? && f.typ == TYPE_META && ApplyRec(s, RecOf(j, f).value, now).Some? ==>
                ApplyRec(s, RecOf(j, f).value, now).value.cfg == Validate(RecOf(j, f).value.cfg).value
    {
      hide Validate;
    }

    // The list of ready messages that Peek shows: exactly the order in which Dequeue would hand them out.
    method PeekReady(limit: int) returns (views: seq<bytes>)
      requires Structure({}) && DistinctSeqs(Abs())
      ensures var n := if limit <= 0 then 25 else limit;
              var all := SortedReady(Abs());
              views == all[..if n < |all| then n else |all|] && FirstInLine(Abs(), views, n)
    {
      hide Structure, Heap.Valid, SortedReady, DistinctSeqs, Less, ByRank, FirstInLine;
      SortedInLine(Abs(), if limit <= 0 then 25 else limit);
      var ready' := CopyReady();
      RankedOrdered(Abs(), ready');
      var sorted := SortSlice(ready', ByRank(cfg));
      RankedSorted(Abs(), ready', sorted);
      var n := if limit <= 0 then 25 else limit;
      views := RankedIds(sorted);
      if |views| > n {
        views := views[..n];
      }
    }

    method CopyReady() returns (xs: seq<Ranked>)
      requires Structure({}) && DistinctSeqs(Abs())
      ensures RankedAll(Abs(), xs)
    {
      hide Structure, Heap.Valid, DistinctSeqs;
      ReadyListed();
      ReadyOnce();
      xs := [];
      for i := 0 to |ready.items|
        invariant |xs| == i
        invariant forall k :: 0 <= k < i ==>
                    xs[k] == Ranked(ready.items[k].id, Rank(ready.items[k].effPriority, ready.items[k].seqNo))
      {
        var m := ready.items[i];
        xs := xs + [Ranked(m.id, Rank(m.effPriority, m.seqNo))];
      }
      forall x | x in xs ensures x.id in ReadyIds(Abs()) && x.rank == RankOf(Abs(), x.id) {
        var k :| 0 <= k < |xs| && xs[k] == x;
        assert ready.items[k] in ready.items;
      }
      forall id | id in ReadyIds(Abs()) ensures exists x :: x in xs && x.id == id {
        assert byID[id] in ready.items;
        var k :| 0 <= k < |ready.items| && ready.items[k] == byID[id];
        assert xs[k] in xs;
      }
      forall k, l | 0 <= k < l < |xs| ensures xs[k].id != xs[l].id {
        assert ready.items[k] in ready.items && ready.items[l] in ready.items;
      }
    }

    lemma ReadyOnce()
      requires Structure({})
      ensures NoRepeats(ready.items) && forall id :: id in byID ==> byID[id].id == id
    {
      hide Lists;
      assert ready.Indexed();
    }

    // Ranging over a Go map: every message once, in an order the program does not choose.
    method LiveMessages() returns (live: seq<Saved>)
      requires Structure({}) && DistinctSeqs(Abs())
      ensures SavedAll(Abs(), live)
    {
      hide Structure, DistinctSeqs;
      AbsLive();
      IndexKeyed({});
      live := [];
      var rest := byID.Keys;
      ghost var done: seq<bytes> := [];
      while rest != {}
        invariant rest <= byID.Keys && |done| == |live|
        invariant forall id :: id in done <==> id in byID && id !in rest
        invariant forall k :: 0 <= k < |live| ==>
                  done[k] in byID && live[k] == Saved(byID[done[k]].Persisted(), byID[done[k]].state.StateDead?)
        invariant forall k, l :: 0 <= k < l < |live| ==> done[k] != done[l]
        decreases rest
      {
        var id :| id in rest;
        rest := rest - {id};
        live := live + [Saved(byID[id].Persisted(), byID[id].state.StateDead?)];
        done := done + [id];
      }
      SavedOnce(live, done);
    }

    lemma SavedOnce(live: seq<Saved>, done: seq<bytes>)
      requires forall id :: id in byID ==> byID[id].id == id
      requires |done| == |live| && forall id :: id in done <==> id in byID
      requires forall k :: 0 <= k < |live| ==>
                 done[k] in byID && live[k] == Saved(byID[done[k]].Persisted(), byID[done[k]].state.StateDead?)
      requires forall k, l :: 0 <= k < l < |live| ==> done[k] != done[l]
      ensures SavedAll(Abs(), live)
    {
      var s := Abs();
      forall k | 0 <= k < |live|
        ensures live[k].m.id == done[k] && done[k] in s.live
                && live[k] == Saved(s.live[done[k]].m, s.live[done[k]].status.Dead?)
      {
      }
      forall id | id in s.live ensures exists x :: x in live && x.m.id == id {
        assert id in done;
        var k :| 0 <= k < |done| && done[k] == id;
        assert live[k] in live;
      }
    }

    method Orphans(now: int) returns (es: seq<DedupEntry>)
      requires forall d :: d in dedup ==> dedup[d].dedupID == d
      ensures OrphansAll(Abs(), es, now)
    {
      AbsLive();
      hide Abs;
      es := [];
      var rest := dedup.Keys;
      while rest != {}
        invariant rest <= dedup.Keys
        invariant forall e :: e in es <==>
                    && e.dedupID in dedup && e.dedupID !in rest
                    && Orphan(Abs(), e.dedupID, now) && e == dedup[e.dedupID]
        invariant forall i, j :: 0 <= i < j < |es| ==> es[i] != es[j]
        decreases rest
      {
        var d :| d in rest;
        rest := rest - {d};
        var e := dedup[d];
        assert e !in es;
        if now < e.expiresAt && e.messageID !in byID {
          es := es + [e];
        }
      }
    }

    // The records of a snapshot: META, the messages by Seq, then the orphaned dedup entries by DedupID.
    method Snapshot(now: int) returns (recs: seq<LogRec>)
      requires Structure({}) && DistinctSeqs(Abs()) && forall d :: d in dedup ==> dedup[d].dedupID == d
      ensures IsSnapshot(recs, Abs(), now)
    {
      hide Structure, DistinctSeqs, SavedAll, OrphansAll, BySeq, ByDedupID, IsSnapshot;
      AbsLive();
      hide Abs;
      var live := LiveMessages();
      SavedOrdered(Abs(), live);
      var bySeq := SortSlice(live, BySeq());
      var orphans := Orphans(now);
      OrphansOrdered(Abs(), orphans, now);
      var byDedupID := SortSlice(orphans, ByDedupID());
      recs := [MetaRec(cfg.(nextSeq := nextSeq))] + SavedRecs(bySeq) + EntryRecs(byDedupID);
      SavedInOrder(Abs(), live, bySeq);
      EntriesInOrder(Abs(), orphans, byDedupID, now);
      SnapshotMade(Abs(), SavedIds(bySeq), EntryIds(byDedupID), now);
    }

    // Compact, Sync having come back. The mutex is held throughout, so the state stands still.
    method Compact(j: ConfigCodec, now: int, d: Files, faultAt: nat, faults: Faults, closes: bool, opens: bool)
      returns (r: Compaction, d': Files)
      requires Structure({}) && log.Valid() && G.Sync(log.protocol) != G.Blocked
      requires DistinctSeqs(Abs()) && forall e :: e in dedup ==> dedup[e].dedupID == e
      modifies this`failed, this`compactFloor, this`counters, log
      ensures Structure({}) && log.Valid() && Abs() == old(Abs())
      ensures match r
              case Turned(why) => old(Check()) == Some(why) && failed == old(failed) && d' == d
              case SyncFailed => failed && G.Sync(old(log.protocol)) == G.Failed && d' == d
              case NotInstalled => !failed && d' == d // the old log is live and the queue carries on
              case Unsettled(recs) =>                 // either file may be found, and the queue takes no more work
                && failed && IsSnapshot(recs, Abs(), now)
                && d'.log == EncodedAll(FramesOf(j, recs)) && d'.replaced == Some(d.log)
              case NotReopened(recs) =>
                && failed && IsSnapshot(recs, Abs(), now) && d' == Files(EncodedAll(FramesOf(j, recs)), None)
                && (log.protocol == old(log.protocol) || log.protocol == G.Do(old(log.protocol), G.ReopenFailed))
              case Compacted(recs) =>
                && !failed && IsSnapshot(recs, Abs(), now) && d' == Files(EncodedAll(FramesOf(j, recs)), None)
                && log.protocol == G.Do(old(log.protocol), G.Reopened(FramesOf(j, recs)))
                && log.size == |EncodedAll(FramesOf(j, recs))| && compactFloor == 2 * log.size
                && counters == old(counters).(compactions := old(counters).compactions + 1)
      ensures r.Turned? <==> old(Check()).Some?
      ensures !r.Turned? && !r.SyncFailed? ==> G.Sync(old(log.protocol)) == G.Nil
      ensures !r.NotReopened? && !r.Compacted? ==> log.protocol == old(log.protocol)
      ensures !r.Compacted? ==> compactFloor == old(compactFloor) && counters == old(counters)
    {
      hide Structure, Abs, DistinctSeqs, IsSnapshot, L.Log.Valid, G.Do, EncodedAll, FramesOf;
      if Check().Some? {
        return Turned(Check().value), d;
      }
      var v := SyncNow();
      if v == G.Failed {
        failed := true;
        return SyncFailed, d;
      }
      var recs := Snapshot(now);
      r, d' := SwapIn(j, recs, d, faultAt, faults, closes, opens);
    }

    // From the temporary file on.
    method SwapIn(j: ConfigCodec, recs: seq<LogRec>, d: Files, faultAt: nat, faults: Faults, closes: bool, opens: bool)
      returns (r: Compaction, d': Files)
      requires Structure({}) && log.Valid() && !log.fatal && G.Quiet(log.protocol) && !failed
      modifies this`failed, this`compactFloor, this`counters, log
      ensures Structure({}) && log.Valid() && Abs() == old(Abs())
      ensures match r
              case NotInstalled => !failed && d' == d
              case Unsettled(rs) =>
                rs == recs && failed && d'.log == EncodedAll(FramesOf(j, recs)) && d'.replaced == Some(d.log)
              case NotReopened(rs) =>
                && rs == recs && failed && d' == Files(EncodedAll(FramesOf(j, recs)), None)
                && (log.protocol == old(log.protocol) || log.protocol == G.Do(old(log.protocol), G.ReopenFailed))
              case Compacted(rs) =>
                && rs == recs && !failed && d' == Files(EncodedAll(FramesOf(j, recs)), None)
                && log.protocol == G.Do(old(log.protocol), G.Reopened(FramesOf(j, recs)))
                && log.size == |EncodedAll(FramesOf(j, recs))| && compactFloor == 2 * log.size
                && counters == old(counters).(compactions := old(counters).compactions + 1)
              case _ => false
      ensures !r.NotReopened? && !r.Compacted? ==> log.protocol == old(log.protocol)
      ensures !r.Compacted? ==> compactFloor == old(compactFloor) && counters == old(counters)
    {
      hide Structure, Abs, L.Log.Valid, G.Do, EncodedAll, FramesOf;
      var installed, ok, size, files := Install(j, recs, d, faultAt, faults);
      d' := files;
      if !installed {
        return NotInstalled, d';
      }
      if !ok {
        failed := true;
        return Unsettled(recs), d';
      }
      var reopened := log.Reopen(FramesOf(j, recs), size, closes, opens);
      if !reopened {
        failed := true;
        return NotReopened(recs), d';
      }
      compactFloor := 2 * size;
      counters := counters.(compactions := counters.compactions + 1);
      return Compacted(recs), d';
    }

    // The last turn of Sync's loop.
    method SyncNow() returns (v: G.Verdict)
      requires log.Valid() && G.Sync(log.protocol) != G.Blocked
      modifies log
      ensures log.Valid() && log.protocol == old(log.protocol) && v == G.Sync(log.protocol)
      ensures v == G.Nil ==> !log.fatal && G.Quiet(log.protocol)
    {
      v := log.Sync();
    }

    ghost function IdsIn(st: Owner): set<bytes>
      reads this`byID, byID.Values`state
    {
      set id | id in byID && byID[id].state == st
    }

    lemma CountOf(items: seq<Message>, st: Owner)
      requires Lists(items, st, {}) && NoRepeats(items) && forall id :: id in byID ==> byID[id].id == id
      ensures |items| == |IdsIn(st)|
    {
      var ids := seq(|items|, i requires 0 <= i < |items| => items[i].id);
      forall i | 0 <= i < |items| ensures Known(items[i]) && ids[i] in IdsIn(st) { assert items[i] in items; }
      forall i, j | 0 <= i < j < |ids| ensures ids[i] != ids[j] {
        assert byID[ids[i]] == items[i] && byID[ids[j]] == items[j];
      }
      DistinctSize(ids);
      forall id ensures id in ids <==> id in IdsIn(st) {
        if id in IdsIn(st) {
          assert byID[id] in items;
          var i :| 0 <= i < |items| && items[i] == byID[id];
          assert ids[i] == id;
        }
      }
      assert (set id | id in ids) == IdsIn(st);
    }

    // The heaps hold no message twice.
    lemma HeapOnce(h: Heap)
      requires h.Valid()
      ensures NoRepeats(h.items)
    {
      assert h.Indexed();
    }

    // No message is lost or held twice: the four structures together are as many as the index holds, and each message
    // is where its state says.
    lemma InExactlyOne()
      requires Structure({})
      ensures |ready.items| + |delayed.items| + |inflight.items| + |dlq| == |byID|
      ensures forall id :: id in byID ==>
                && (byID[id] in ready.items <==> byID[id].state == StateReady)
                && (byID[id] in delayed.items <==> byID[id].state == StateDelayed)
                && (byID[id] in inflight.items <==> byID[id].state == StateInFlight)
                && (byID[id] in dlq <==> byID[id].state == StateDead)
      ensures forall id :: id in byID && byID[id].state != StateDead ==> InItsSlot(byID[id])
    {
      HeapOnce(ready);
      HeapOnce(delayed);
      HeapOnce(inflight);
      CountOf(ready.items, StateReady);
      CountOf(delayed.items, StateDelayed);
      CountOf(inflight.items, StateInFlight);
      CountOf(dlq, StateDead);
      FourParts();
      SlotsPoint();
      hide Heap.Valid;
    }

    ghost predicate InItsSlot(m: Message)
      reads this`dlq, ready, delayed, inflight, m`state, m`index
    {
      0 <= m.index < |Holder(m.state)| && Holder(m.state)[m.index] == m
    }

    lemma SlotsPoint()
      requires Structure({})
      ensures forall id :: id in byID && byID[id].state != StateDead ==> InItsSlot(byID[id])
    {
      assert ready.Indexed() && delayed.Indexed() && inflight.Indexed();
      hide Ordered;
      forall id | id in byID && byID[id].state != StateDead
        ensures InItsSlot(byID[id])
      {
        assert byID[id] in Holder(byID[id].state);
      }
    }

    lemma FourParts()
      ensures |IdsIn(StateReady)| + |IdsIn(StateDelayed)| + |IdsIn(StateInFlight)| + |IdsIn(StateDead)| == |byID|
    {
      assert byID.Keys == IdsIn(StateReady) + IdsIn(StateDelayed) + IdsIn(StateInFlight) + IdsIn(StateDead);
    }
  }

  lemma AttemptApplies(s: State, id: bytes, now: int)
    ensures QueueState.ApplyAttempt(s, id, now).Some? <==> id in s.live
    ensures id in s.live ==> id in QueueState.ApplyAttempt(s, id, now).value.live
  {
    hide Attempted;
  }

  lemma AfterEnqueue(s: State, m: Msg, now: int)
    ensures J.After(s, J.EvEnqueue(m), now) == QueueState.ApplyEnqueue(s, m, false, now).GetOr(s)
  {
    hide QueueState.ApplyEnqueue;
  }

  lemma AckMeans(s: State, id: bytes)
    ensures id in s.live ==> QueueState.ApplyAck(s, id) == Some(s.(live := s.live - {id}))
  {
  }

  lemma NackMeans(s: State, id: bytes, now: int)
    requires id in s.live
    ensures var t := QueueState.ApplyAttempt(s, id, now).GetOr(s);
            && id in t.live && t == s.(live := s.live[id := t.live[id]])
            && FailedOnce(s.cfg, s.live[id].m, t.live[id], now)
  {
    hide Attempted, FailedOnce;
    AttemptedMeans(s.cfg, s.live[id].m, now);
  }

  // Indexing a message and then routing it is one enqueue.
  lemma AppliedInTwo(s: State, m: Msg, dead: bool, now: int, e: Entry)
    ensures if m.id in s.live then QueueState.ApplyEnqueue(s, m, dead, now) == None
            else
              var t := State(s.cfg, Max(s.nextSeq, m.seqNo + 1), s.live[m.id := e], Remember(s.cfg, s.dedup, m));
              QueueState.ApplyEnqueue(s, m, dead, now)
              == Some(t.(live := t.live[m.id := Entry(m, if dead then Dead else Placed(s.cfg, m, now))]))
  {
    hide Placed, Remember;
    var x := Entry(m, if dead then Dead else Placed(s.cfg, m, now));
    assert s.live[m.id := e][m.id := x] == s.live[m.id := x];
  }

  lemma SameMembers(items: seq<Message>, members: set<Message>)
    requires members == set m | m in items
    ensures forall m :: m in items <==> m in members
  {
  }

  lemma WithoutAt(ms: seq<Message>, i: nat)
    requires NoRepeats(ms) && i < |ms|
    ensures NoRepeats(ms[..i] + ms[i + 1..])
    ensures forall x :: x in ms[..i] + ms[i + 1..] <==> x in ms && x != ms[i]
  {
  }
}
