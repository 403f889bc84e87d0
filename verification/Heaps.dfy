// queue/heaps.go over container/heap: three heaps of messages that know their own slot.
module Heaps {
  import opened Bytes
  import opened Messages
  import opened HeapOrder
  import opened Reordering

  datatype Owner = StateReady | StateDelayed | StateInFlight | StateDead

  // visibleAt and attempts are the parts of the log's record that change; state, index, effPriority and deadline are
  // rebuilt by replay. index is the slot in whichever heap holds the message, -1 in none.
  class Message {
    const id: bytes
    const dedupID: bytes
    const seqNo: nat
    const priority: int
    const payload: bytes
    const createdAt: int
    var visibleAt: int
    var attempts: nat

    var state: Owner
    var index: int
    var effPriority: int
    var deadline: int

    constructor (m: Msg, dead: bool)
      ensures Persisted() == m
      ensures state == if dead then StateDead else StateReady
    {
      id, dedupID, seqNo, priority, payload, createdAt := m.id, m.dedupID, m.seqNo, m.priority, m.payload, m.createdAt;
      visibleAt, attempts := m.visibleAt, m.attempts;
      state := if dead then StateDead else StateReady;
      index, effPriority, deadline := 0, m.priority, 0;
    }

    function Persisted(): Msg
      reads this`visibleAt, this`attempts
    {
      Msg(id, dedupID, seqNo, priority, visibleAt, payload, attempts, createdAt)
    }
  }

  // Which of the three Less methods a heap uses.
  datatype Order = ByComparator(cfg: Config) | ByVisibleAt | ByDeadline

  predicate Before(o: Order, a: Message, b: Message)
    reads a`visibleAt, a`effPriority, a`deadline, b`visibleAt, b`effPriority, b`deadline
  {
    match o
    case ByComparator(cfg) => Less(cfg, Rank(a.effPriority, a.seqNo), Rank(b.effPriority, b.seqNo))
    case ByVisibleAt => if a.visibleAt != b.visibleAt then a.visibleAt < b.visibleAt else a.seqNo < b.seqNo
    case ByDeadline => if a.deadline != b.deadline then a.deadline < b.deadline else a.seqNo < b.seqNo
  }

  // All three compare one number and then another.
  ghost function KeyOf(o: Order, m: Message): Key
    reads m`visibleAt, m`effPriority, m`deadline
  {
    match o
    case ByComparator(cfg) => RankKey(cfg, Rank(m.effPriority, m.seqNo))
    case ByVisibleAt => Key(m.visibleAt, m.seqNo)
    case ByDeadline => Key(m.deadline, m.seqNo)
  }

  lemma BeforeIsKeyOrder(o: Order, a: Message, b: Message)
    ensures Before(o, a, b) <==> Lt(KeyOf(o, a), KeyOf(o, b))
  {
  }

  ghost function KeysOf(o: Order, items: seq<Message>): (k: seq<Key>)
    reads items`visibleAt, items`effPriority, items`deadline
    ensures |k| == |items| && forall i :: 0 <= i < |items| ==> k[i] == KeyOf(o, items[i])
  {
    if items == [] then [] else [KeyOf(o, items[0])] + KeysOf(o, items[1..])
  }

  ghost function RanksOf(items: seq<Message>): (rs: seq<Rank>)
    reads items`effPriority
    ensures |rs| == |items|
    ensures forall i :: 0 <= i < |items| ==> rs[i] == Rank(items[i].effPriority, items[i].seqNo)
  {
    if items == [] then [] else [Rank(items[0].effPriority, items[0].seqNo)] + RanksOf(items[1..])
  }

  class Heap {
    var order: Order
    var items: seq<Message>

    // Whether the items are known to be in order. Only another order for items already there can end that.
    ghost var inOrder: bool

    constructor (o: Order)
      ensures order == o && items == [] && Valid() && inOrder
    {
      order, items, inOrder := o, [], true;
    }

    ghost function Keys(): (k: seq<Key>)
      reads this, items`visibleAt, items`effPriority, items`deadline
      ensures |k| == |items| && forall i :: 0 <= i < |items| ==> k[i] == KeyOf(order, items[i])
    {
      KeysOf(order, items)
    }

    ghost function Members(): set<Message>
      reads this
    {
      set m | m in items
    }

    ghost function Ranks(): (rs: seq<Rank>)
      reads this`items, items`effPriority
      ensures |rs| == |items|
      ensures forall i :: 0 <= i < |items| ==> rs[i] == Rank(items[i].effPriority, items[i].seqNo)
    {
      RanksOf(items)
    }

    // The keys of a heap of ready messages are those of their ranks.
    lemma KeysAreRankKeys(cfg: Config)
      requires order == ByComparator(cfg)
      ensures Keys() == RankKeys(cfg, Ranks())
    {
      hide RankKey, KeysOf, RanksOf;
    }

    lemma OrderFromRanks(cfg: Config)
      requires order == ByComparator(cfg) && Indexed() && (inOrder ==> InOrder(cfg, Ranks()))
      ensures Valid()
    {
      KeysAreRankKeys(cfg);
      hide RankKeys, KeysOf, RanksOf, Ordered;
    }

    // Every message in the heap knows its own slot.
    ghost predicate Indexed()
      reads this, items`index
    {
      forall i :: 0 <= i < |items| ==> items[i].index == i
    }

    ghost predicate Valid()
      reads this, items`index, items`visibleAt, items`effPriority, items`deadline
    {
      Indexed() && (inOrder ==> Ordered(Keys()))
    }

    // heap.Interface

    method Swap(i: nat, j: nat)
      requires Indexed() && i < |items| && j < |items|
      modifies this`items, Members()`index
      ensures Indexed()
      ensures items == Swapped(old(items), i, j)
      ensures Keys() == Swapped(old(Keys()), i, j)
      ensures Members() == old(Members())
    {
      hide KeysOf;
      items := items[i := items[j]][j := items[i]];
      items[i].index := i;
      items[j].index := j;
      SwappedMembers(old(items), i, j);
    }

    method PushLast(m: Message)
      requires Indexed() && m !in items
      modifies this`items, m`index
      ensures Indexed()
      ensures items == old(items) + [m]
    {
      m.index := |items|;
      items := items + [m];
    }

    method PopLast() returns (m: Message)
      requires Indexed() && |items| > 0
      modifies this`items, Members()`index
      ensures Indexed()
      ensures old(items) == items + [m] && m !in items && m.index == -1
      ensures Members() == old(Members()) - {m}
      ensures Keys() == old(Keys())[..|items|]
    {
      m := items[|items| - 1];
      items := items[..|items| - 1];
      m.index := -1;
    }

    // container/heap

    // Sifts up within the first n items. sure says whether those are otherwise in order.
    method Up(start: nat, ghost n: nat, ghost sure: bool)
      requires Indexed() && start < n <= |items| && (sure ==> UpHole(Keys(), n, start))
      modifies this`items, Members()`index
      ensures Indexed()
      ensures |items| == |old(items)| && items[n..] == old(items)[n..]
      ensures Members() == old(Members())
      ensures sure ==> OrderedFrom(Keys(), n, 0)
    {
      hide UpHole, Lt, OrderedFrom, KeyOf;
      var j: nat := start;
      while true
        invariant Indexed() && j < n <= |items| == |old(items)| && items[n..] == old(items)[n..]
        invariant sure ==> UpHole(Keys(), n, j)
        invariant Members() == old(Members())
        decreases j
      {
        var i := if j == 0 then 0 else (j - 1) / 2;
        if i == j {
          break;
        }
        BeforeIsKeyOrder(order, items[j], items[i]);
        if !Before(order, items[j], items[i]) {
          break;
        }
        if sure { UpStep(Keys(), n, j); }
        Swap(i, j);
        j := i;
      }
      if sure { UpDone(Keys(), n, j); }
    }

    method SmallerChild(i: nat, n: nat) returns (j: nat)
      requires n <= |items| && 2 * i + 1 < n
      ensures j == 2 * i + 1 || j == 2 * i + 2
      ensures LeastChild(Keys(), n, i, j)
    {
      hide Lt, KeyOf, Before;
      var j1 := 2 * i + 1;
      j := j1;
      var j2 := j1 + 1;
      if j2 < n {
        BeforeIsKeyOrder(order, items[j2], items[j1]);
        if Before(order, items[j2], items[j1]) {
          j := j2;
        }
      }
      LeastOfTwo(Keys(), n, i, j);
    }

    // One turn of sifting down: the smaller child comes up, unless the heap is in order at i.
    method DownTurn(i: nat, n: nat, ghost lo: nat, ghost sure: bool) returns (j: nat)
      requires Indexed() && i < n <= |items| && lo <= i && (sure ==> Hole(Keys(), n, i, lo)) && 2 * i + 1 < n
      modifies this`items, Members()`index
      ensures Indexed() && i <= j < n
      ensures |items| == |old(items)| && items[n..] == old(items)[n..]
      ensures Members() == old(Members())
      ensures j == i ==> items == old(items) && Keys() == old(Keys()) && SettledAt(Keys(), n, i)
      ensures sure && j != i ==> Hole(Keys(), n, j, lo) && Ok(Keys(), j)
    {
      hide Hole, Lt, KeyOf, KeysOf, Before, Swapped;
      j := SmallerChild(i, n);
      BeforeIsKeyOrder(order, items[j], items[i]);
      if !Before(order, items[j], items[i]) {
        LeastSettles(Keys(), n, i, j);
        return i;
      }
      if sure { DownStep(Keys(), n, i, j, lo); }
      SwappedSuffix(items, i, j, n);
      Swap(i, j);
    }

    // Sifts down within the first n items. lo is where the caller's heap begins (0, or the node being built).
    method Down(start: nat, n: nat, ghost lo: nat, ghost sure: bool) returns (moved: bool)
      requires Indexed() && start < n <= |items| && lo <= start && (sure ==> Hole(Keys(), n, start, lo))
      modifies this`items, Members()`index
      ensures Indexed()
      ensures |items| == |old(items)| && items[n..] == old(items)[n..]
      ensures Members() == old(Members())
      ensures sure && (moved || start == 0 || Parent(start) < lo) ==> OrderedFrom(Keys(), n, lo)
      ensures sure && !moved && lo == 0 ==> UpHole(Keys(), n, start)
    {
      hide UpHole, Hole, Lt, OrderedFrom, KeyOf, KeysOf, Before, LeastChild, Swapped, Ok, SettledAt;
      var i: nat := start;
      while 2 * i + 1 < n
        invariant Indexed() && start <= i < n <= |items| == |old(items)| && items[n..] == old(items)[n..]
        invariant sure ==> Hole(Keys(), n, i, lo) && (i != start ==> Ok(Keys(), i))
        invariant Members() == old(Members())
        decreases n - i
      {
        var j := DownTurn(i, n, lo, sure);
        if j == i {
          break;
        }
        i := j;
      }
      if 2 * i + 1 >= n { NoChildren(Keys(), n, i); }
      if sure { DownDone(Keys(), n, i, start, lo); }
      moved := i > start;
    }

    method Init()
      requires Indexed()
      modifies this`items, Members()`index
      ensures Indexed() && Ordered(Keys())
      ensures |items| == |old(items)| && Members() == old(Members())
    {
      var n := |items|;
      var i: nat := n / 2;
      while i > 0
        invariant Indexed() && i <= n == |items| && OrderedFrom(Keys(), n, i)
        invariant Members() == old(Members())
      {
        i := i - 1;
        var _ := Down(i, n, i, true);
      }
    }

    method Push(m: Message)
      requires Valid() && m !in items
      modifies this`items, Members()`index, m`index
      ensures Valid()
      ensures Members() == old(Members()) + {m}
      ensures |items| == |old(items)| + 1
    {
      hide UpHole, Lt, OrderedFrom, KeyOf;
      if inOrder { AppendedLeavesUpHole(Keys(), KeyOf(order, m)); }
      ghost var was := Keys();
      PushLast(m);
      assert Keys() == was + [KeyOf(order, m)];
      assert Members() == old(Members()) + {m};
      Up(|items| - 1, |items|, inOrder);
    }

    // Takes the head, which nothing in the heap is before, if it is in order.
    method Pop() returns (m: Message)
      requires Valid() && |items| > 0
      modifies this`items, Members()`index
      ensures Valid()
      ensures m == old(items[0]) && m.index == -1
      ensures m in old(Members()) && Members() == old(Members()) - {m}
      ensures |items| == |old(items)| - 1
    {
      hide UpHole, Hole, Lt, OrderedFrom, KeyOf, KeysOf;
      var n := |items| - 1;
      m := items[0];
      ghost var k := Keys();
      Swap(0, n);
      if n > 0 {
        if inOrder { RemovedLeavesHole(k, 0); }
        var _ := Down(0, n, 0, inOrder);
      } else {
        SmallHeap(Keys());
      }
      assert items[n..][0] == items[n] == m;
      if inOrder { OrderedPrefix(Keys(), n); }
      var last := PopLast();
    }

    // Takes a message from anywhere in the heap.
    method Remove(i: nat) returns (m: Message)
      requires Valid() && i < |items|
      modifies this`items, Members()`index
      ensures Valid()
      ensures m == old(items[i]) && m.index == -1
      ensures m in old(Members()) && Members() == old(Members()) - {m}
      ensures |items| == |old(items)| - 1
    {
      hide UpHole, Hole, Lt, OrderedFrom, KeyOf, KeysOf;
      var n := |items| - 1;
      m := items[i];
      ghost var k := Keys();
      if n != i {
        Swap(i, n);
        if inOrder { RemovedLeavesHole(k, i); }
        var moved := Down(i, n, 0, inOrder);
        if !moved {
          Up(i, n, inOrder);
        }
      } else if inOrder {
        WithoutLast(k);
      }
      assert items[n..][0] == items[n] == m;
      if inOrder { OrderedPrefix(Keys(), n); }
      var last := PopLast();
    }
  }

  // The head is what the timer and the consumers look at: nothing in the heap is before it.
  lemma HeadIsLeast(h: Heap, m: Message)
    requires h.Valid() && h.inOrder && m in h.items
    ensures |h.items| > 0 && !Before(h.order, m, h.items[0])
  {
    var i :| 0 <= i < |h.items| && h.items[i] == m;
    hide Ordered, KeyOf, Before;
    RootIsFirst(h.Keys(), i);
    BeforeIsKeyOrder(h.order, m, h.items[0]);
  }

  lemma SwappedMembers(s: seq<Message>, i: nat, j: nat)
    requires i < |s| && j < |s|
    ensures (set m | m in Swapped(s, i, j)) == (set m | m in s)
  {
    var t := Swapped(s, i, j);
    assert s == Swapped(t, i, j);
    forall k | 0 <= k < |s| ensures t[k] in s && s[k] in t {
      assert t[k] == s[if k == i then j else if k == j then i else k];
      assert s[k] == t[if k == i then j else if k == j then i else k];
    }
  }

  lemma SmallHeap(k: seq<Key>)
    ensures OrderedFrom(k, 0, 0)
  {
  }

  lemma WithoutLast(k: seq<Key>)
    requires |k| > 0 && Ordered(k)
    ensures OrderedFrom(k, |k| - 1, 0)
  {
  }

  lemma LeastOfTwo(k: seq<Key>, n: nat, i: nat, j: nat)
    requires i < n <= |k| && 2 * i + 1 < n && (j == 2 * i + 1 || j == 2 * i + 2) && j < n
    requires 2 * i + 2 < n ==> (j == 2 * i + 2 <==> Lt(k[2 * i + 2], k[2 * i + 1]))
    ensures LeastChild(k, n, i, j)
  {
  }

  lemma LeastSettles(k: seq<Key>, n: nat, i: nat, j: nat)
    requires i < n <= |k| && LeastChild(k, n, i, j) && !Lt(k[j], k[i])
    ensures SettledAt(k, n, i)
  {
  }

  lemma NoChildren(k: seq<Key>, n: nat, i: nat)
    requires i < n <= |k| && 2 * i + 1 >= n
    ensures SettledAt(k, n, i)
  {
  }

  lemma SwappedSuffix(s: seq<Message>, i: nat, j: nat, n: nat)
    requires i < n <= |s| && j < n
    ensures Swapped(s, i, j)[n..] == s[n..]
  {
  }
}
