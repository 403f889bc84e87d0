// What becomes of a heap of ready messages when its comparator changes under it: apply takes over the configuration of
// any META record, and does not rebuild the heap.
module Reordering {
  import opened Messages
  import opened HeapOrder

  // The comparator as one lexicographic order on two numbers.
  function RankKey(cfg: Config, r: Rank): Key {
    Key(if cfg.priorityEnabled then -r.eff else 0, if cfg.ordering == LIFO then -(r.seqNo as int) else r.seqNo)
  }

  function RankKeys(cfg: Config, rs: seq<Rank>): (k: seq<Key>)
    ensures |k| == |rs| && forall i :: 0 <= i < |rs| ==> k[i] == RankKey(cfg, rs[i])
  {
    seq(|rs|, i requires 0 <= i < |rs| => RankKey(cfg, rs[i]))
  }

  // Laid out as a heap, the ranks are in order.
  predicate InOrder(cfg: Config, rs: seq<Rank>) {
    Ordered(RankKeys(cfg, rs))
  }

  predicate DistinctRanks(rs: seq<Rank>) {
    forall i, j :: 0 <= i < j < |rs| ==> rs[i].seqNo != rs[j].seqNo
  }

  predicate SameComparator(a: Config, b: Config) {
    a.priorityEnabled == b.priorityEnabled && (a.ordering == LIFO <==> b.ordering == LIFO)
  }

  lemma SameComparatorSameKeys(a: Config, b: Config, rs: seq<Rank>)
    requires SameComparator(a, b)
    ensures RankKeys(a, rs) == RankKeys(b, rs)
  {
  }

  // What a heap of at most one message, or a comparator that stays the same, cannot lose.
  lemma StaysInOrder(a: Config, b: Config, rs: seq<Rank>)
    requires InOrder(a, rs) && (|rs| <= 1 || SameComparator(a, b))
    ensures InOrder(b, rs)
  {
    if SameComparator(a, b) { SameComparatorSameKeys(a, b, rs); }
  }

  // Two messages that one comparator puts in one order and the other in the other.
  function Quarrel(a: Config, b: Config): (rs: seq<Rank>)
    ensures |rs| == 2 && rs[0].seqNo != rs[1].seqNo
  {
    var lifo := a.ordering == LIFO;
    if lifo != (b.ordering == LIFO) then (if lifo then [Rank(0, 2), Rank(0, 1)] else [Rank(0, 1), Rank(0, 2)])
    else if a.priorityEnabled then (if lifo then [Rank(1, 1), Rank(0, 2)] else [Rank(1, 2), Rank(0, 1)])
    else (if lifo then [Rank(0, 2), Rank(1, 1)] else [Rank(0, 1), Rank(1, 2)])
  }

  lemma QuarrelIsLost(a: Config, b: Config)
    requires !SameComparator(a, b)
    ensures DistinctRanks(Quarrel(a, b)) && InOrder(a, Quarrel(a, b)) && !InOrder(b, Quarrel(a, b))
  {
    var k, k' := RankKeys(a, Quarrel(a, b)), RankKeys(b, Quarrel(a, b));
    assert !Ok(k', 1);
  }

  // Which changes of settings are safe: every heap that was in order stays so exactly when the comparator is the same.
  lemma SafeIffSameComparator(a: Config, b: Config)
    ensures SameComparator(a, b)
            <==> forall rs :: DistinctRanks(rs) && InOrder(a, rs) ==> InOrder(b, rs)
  {
    if SameComparator(a, b) {
      forall rs | InOrder(a, rs) ensures InOrder(b, rs) {
        StaysInOrder(a, b, rs);
      }
    } else {
      QuarrelIsLost(a, b);
    }
  }

  // The exact condition for a given heap when priorities are off before and after: a change of ordering always hurts,
  // as soon as there are two messages.
  lemma OrderingChangeHurts(a: Config, b: Config, rs: seq<Rank>)
    requires !a.priorityEnabled && !b.priorityEnabled && DistinctRanks(rs) && InOrder(a, rs)
    ensures InOrder(b, rs) <==> |rs| <= 1 || SameComparator(a, b)
  {
    if |rs| <= 1 || SameComparator(a, b) {
      StaysInOrder(a, b, rs);
    } else {
      assert Ok(RankKeys(a, rs), 1);
      assert !Ok(RankKeys(b, rs), 1);
    }
  }

  // No child's stored priority ties its parent's.
  predicate NoTies(rs: seq<Rank>) {
    forall c :: 0 < c < |rs| ==> rs[c].eff != rs[Parent(c)].eff
  }

  // And when they are on before and after: a change of ordering hurts exactly where a child ties its parent.
  lemma OrderingChangeHurtsTies(a: Config, b: Config, rs: seq<Rank>)
    requires a.priorityEnabled && b.priorityEnabled && DistinctRanks(rs) && InOrder(a, rs)
    ensures InOrder(b, rs) <==> SameComparator(a, b) || NoTies(rs)
  {
    if SameComparator(a, b) {
      StaysInOrder(a, b, rs);
    } else {
      forall c | 0 < c < |rs| ensures Ok(RankKeys(b, rs), c) <==> rs[c].eff != rs[Parent(c)].eff {
        assert Ok(RankKeys(a, rs), c);
      }
    }
  }

  // When a META record switches priorities on or off, the heap is in order exactly if it was in the new order already:
  // each child is no higher in priority than its parent, or no earlier in line.
  predicate ChildrenFollow(cfg: Config, rs: seq<Rank>) {
    forall c :: 0 < c < |rs| ==> !Less(cfg, rs[c], rs[Parent(c)])
  }

  lemma InOrderMeansChildrenFollow(cfg: Config, rs: seq<Rank>)
    ensures InOrder(cfg, rs) <==> ChildrenFollow(cfg, rs)
  {
    forall c | 0 < c < |rs| ensures Ok(RankKeys(cfg, rs), c) <==> !Less(cfg, rs[c], rs[Parent(c)]) {
    }
  }
}
