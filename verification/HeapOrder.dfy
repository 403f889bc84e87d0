// The order a binary heap keeps, on plain sequences of keys: what one step of sifting up or down preserves.
module HeapOrder {
  datatype Key = Key(major: int, minor: int)

  predicate Lt(a: Key, b: Key) {
    a.major < b.major || (a.major == b.major && a.minor < b.minor)
  }

  function Parent(j: nat): nat
    requires j > 0
  {
    (j - 1) / 2
  }

  // Child c of k is not before its parent.
  predicate Ok(k: seq<Key>, c: nat)
    requires 0 < c < |k|
  {
    !Lt(k[c], k[Parent(c)])
  }

  // The first n keys form a heap, as far as parents from lo on are concerned.
  predicate OrderedFrom(k: seq<Key>, n: nat, lo: nat)
    requires n <= |k|
  {
    forall c :: 0 < c < n && Parent(c) >= lo ==> Ok(k, c)
  }

  predicate Ordered(k: seq<Key>) {
    OrderedFrom(k, |k|, 0)
  }

  // Children of i are not before the parent of i.
  predicate GrandOk(k: seq<Key>, n: nat, i: nat, lo: nat)
    requires i < n <= |k|
  {
    i > 0 && Parent(i) >= lo ==> forall c :: 0 < c < n && Parent(c) == i ==> !Lt(k[c], k[Parent(i)])
  }

  // A heap but for the key at i, which may be on the wrong side of its parent or of its children.
  predicate Hole(k: seq<Key>, n: nat, i: nat, lo: nat)
    requires i < n <= |k|
  {
    && (forall c :: 0 < c < n && Parent(c) >= lo && c != i && Parent(c) != i ==> Ok(k, c))
    && GrandOk(k, n, i, lo)
  }

  // A heap but for the key at i, which may be before its parent.
  predicate UpHole(k: seq<Key>, n: nat, i: nat)
    requires i < n <= |k|
  {
    && (forall c :: 0 < c < n && c != i ==> Ok(k, c))
    && GrandOk(k, n, i, 0)
  }

  function Swapped<T>(k: seq<T>, i: nat, j: nat): (s: seq<T>)
    requires i < |k| && j < |k|
    ensures |s| == |k| && s[i] == k[j] && s[j] == k[i]
    ensures forall x :: 0 <= x < |k| && x != i && x != j ==> s[x] == k[x]
  {
    k[i := k[j]][j := k[i]]
  }

  lemma UpStep(k: seq<Key>, n: nat, j: nat)
    requires 0 < j < n <= |k| && UpHole(k, n, j) && !Ok(k, j)
    ensures UpHole(Swapped(k, Parent(j), j), n, Parent(j))
  {
    var i := Parent(j);
    var s := Swapped(k, i, j);
    forall c | 0 < c < n && c != i ensures Ok(s, c) {
      if c == j {
      } else if Parent(c) == j {
        assert !Lt(k[c], k[i]);
      } else if Parent(c) == i {
        assert Ok(k, c);
      } else {
        assert Ok(k, c);
      }
    }
    if i > 0 {
      assert Ok(k, i);
      forall c | 0 < c < n && Parent(c) == i ensures !Lt(s[c], s[Parent(i)]) {
        if c != j { assert Ok(k, c); }
      }
    }
  }

  lemma UpDone(k: seq<Key>, n: nat, j: nat)
    requires j < n <= |k| && UpHole(k, n, j) && (j > 0 ==> Ok(k, j))
    ensures OrderedFrom(k, n, 0)
  {
  }

  // j is the child of i that the others are not before.
  predicate LeastChild(k: seq<Key>, n: nat, i: nat, j: nat)
    requires n <= |k|
  {
    0 < j < n && Parent(j) == i && forall c :: 0 < c < n && Parent(c) == i ==> !Lt(k[c], k[j])
  }

  lemma DownStep(k: seq<Key>, n: nat, i: nat, j: nat, lo: nat)
    requires i < n <= |k| && lo <= i && Hole(k, n, i, lo) && LeastChild(k, n, i, j) && !Ok(k, j)
    ensures var s := Swapped(k, i, j); Hole(s, n, j, lo) && Ok(s, j)
  {
    var s := Swapped(k, i, j);
    forall c | 0 < c < n && Parent(c) >= lo && c != j && Parent(c) != j ensures Ok(s, c) {
      if c == i {
        assert !Lt(k[j], k[Parent(i)]);
      } else if Parent(c) == i {
        assert !Lt(k[c], k[j]);
      } else {
        assert Ok(k, c);
      }
    }
    forall c | 0 < c < n && Parent(c) == j ensures !Lt(s[c], s[Parent(j)]) {
      assert Ok(k, c);
    }
  }

  // No child of i is before it.
  predicate SettledAt(k: seq<Key>, n: nat, i: nat)
    requires n <= |k|
  {
    forall c :: 0 < c < n && Parent(c) == i ==> Ok(k, c)
  }

  // Where sifting down stops: nothing below i is out of place.
  lemma DownDone(k: seq<Key>, n: nat, i: nat, start: nat, lo: nat)
    requires i < n <= |k| && start < n && lo <= start && lo <= i && Hole(k, n, i, lo)
    requires SettledAt(k, n, i)
    requires i != start ==> i > 0 && Ok(k, i)
    ensures i != start || start == 0 || Parent(start) < lo ==> OrderedFrom(k, n, lo)
    ensures i == start && lo == 0 ==> UpHole(k, n, start)
  {
  }

  // The root is not after anything: what the head of each heap being next rests on.
  lemma {:induction false} RootIsFirst(k: seq<Key>, j: nat)
    requires Ordered(k) && j < |k|
    ensures !Lt(k[j], k[0])
    decreases j
  {
    if j > 0 {
      RootIsFirst(k, Parent(j));
      assert Ok(k, j);
    }
  }

  // Replacing the key at i of a heap, the last key gone, leaves at most a hole at i.
  lemma RemovedLeavesHole(k: seq<Key>, i: nat)
    requires Ordered(k) && i < |k| - 1
    ensures Hole(Swapped(k, i, |k| - 1), |k| - 1, i, 0)
  {
    var n := |k| - 1;
    var s := Swapped(k, i, n);
    forall c | 0 < c < n && c != i && Parent(c) != i ensures Ok(s, c) {
      assert Ok(k, c);
    }
    if i > 0 {
      forall c | 0 < c < n && Parent(c) == i ensures !Lt(s[c], s[Parent(i)]) {
        assert Ok(k, c) && Ok(k, i);
      }
    }
  }

  lemma AppendedLeavesUpHole(k: seq<Key>, x: Key)
    requires Ordered(k)
    ensures UpHole(k + [x], |k| + 1, |k|)
  {
    var s := k + [x];
    forall c | 0 < c < |s| && c != |k| ensures Ok(s, c) {
      assert Ok(k, c);
    }
  }

  lemma OrderedPrefix(k: seq<Key>, n: nat)
    requires n <= |k| && OrderedFrom(k, n, 0)
    ensures Ordered(k[..n])
  {
    forall c | 0 < c < n ensures Ok(k[..n], c) {
      assert Ok(k, c);
    }
  }
}
