// Facts about sequences that several proofs share.
module Seqs {
  lemma Cut<T>(b: seq<T>, start: nat, n: nat)
    requires start + n <= |b|
    ensures b[start..][n..] == b[start + n..]
    ensures b[..start + n] == b[..start] + b[start..][..n]
  {
  }

  lemma Associative<T>(a: seq<T>, b: seq<T>, c: seq<T>)
    ensures a + (b + c) == (a + b) + c
  {
  }

  lemma DropPrefix<T>(a: seq<T>, b: seq<T>)
    ensures (a + b)[|a|..] == b && (a + b)[..|a|] == a
  {
  }

  lemma TakeIntoSecond<T>(a: seq<T>, b: seq<T>, n: nat)
    requires n <= |b|
    ensures (a + b)[..|a| + n] == a + b[..n]
  {
  }

  lemma TakeInFirst<T>(a: seq<T>, b: seq<T>, n: nat)
    requires n <= |a|
    ensures (a + b)[..n] == a[..n]
  {
  }

  lemma SliceInFirst<T>(a: seq<T>, b: seq<T>, i: nat, j: nat)
    requires i <= j <= |a|
    ensures (a + b)[i..j] == a[i..j]
  {
  }

  lemma SliceOfPrefix<T>(a: seq<T>, b: seq<T>, i: nat, j: nat)
    requires i <= j <= |b| <= |a| && a[..|b|] == b
    ensures a[i..j] == b[i..j]
  {
    SliceInFirst(b, a[|b|..], i, j);
    assert a == b + a[|b|..];
  }

  lemma SliceToEnd<T>(a: seq<T>, i: nat)
    requires i <= |a|
    ensures a[i..|a|] == a[i..]
  {
  }

  lemma SliceSnoc<T>(a: seq<T>, i: nat, j: nat)
    requires i <= j < |a|
    ensures a[i..j + 1] == a[i..j] + [a[j]]
  {
  }

  lemma UpdateInSecond<T>(a: seq<T>, b: seq<T>, i: nat, x: T)
    requires i < |b|
    ensures (a + b)[|a| + i := x] == a + b[i := x]
  {
  }

  lemma UpdateInFirst<T>(a: seq<T>, b: seq<T>, i: nat, x: T)
    requires i < |a|
    ensures (a + b)[i := x] == a[i := x] + b
  {
  }

  lemma SliceOfUpdate<T>(b: seq<T>, lo: nat, hi: nat, q: nat, x: T)
    requires lo <= hi <= |b| && q < |b|
    ensures b[q := x][lo..hi] == if lo <= q < hi then b[lo..hi][q - lo := x] else b[lo..hi]
  {
  }

  // A list without repeats is as long as the set of its elements.
  lemma {:induction false} DistinctSize<T>(s: seq<T>)
    requires forall i, j :: 0 <= i < j < |s| ==> s[i] != s[j]
    ensures |set x | x in s| == |s|
    decreases |s|
  {
    if s != [] {
      var n := |s| - 1;
      DistinctSize(s[..n]);
      assert s == s[..n] + [s[n]];
      assert (set x | x in s) == (set x | x in s[..n]) + {s[n]};
    }
  }
}
