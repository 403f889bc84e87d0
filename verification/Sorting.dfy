// sort.Slice, for elements no two of which compare equal.
module Sorting {
  // less is a strict total order on the elements of xs.
  ghost predicate Orders<T(!new)>(less: (T, T) -> bool, xs: set<T>) {
    && (forall a :: a in xs ==> !less(a, a))
    && (forall a, b :: a in xs && b in xs && a != b ==> less(a, b) || less(b, a))
    && (forall a, b, c :: a in xs && b in xs && c in xs && less(a, b) && less(b, c) ==> less(a, c))
  }

  ghost predicate Ascending<T(!new)>(less: (T, T) -> bool, ys: seq<T>) {
    forall i, j :: 0 <= i < j < |ys| ==> less(ys[i], ys[j])
  }

  // Insertion keeps a list ascending.
  method Insert<T(!new)>(ys: seq<T>, x: T, less: (T, T) -> bool, ghost all: set<T>) returns (zs: seq<T>)
    requires Orders(less, all) && x in all && x !in ys && (forall y :: y in ys ==> y in all) && Ascending(less, ys)
    ensures Ascending(less, zs) && forall y :: y in zs <==> y in ys || y == x
  {
    var k := 0;
    while k < |ys| && less(ys[k], x)
      invariant 0 <= k <= |ys|
      invariant forall i :: 0 <= i < k ==> less(ys[i], x)
    {
      k := k + 1;
    }
    zs := ys[..k] + [x] + ys[k..];
    forall i | k <= i < |ys| ensures less(x, ys[i]) {
      assert ys[k] in ys && ys[i] in ys;
      assert ys[k] != x;
    }
    forall y ensures y in zs <==> y in ys || y == x {
      assert ys == ys[..k] + ys[k..];
    }
  }

  method SortSlice<T(==,!new)>(xs: seq<T>, less: (T, T) -> bool) returns (ys: seq<T>)
    requires Orders(less, set x | x in xs) && forall i, j :: 0 <= i < j < |xs| ==> xs[i] != xs[j]
    ensures Ascending(less, ys) && forall x :: x in ys <==> x in xs
  {
    ghost var all := set x | x in xs;
    ys := [];
    for i := 0 to |xs|
      invariant Ascending(less, ys) && forall x :: x in ys <==> x in xs[..i]
    {
      assert xs[..i + 1] == xs[..i] + [xs[i]];
      ys := Insert(ys, xs[i], less, all);
    }
    assert xs[..|xs|] == xs;
  }
}
