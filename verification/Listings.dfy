// The lists that Peek and Compact sort, and what sorting them gives.
module Listings {
  import opened Bytes
  import opened Messages
  import opened QueueState
  import opened Sorting
  import opened Snapshots

  // A ready message as Peek sorts it.
  datatype Ranked = Ranked(id: bytes, rank: Rank)

  function ByRank(cfg: Config): (Ranked, Ranked) -> bool {
    (a: Ranked, b: Ranked) => Less(cfg, a.rank, b.rank)
  }

  function RankedIds(xs: seq<Ranked>): (ids: seq<bytes>)
    ensures |ids| == |xs| && forall i :: 0 <= i < |xs| ==> ids[i] == xs[i].id
  {
    seq(|xs|, i requires 0 <= i < |xs| => xs[i].id)
  }

  // xs lists every ready message once.
  ghost predicate RankedAll(s: State, xs: seq<Ranked>) {
    && (forall x :: x in xs ==> x.id in ReadyIds(s) && x.rank == RankOf(s, x.id))
    && (forall id :: id in ReadyIds(s) ==> exists x :: x in xs && x.id == id)
    && (forall i, j :: 0 <= i < j < |xs| ==> xs[i].id != xs[j].id)
  }

  lemma RankedOrdered(s: State, xs: seq<Ranked>)
    requires RankedAll(s, xs) && DistinctSeqs(s)
    ensures Orders(ByRank(s.cfg), set x | x in xs)
    ensures forall i, j :: 0 <= i < j < |xs| ==> xs[i] != xs[j]
  {
    hide Less;
    var all := set x | x in xs;
    forall a, b, c | a in all && b in all && c in all
      ensures !Less(s.cfg, a.rank, a.rank)
      ensures Less(s.cfg, a.rank, b.rank) && Less(s.cfg, b.rank, c.rank) ==> Less(s.cfg, a.rank, c.rank)
      ensures a != b ==> Less(s.cfg, a.rank, b.rank) || Less(s.cfg, b.rank, a.rank)
    {
      LessIsStrictTotal(s.cfg, a.rank, b.rank, c.rank);
    }
  }

  lemma RankedSorted(s: State, xs: seq<Ranked>, ys: seq<Ranked>)
    requires RankedAll(s, xs) && DistinctSeqs(s) && Ascending(ByRank(s.cfg), ys) && forall x :: x in ys <==> x in xs
    ensures RankedIds(ys) == SortedReady(s)
  {
    hide Less, DistinctSeqs;
    var q := RankedIds(ys);
    assert SomeReady(s, ReadyIds(s));
    forall id ensures id in q <==> id in ReadyIds(s) {
      if id in ReadyIds(s) {
        var x :| x in xs && x.id == id;
        assert x in ys;
        var i :| 0 <= i < |ys| && ys[i] == x;
        assert q[i] == id;
      }
      if id in q {
        var i :| 0 <= i < |q| && q[i] == id;
        assert ys[i] in ys;
      }
    }
    forall i, j | 0 <= i < j < |q|
      ensures q[i] in ReadyIds(s) && q[j] in ReadyIds(s) && q[i] != q[j] && IdBefore(s, q[i], q[j])
    {
      assert ys[i] in ys && ys[j] in ys;
      assert ByRank(s.cfg)(ys[i], ys[j]);
      LessIsStrictTotal(s.cfg, ys[i].rank, ys[j].rank, ys[j].rank);
    }
    SortIsUnique(s, ReadyIds(s), q);
  }

  // A message as a snapshot saves it.
  datatype Saved = Saved(m: Msg, dead: bool)

  function BySeq(): (Saved, Saved) -> bool {
    (a: Saved, b: Saved) => a.m.seqNo < b.m.seqNo
  }

  function ByDedupID(): (DedupEntry, DedupEntry) -> bool {
    (a: DedupEntry, b: DedupEntry) => BytesLess(a.dedupID, b.dedupID)
  }

  ghost predicate SavedIn(s: State, x: Saved) {
    x.m.id in s.live && x == Saved(s.live[x.m.id].m, s.live[x.m.id].status.Dead?)
  }

  // Every live message, once.
  ghost predicate SavedAll(s: State, xs: seq<Saved>) {
    && (forall x :: x in xs ==> SavedIn(s, x))
    && (forall id :: id in s.live ==> exists x :: x in xs && x.m.id == id)
    && (forall i, j :: 0 <= i < j < |xs| ==> xs[i].m.id != xs[j].m.id)
  }

  ghost predicate OrphansAll(s: State, es: seq<DedupEntry>, now: int) {
    && (forall e :: e in es <==> Orphan(s, e.dedupID, now) && e == s.dedup[e.dedupID])
    && (forall i, j :: 0 <= i < j < |es| ==> es[i] != es[j])
  }

  lemma SavedOrdered(s: State, xs: seq<Saved>)
    requires SavedAll(s, xs) && DistinctSeqs(s)
    ensures Orders(BySeq(), set x | x in xs) && forall i, j :: 0 <= i < j < |xs| ==> xs[i] != xs[j]
  {
    var all := set x | x in xs;
    forall a, b | a in all && b in all && a != b ensures a.m.seqNo != b.m.seqNo {
      assert SavedIn(s, a) && SavedIn(s, b);
    }
  }

  lemma {:induction false} BytesTotal(a: bytes, b: bytes)
    ensures a == b || BytesLess(a, b) || BytesLess(b, a)
    decreases |a|
  {
    if a != [] && b != [] && a[0] == b[0] {
      BytesTotal(a[1..], b[1..]);
      assert a == [a[0]] + a[1..] && b == [b[0]] + b[1..];
    }
  }

  lemma {:induction false} BytesTransitive(a: bytes, b: bytes, c: bytes)
    requires BytesLess(a, b) && BytesLess(b, c)
    ensures BytesLess(a, c)
    decreases |a|
  {
    if a != [] && a[0] == b[0] == c[0] { BytesTransitive(a[1..], b[1..], c[1..]); }
  }

  lemma {:induction false} BytesIrreflexive(a: bytes)
    ensures !BytesLess(a, a)
    decreases |a|
  {
    if a != [] { BytesIrreflexive(a[1..]); }
  }

  lemma OrphansOrdered(s: State, es: seq<DedupEntry>, now: int)
    requires OrphansAll(s, es, now)
    ensures Orders(ByDedupID(), set e | e in es) && forall i, j :: 0 <= i < j < |es| ==> es[i] != es[j]
  {
    hide BytesLess;
    var all := set e | e in es;
    forall a, b, c | a in all && b in all && c in all
      ensures !BytesLess(a.dedupID, a.dedupID)
      ensures a != b ==> BytesLess(a.dedupID, b.dedupID) || BytesLess(b.dedupID, a.dedupID)
      ensures BytesLess(a.dedupID, b.dedupID) && BytesLess(b.dedupID, c.dedupID) ==> BytesLess(a.dedupID, c.dedupID)
    {
      BytesIrreflexive(a.dedupID);
      BytesTotal(a.dedupID, b.dedupID);
      if BytesLess(a.dedupID, b.dedupID) && BytesLess(b.dedupID, c.dedupID) {
        BytesTransitive(a.dedupID, b.dedupID, c.dedupID);
      }
    }
  }

  function SavedRecs(xs: seq<Saved>): seq<LogRec> {
    seq(|xs|, i requires 0 <= i < |xs| => EnqueueRec(xs[i].m, xs[i].dead))
  }

  function EntryRecs(es: seq<DedupEntry>): seq<LogRec> {
    seq(|es|, i requires 0 <= i < |es| => DedupRec(es[i]))
  }

  function SavedIds(xs: seq<Saved>): (ids: seq<bytes>)
    ensures |ids| == |xs| && forall i :: 0 <= i < |xs| ==> ids[i] == xs[i].m.id
  {
    seq(|xs|, i requires 0 <= i < |xs| => xs[i].m.id)
  }

  function EntryIds(es: seq<DedupEntry>): (ds: seq<bytes>)
    ensures |ds| == |es| && forall i :: 0 <= i < |es| ==> ds[i] == es[i].dedupID
  {
    seq(|es|, i requires 0 <= i < |es| => es[i].dedupID)
  }

  lemma SavedInOrder(s: State, live: seq<Saved>, xs: seq<Saved>)
    requires SavedAll(s, live) && (forall x :: x in xs <==> x in live) && Ascending(BySeq(), xs)
    ensures var ids := SavedIds(xs);
            && LiveInOrder(s, ids) && SavedRecs(xs) == MsgRecs(s, ids)
  {
    var ids := SavedIds(xs);
    forall i | 0 <= i < |xs| ensures SavedIn(s, xs[i]) && ids[i] in s.live { assert xs[i] in xs; }
    forall id ensures id in ids <==> id in s.live {
      if id in s.live {
        var x :| x in live && x.m.id == id;
        assert x in xs;
        var i :| 0 <= i < |xs| && xs[i] == x;
        assert ids[i] == id;
      }
      if id in ids {
        var i :| 0 <= i < |ids| && ids[i] == id;
      }
    }
    forall i, j | 0 <= i < j < |ids| ensures s.live[ids[i]].m.seqNo < s.live[ids[j]].m.seqNo {
      assert BySeq()(xs[i], xs[j]);
    }
  }

  lemma EntriesInOrder(s: State, es: seq<DedupEntry>, ys: seq<DedupEntry>, now: int)
    requires OrphansAll(s, es, now) && (forall e :: e in ys <==> e in es) && Ascending(ByDedupID(), ys)
    requires forall d :: d in s.dedup ==> s.dedup[d].dedupID == d
    ensures var ds := EntryIds(ys);
            && OrphansInOrder(s, now, ds) && EntryRecs(ys) == DedupRecs(s, ds)
  {
    hide BytesLess;
    var ds := EntryIds(ys);
    forall i | 0 <= i < |ys| ensures Orphan(s, ds[i], now) && ys[i] == s.dedup[ds[i]] { assert ys[i] in ys; }
    forall d ensures d in ds <==> Orphan(s, d, now) {
      if Orphan(s, d, now) {
        assert s.dedup[d] in es;
        var i :| 0 <= i < |ys| && ys[i] == s.dedup[d];
        assert ds[i] == d;
      }
      if d in ds {
        var i :| 0 <= i < |ds| && ds[i] == d;
      }
    }
    forall i, j | 0 <= i < j < |ds| ensures BytesLess(ds[i], ds[j]) {
      assert ByDedupID()(ys[i], ys[j]);
    }
  }

  lemma SnapshotMade(s: State, ids: seq<bytes>, ds: seq<bytes>, now: int)
    requires LiveInOrder(s, ids) && OrphansInOrder(s, now, ds)
    ensures IsSnapshot([MetaRec(s.cfg.(nextSeq := s.nextSeq))] + MsgRecs(s, ids) + DedupRecs(s, ds), s, now)
  {
  }
}
