// Compact's snapshot: what it writes, and that replaying it means the same as replaying the log it replaces.
module Snapshots {
  import opened Bytes
  import opened Messages
  import opened Codec
  import opened QueueState
  import opened Images
  import opened Invariants
  import opened Journal

  function MsgRecs(s: State, ids: seq<bytes>): (r: seq<LogRec>)
    requires forall id :: id in ids ==> id in s.live
    ensures |r| == |ids|
  {
    seq(|ids|, i requires 0 <= i < |ids| => EnqueueRec(s.live[ids[i]].m, s.live[ids[i]].status.Dead?))
  }

  function DedupRecs(s: State, ds: seq<bytes>): (r: seq<LogRec>)
    requires forall d :: d in ds ==> d in s.dedup
    ensures |r| == |ds|
  {
    seq(|ds|, i requires 0 <= i < |ds| => DedupRec(s.dedup[ds[i]]))
  }

  // An open entry whose message is gone: it has no ENQUEUE record to be rebuilt from.
  predicate Orphan(s: State, d: bytes, now: int) {
    d in s.dedup && now < s.dedup[d].expiresAt && s.dedup[d].messageID !in s.live
  }

  // String order, as Go compares strings: byte by byte.
  predicate BytesLess(a: bytes, b: bytes) {
    if b == [] then false
    else if a == [] then true
    else a[0] < b[0] || (a[0] == b[0] && BytesLess(a[1..], b[1..]))
  }

  // All live messages, by sequence number.
  ghost predicate LiveInOrder(s: State, ids: seq<bytes>) {
    && (forall id :: id in ids <==> id in s.live)
    && (forall i, j :: 0 <= i < j < |ids| ==> s.live[ids[i]].m.seqNo < s.live[ids[j]].m.seqNo)
  }

  // All orphans, by DedupID.
  ghost predicate OrphansInOrder(s: State, now: int, ds: seq<bytes>) {
    && (forall d :: d in ds <==> Orphan(s, d, now))
    && (forall i, j :: 0 <= i < j < |ds| ==> BytesLess(ds[i], ds[j]))
  }

  function SnapshotMeta(s: State): LogRec {
    MetaRec(s.cfg.(nextSeq := s.nextSeq))
  }

  function SnapshotRecs(s: State, ids: seq<bytes>, ds: seq<bytes>): seq<LogRec>
    requires forall id :: id in ids ==> id in s.live
    requires forall d :: d in ds ==> d in s.dedup
  {
    [SnapshotMeta(s)] + MsgRecs(s, ids) + DedupRecs(s, ds)
  }

  ghost predicate IsSnapshot(recs: seq<LogRec>, s: State, now: int) {
    exists ids, ds :: LiveInOrder(s, ids) && OrphansInOrder(s, now, ds) && recs == SnapshotRecs(s, ids, ds)
  }

  lemma {:induction false} BytesLessAsymmetric(a: bytes, b: bytes)
    requires BytesLess(a, b)
    ensures !BytesLess(b, a)
    decreases |a|
  {
    if a != [] && a[0] == b[0] { BytesLessAsymmetric(a[1..], b[1..]); }
  }

  ghost predicate Increasing(less: (bytes, bytes) -> bool, a: seq<bytes>) {
    forall i, j :: 0 <= i < j < |a| ==> less(a[i], a[j])
  }

  // Lists in increasing order with the same elements are equal.
  lemma {:induction false} OrderedListsEqual(less: (bytes, bytes) -> bool, a: seq<bytes>, b: seq<bytes>)
    requires forall x, y :: less(x, y) ==> !less(y, x)
    requires forall x :: x in a <==> x in b
    requires Increasing(less, a) && Increasing(less, b)
    ensures a == b
    decreases |a|
  {
    assert b != [] ==> b[0] in b;
    if a != [] {
      assert a[0] in b && b[0] in a;
      var i :| 0 <= i < |b| && b[i] == a[0];
      var j :| 0 <= j < |a| && a[j] == b[0];
      assert a[0] == b[0];
      TailsSame(less, a, b);
      OrderedListsEqual(less, a[1..], b[1..]);
      assert a == [a[0]] + a[1..] && b == [b[0]] + b[1..];
    }
  }

  lemma TailsSame(less: (bytes, bytes) -> bool, a: seq<bytes>, b: seq<bytes>)
    requires forall x, y :: less(x, y) ==> !less(y, x)
    requires forall x :: x in a <==> x in b
    requires Increasing(less, a) && Increasing(less, b) && a != [] && b != [] && a[0] == b[0]
    ensures forall x :: x in a[1..] <==> x in b[1..]
    ensures Increasing(less, a[1..]) && Increasing(less, b[1..])
  {
    assert !less(a[0], a[0]);
    assert a == [a[0]] + a[1..] && b == [b[0]] + b[1..];
    forall x ensures x in a[1..] <==> x in b[1..] {
      assert x in a <==> x == a[0] || x in a[1..];
      assert x in b <==> x == a[0] || x in b[1..];
      if x in a[1..] {
        var i :| 0 <= i < |a[1..]| && a[1..][i] == x;
        assert less(a[0], a[i + 1]);
      }
      if x in b[1..] {
        var i :| 0 <= i < |b[1..]| && b[1..][i] == x;
        assert less(b[0], b[i + 1]);
      }
    }
  }

  // The same state at the same time always produces the same snapshot.
  lemma SnapshotIsDetermined(s: State, now: int, a: seq<LogRec>, b: seq<LogRec>)
    requires IsSnapshot(a, s, now) && IsSnapshot(b, s, now)
    ensures a == b
  {
    var ids, ds :| LiveInOrder(s, ids) && OrphansInOrder(s, now, ds) && a == SnapshotRecs(s, ids, ds);
    var ids', ds' :| LiveInOrder(s, ids') && OrphansInOrder(s, now, ds') && b == SnapshotRecs(s, ids', ds');
    var bySeq := (x: bytes, y: bytes) => x in s.live && y in s.live && s.live[x].m.seqNo < s.live[y].m.seqNo;
    assert Increasing(bySeq, ids) && Increasing(bySeq, ids') by {
      forall i | 0 <= i < |ids| ensures ids[i] in s.live { assert ids[i] in ids; }
      forall i | 0 <= i < |ids'| ensures ids'[i] in s.live { assert ids'[i] in ids'; }
    }
    OrderedListsEqual(bySeq, ids, ids');
    forall x, y | BytesLess(x, y) ensures !BytesLess(y, x) { BytesLessAsymmetric(x, y); }
    assert Increasing(BytesLess, ds) && Increasing(BytesLess, ds');
    OrderedListsEqual(BytesLess, ds, ds');
  }

  // The entry of a DedupID is the one of its newest message.
  ghost predicate LatestEntries(v: Image) {
    && (forall d :: d in v.dedup ==> LatestEntry(v, d))
    && (forall id :: id in v.msgs && v.msgs[id].m.dedupID != [] ==> v.msgs[id].m.dedupID in v.dedup)
  }

  ghost predicate LatestEntry(v: Image, d: bytes)
    requires d in v.dedup
  {
    var id := v.dedup[d].messageID;
    && id in v.msgs && v.dedup[d] == DedupOf(v.cfg, v.msgs[id].m) && v.msgs[id].m.dedupID == d && d != []
    && forall x :: x in v.msgs && v.msgs[x].m.dedupID == d ==> v.msgs[x].m.seqNo <= v.msgs[id].m.seqNo
  }

  function Listed(s: State, ids: seq<bytes>): map<bytes, Stored>
    requires forall id :: id in ids ==> id in s.live
  {
    map id | id in ids :: StoredOf(s.live[id])
  }

  // Replaying the message part of a snapshot, message by message.
  lemma {:induction false} FoldMessages(s: State, ids: seq<bytes>, now: int)
    requires Good(ImageOf(s), now) && (forall id :: id in ids ==> id in s.live)
    requires forall i, j :: 0 <= i < j < |ids| ==> s.live[ids[i]].m.seqNo < s.live[ids[j]].m.seqNo
    ensures var f := IFold([SnapshotMeta(s)] + MsgRecs(s, ids));
            && f.Some? && f.value.cfg == Settings(s.cfg) && f.value.nextSeq == s.nextSeq
            && f.value.msgs == Listed(s, ids) && LatestEntries(f.value)
    decreases |ids|
  {
    hide Good, Norm, IFold, IApply, Listed, LatestEntries;
    if ids == [] {
      MetaFold(s, now);
      assert [SnapshotMeta(s)] + MsgRecs(s, ids) == [SnapshotMeta(s)];
    } else {
      var n := |ids| - 1;
      var prior := [SnapshotMeta(s)] + MsgRecs(s, ids[..n]);
      var r := EnqueueRec(s.live[ids[n]].m, s.live[ids[n]].status.Dead?);
      assert ids[n] in ids;
      assert [SnapshotMeta(s)] + MsgRecs(s, ids) == prior + [r];
      FoldMessages(s, ids[..n], now);
      FoldSnoc(prior, r);
      assert ids == ids[..n] + [ids[n]];
      assert Newer(s, ids[..n], ids[n]);
      AddNewest(s, ids[..n], ids[n], IFold(prior).value, now);
    }
  }

  lemma MetaFold(s: State, now: int)
    requires Good(ImageOf(s), now)
    ensures IFold([SnapshotMeta(s)]) == Some(Image(Settings(s.cfg), s.nextSeq, map[], map[]))
    ensures Listed(s, []) == map[] && LatestEntries(Image(Settings(s.cfg), s.nextSeq, map[], map[]))
  {
    var c := s.cfg.(nextSeq := s.nextSeq);
    ValidateNormalises(c);
    assert Validated(Settings(s.cfg)) ==> Validated(c);
    hide Validate, Validated;
    assert [SnapshotMeta(s)][..0] == [];
    assert IFold([]) == Some(ImageOf(NEW_QUEUE));
  }

  predicate Newer(s: State, prior: seq<bytes>, id: bytes) {
    && id in s.live
    && forall x :: x in prior ==> x in s.live && s.live[x].m.seqNo < s.live[id].m.seqNo
  }

  lemma AddNewest(s: State, prior: seq<bytes>, id: bytes, v: Image, now: int)
    requires Good(ImageOf(s), now) && Newer(s, prior, id)
    requires v.msgs == Listed(s, prior) && v.cfg == Settings(s.cfg) && LatestEntries(v) && v.nextSeq == s.nextSeq
    ensures IApply(v, EnqueueRec(s.live[id].m, s.live[id].status.Dead?)).Some?
    ensures var w := IApply(v, EnqueueRec(s.live[id].m, s.live[id].status.Dead?)).value;
            && w.msgs == Listed(s, prior + [id]) && w.nextSeq == s.nextSeq
            && w.cfg == v.cfg && LatestEntries(w)
  {
    hide Norm, LatestEntries, Good, Remember, Listed;
    var e := s.live[id];
    KeyAndSeq(s, id, now);
    ListedKeys(s, prior);
    ListedSnoc(s, prior, id);
    LatestAdded(v, e.m, e.status.Dead?);
  }

  lemma ListedKeys(s: State, ids: seq<bytes>)
    requires forall id :: id in ids ==> id in s.live
    ensures forall id :: id in Listed(s, ids) <==> id in ids
    ensures forall id :: id in ids ==> Listed(s, ids)[id].m.seqNo == s.live[id].m.seqNo
  {
  }

  lemma ListedSnoc(s: State, prior: seq<bytes>, id: bytes)
    requires id in s.live && forall x :: x in prior ==> x in s.live
    ensures Listed(s, prior + [id]) == Listed(s, prior)[id := StoredOf(s.live[id])]
  {
    hide StoredOf;
  }

  lemma KeyAndSeq(s: State, id: bytes, now: int)
    requires Good(ImageOf(s), now) && id in s.live
    ensures s.live[id].m.id == id && s.live[id].m.seqNo < s.nextSeq
  {
    assert ImageOf(s).msgs[id].m.id == id && ImageOf(s).msgs[id].m.seqNo < ImageOf(s).nextSeq;
  }

  lemma LatestAdded(v: Image, m: Msg, dead: bool)
    requires LatestEntries(v) && m.id !in v.msgs
    requires forall x :: x in v.msgs ==> v.msgs[x].m.seqNo < m.seqNo
    ensures LatestEntries(IApply(v, EnqueueRec(m, dead)).value)
  {
    var w := IApply(v, EnqueueRec(m, dead)).value;
    forall d | d in w.dedup ensures LatestEntry(w, d) {
      if d != m.dedupID {
        assert LatestEntry(v, d);
      }
    }
  }

  // Replaying the orphans that follow: they override.
  lemma {:induction false} FoldOrphans(s: State, prior: seq<LogRec>, ds: seq<bytes>)
    requires IFold(prior).Some? && (forall d :: d in ds ==> d in s.dedup && s.dedup[d].dedupID == d)
    ensures var v := IFold(prior).value; var f := IFold(prior + DedupRecs(s, ds));
            && f.Some? && f.value == v.(dedup := Overridden(v.dedup, s, ds))
    decreases |ds|
  {
    hide IFold;
    if ds == [] {
      assert prior + DedupRecs(s, ds) == prior;
      assert Overridden(IFold(prior).value.dedup, s, ds) == IFold(prior).value.dedup;
    } else {
      var n := |ds| - 1;
      assert ds[n] in ds;
      FoldOrphans(s, prior, ds[..n]);
      var r := DedupRec(s.dedup[ds[n]]);
      assert prior + DedupRecs(s, ds) == prior + DedupRecs(s, ds[..n]) + [r];
      FoldSnoc(prior + DedupRecs(s, ds[..n]), r);
      assert ds == ds[..n] + [ds[n]];
      var v := IFold(prior).value;
      assert Overridden(v.dedup, s, ds) == Overridden(v.dedup, s, ds[..n])[ds[n] := s.dedup[ds[n]]];
    }
  }

  function Overridden(dedup: map<bytes, DedupEntry>, s: State, ds: seq<bytes>): map<bytes, DedupEntry>
    requires forall d :: d in ds ==> d in s.dedup
  {
    map d | d in dedup.Keys + Elements(ds) :: if d in ds then s.dedup[d] else dedup[d]
  }

  // Rebuilt entries and orphans together answer as the running queue does, from the snapshot on.
  lemma EntriesAgree(s: State, v: Image, ds: seq<bytes>, now: int)
    requires Good(ImageOf(s), now) && OrphansInOrder(s, now, ds) && LatestEntries(v)
    requires v.cfg == Settings(s.cfg) && v.msgs == MsgsOf(s.live)
    ensures Agree(Overridden(v.dedup, s, ds), s.dedup, now)
  {
    var i := ImageOf(s);
    var o := Overridden(v.dedup, s, ds);
    forall d ensures Fresh(o, d, now) == Fresh(s.dedup, d, now) {
      if d !in ds {
        if d in s.dedup && now < s.dedup[d].expiresAt {
          // Not an orphan, so its message is live; a newer one would have a later window.
          var m := i.msgs[s.dedup[d].messageID].m;
          assert s.dedup[d] == DedupOf(s.cfg, m) && LatestEntry(v, d);
          var x := v.msgs[v.dedup[d].messageID].m;
          assert m.createdAt <= x.createdAt;
          assert Remembered(i, x, now);
        } else if d in v.dedup {
          assert LatestEntry(v, d);
          assert Remembered(i, i.msgs[v.dedup[d].messageID].m, now);
        }
      }
    }
  }

  lemma SnapshotDedupGood(s: State, v: Image, ds: seq<bytes>, now: int)
    requires Good(ImageOf(s), now) && OrphansInOrder(s, now, ds) && LatestEntries(v)
    requires v.cfg == Settings(s.cfg) && v.msgs == MsgsOf(s.live)
    ensures DedupGood(v.(dedup := Overridden(v.dedup, s, ds)), now)
  {
    var i := ImageOf(s);
    var w := v.(dedup := Overridden(v.dedup, s, ds));
    EntriesAgree(s, v, ds, now);
    forall id | id in w.msgs ensures Remembered(w, w.msgs[id].m, now) {
      var m := w.msgs[id].m;
      assert Remembered(i, m, now);
      if m.dedupID != [] && now < m.createdAt + w.cfg.DedupWindow() {
        assert Fresh(s.dedup, m.dedupID, now).Some?;
        assert Fresh(w.dedup, m.dedupID, now) == Fresh(s.dedup, m.dedupID, now);
      }
    }
    forall d | d in w.dedup && w.dedup[d].messageID in w.msgs
      ensures w.dedup[d] == DedupOf(w.cfg, w.msgs[w.dedup[d].messageID].m)
    {
      if d !in ds { assert LatestEntry(v, d); }
    }
    forall d | d in w.dedup ensures w.dedup[d].dedupID == d && d != [] {
      if d !in ds { assert LatestEntry(v, d); }
    }
  }

  // Compaction preserves meaning: the snapshot replays, to an image that tracks the running queue just as the
  // replaced log's did, is as good, and names nothing new.
  lemma SnapshotMeansTheSame(s: State, recs: seq<LogRec>, now: int, used: set<bytes>)
    requires ImageFits(ImageOf(s), now, used) && IsSnapshot(recs, s, now)
    ensures IFold(recs).Some?
    ensures Tracks(IFold(recs).value, s, s.nextSeq, now) && ImageFits(IFold(recs).value, now, used)
  {
    var ids, ds :| LiveInOrder(s, ids) && OrphansInOrder(s, now, ds) && recs == SnapshotRecs(s, ids, ds);
    var head := [SnapshotMeta(s)] + MsgRecs(s, ids);
    FoldMessages(s, ids, now);
    var v := IFold(head).value;
    ListedAll(s, ids);
    DedupKeyed(s, now);
    FoldOrphans(s, head, ds);
    hide Good, IFold, MsgsOf, LatestEntries, Norm, Listed, Overridden, DedupGood, MsgRecs, DedupRecs;
    EntriesAgree(s, v, ds, now);
    SnapshotDedupGood(s, v, ds, now);
    SnapshotBounds(s, v, ds, now, used);
  }

  lemma ListedAll(s: State, ids: seq<bytes>)
    requires LiveInOrder(s, ids)
    ensures Listed(s, ids) == MsgsOf(s.live)
  {
    hide StoredOf;
  }

  lemma DedupKeyed(s: State, now: int)
    requires Good(ImageOf(s), now)
    ensures s.nextSeq >= 0 && forall d :: d in s.dedup ==> s.dedup[d].dedupID == d
  {
  }

  lemma SnapshotBounds(s: State, v: Image, ds: seq<bytes>, now: int, used: set<bytes>)
    requires ImageFits(ImageOf(s), now, used) && OrphansInOrder(s, now, ds) && LatestEntries(v)
    requires v.cfg == Settings(s.cfg) && v.msgs == MsgsOf(s.live) && v.nextSeq == s.nextSeq
    requires DedupGood(v.(dedup := Overridden(v.dedup, s, ds)), now)
    ensures ImageFits(v.(dedup := Overridden(v.dedup, s, ds)), now, used)
  {
    var w := v.(dedup := Overridden(v.dedup, s, ds));
    forall d | d in w.dedup ensures EntryInBounds(w.dedup[d]) && w.dedup[d].messageID in used {
      if d !in ds {
        assert LatestEntry(v, d);
      }
    }
    hide MsgsOf, Overridden, LatestEntries;
    DedupAside(ImageOf(s), w, now);
  }

  lemma DedupAside(v: Image, w: Image, now: int)
    requires Good(v, now) && w == v.(dedup := w.dedup)
    requires DedupGood(w, now) && forall d :: d in w.dedup ==> EntryInBounds(w.dedup[d])
    ensures Good(w, now)
  {
    hide DedupGood, Validated, InBounds, EntryInBounds;
  }
}
