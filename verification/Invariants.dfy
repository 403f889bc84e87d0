// What every image of a queue keeps, operation by operation.
module Invariants {
  import opened Bytes
  import opened Messages
  import opened Codec
  import opened QueueState
  import opened Images

  ghost predicate Keyed(v: Image) {
    forall id :: id in v.msgs ==> v.msgs[id].m.id == id
  }

  // Sequence numbers are distinct, below the counter, and in order of creation.
  ghost predicate SeqsGood(v: Image, now: int) {
    && (forall id :: id in v.msgs ==> v.msgs[id].m.seqNo < v.nextSeq && v.msgs[id].m.createdAt <= now)
    && (forall a, b :: a in v.msgs && b in v.msgs && a != b ==> v.msgs[a].m.seqNo != v.msgs[b].m.seqNo)
    && (forall a, b :: a in v.msgs && b in v.msgs && v.msgs[a].m.seqNo < v.msgs[b].m.seqNo ==>
          v.msgs[a].m.createdAt <= v.msgs[b].m.createdAt)
  }

  // A message is dead exactly when its attempts are used up.
  ghost predicate DeadGood(v: Image) {
    forall id :: id in v.msgs ==>
      (v.msgs[id].dead <==> v.msgs[id].m.attempts >= v.cfg.maxAttempts) && v.msgs[id].m.attempts <= v.cfg.maxAttempts
  }

  // A live message whose window is open is the one its DedupID is remembered by, and a remembered message that
  // is still live is remembered as it would be again on replay.
  ghost predicate DedupGood(v: Image, now: int) {
    && (forall d :: d in v.dedup ==> v.dedup[d].dedupID == d && d != [])
    && (forall id :: id in v.msgs ==> Remembered(v, v.msgs[id].m, now))
    && (forall d :: d in v.dedup && v.dedup[d].messageID in v.msgs ==>
          v.dedup[d] == DedupOf(v.cfg, v.msgs[v.dedup[d].messageID].m))
  }

  predicate Remembered(v: Image, m: Msg, now: int) {
    m.dedupID != [] && now < m.createdAt + v.cfg.DedupWindow() ==>
      m.dedupID in v.dedup && v.dedup[m.dedupID] == DedupOf(v.cfg, m)
  }

  ghost predicate BoundsGood(v: Image) {
    && (forall id :: id in v.msgs ==> InBounds(v.msgs[id].m) && EntryInBounds(DedupOf(v.cfg, v.msgs[id].m)))
    && (forall d :: d in v.dedup ==> EntryInBounds(v.dedup[d]))
  }

  ghost predicate Good(v: Image, now: int) {
    && Validated(v.cfg)
    && WithinWidths(v.cfg)
    && 1 <= v.nextSeq < TWO_64
    && Keyed(v)
    && SeqsGood(v, now)
    && DeadGood(v)
    && DedupGood(v, now)
    && BoundsGood(v)
  }

  lemma GoodLater(v: Image, now: int, later: int)
    requires Good(v, now) && now <= later
    ensures Good(v, later)
  {
  }

  // A message as Enqueue builds it.
  predicate FreshMessage(m: Msg, now: int) {
    m.attempts == 0 && m.createdAt == now && InBounds(m) && m.seqNo + 1 < TWO_64
  }

  predicate Newest(v: Image, seqNo: nat) {
    forall id :: id in v.msgs ==> v.msgs[id].m.seqNo < seqNo
  }

  function Enqueued(v: Image, m: Msg): Image {
    v.(nextSeq := Max(v.nextSeq, m.seqNo + 1),
       msgs := v.msgs[m.id := Stored(Norm(m), false)],
       dedup := Remember(v.cfg, v.dedup, m))
  }

  lemma GoodEnqueue(v: Image, m: Msg, now: int)
    requires Good(v, now) && FreshMessage(m, now) && Newest(v, m.seqNo) && m.id !in v.msgs
    requires m.dedupID in v.dedup ==> now >= v.dedup[m.dedupID].expiresAt
    requires forall d :: d in v.dedup ==> v.dedup[d].messageID != m.id
    requires EntryInBounds(DedupOf(v.cfg, m))
    ensures Good(Enqueued(v, m), now)
  {
    MaxAttemptsPositive(v.cfg);
    hide InBounds, Validated, EntryInBounds;
    assert Norm(m) == m;
    assert DedupGood(Enqueued(v, m), now) by {
      hide SeqsGood, DeadGood, BoundsGood, Keyed;
      DedupEnqueue(v, m, now);
    }
    SeqsEnqueue(v, m, now);
    BoundsEnqueue(v, m);
    hide DedupGood, SeqsGood, BoundsGood, Remember;
  }

  lemma BoundsEnqueue(v: Image, m: Msg)
    requires BoundsGood(v) && InBounds(m) && EntryInBounds(DedupOf(v.cfg, m)) && Norm(m) == m
    ensures BoundsGood(Enqueued(v, m))
  {
    hide InBounds, EntryInBounds;
  }

  lemma SeqsEnqueue(v: Image, m: Msg, now: int)
    requires SeqsGood(v, now) && Newest(v, m.seqNo) && m.createdAt == now && m.id !in v.msgs && Norm(m) == m
    ensures SeqsGood(Enqueued(v, m), now)
  {
    hide Remember;
  }

  lemma DedupEnqueue(v: Image, m: Msg, now: int)
    requires DedupGood(v, now) && m.id !in v.msgs
    requires m.dedupID in v.dedup ==> now >= v.dedup[m.dedupID].expiresAt
    requires forall d :: d in v.dedup ==> v.dedup[d].messageID != m.id
    requires Norm(m) == m
    ensures DedupGood(Enqueued(v, m), now)
  {
    var w := Enqueued(v, m);
    forall id | id in w.msgs ensures Remembered(w, w.msgs[id].m, now) {
      if id != m.id {
        assert w.msgs[id] == v.msgs[id];
        assert Remembered(v, v.msgs[id].m, now);
      }
    }
  }

  lemma GoodAck(v: Image, id: bytes, now: int)
    requires Good(v, now) && id in v.msgs
    ensures Good(v.(msgs := v.msgs - {id}), now)
  {
    hide InBounds, Validated, EntryInBounds;
    var w := v.(msgs := v.msgs - {id});
    forall x | x in w.msgs ensures Remembered(w, w.msgs[x].m, now) {
      assert Remembered(v, v.msgs[x].m, now);
    }
  }

  lemma MaxAttemptsPositive(cfg: Config)
    requires Validated(cfg)
    ensures cfg.maxAttempts >= 1
  {
  }

  lemma AttemptInBounds(cfg: Config, m: Msg)
    requires InBounds(m) && m.attempts < cfg.maxAttempts < TWO_32
    ensures var x := StoredAttempt(cfg, m);
            && InBounds(x.m) && (x.dead <==> x.m.attempts >= cfg.maxAttempts) && x.m.attempts == m.attempts + 1
            && x.m == m.(attempts := x.m.attempts, visibleAt := x.m.visibleAt)
  {
  }

  lemma GoodAttempt(v: Image, id: bytes, now: int)
    requires Good(v, now) && id in v.msgs && v.msgs[id].m.attempts < v.cfg.maxAttempts
    ensures Good(v.(msgs := v.msgs[id := StoredAttempt(v.cfg, v.msgs[id].m)]), now)
  {
    hide InBounds, Validated, EntryInBounds, StoredAttempt;
    AttemptInBounds(v.cfg, v.msgs[id].m);
    var x := StoredAttempt(v.cfg, v.msgs[id].m);
    assert DedupGood(v.(msgs := v.msgs[id := x]), now) by {
      hide SeqsGood, DeadGood, BoundsGood, Keyed;
      DedupReplace(v, id, x, now);
    }
    SeqsReplace(v, id, x, now);
    hide DedupGood, SeqsGood;
  }

  lemma SeqsReplace(v: Image, id: bytes, x: Stored, now: int)
    requires SeqsGood(v, now) && id in v.msgs
    requires x.m == v.msgs[id].m.(attempts := x.m.attempts, visibleAt := x.m.visibleAt)
    ensures SeqsGood(v.(msgs := v.msgs[id := x]), now)
  {
  }

  lemma DedupReplace(v: Image, id: bytes, x: Stored, now: int)
    requires DedupGood(v, now) && id in v.msgs
    requires x.m == v.msgs[id].m.(attempts := x.m.attempts, visibleAt := x.m.visibleAt)
    ensures DedupGood(v.(msgs := v.msgs[id := x]), now)
  {
    var w := v.(msgs := v.msgs[id := x]);
    forall y | y in w.msgs ensures Remembered(w, w.msgs[y].m, now) {
      assert Remembered(v, v.msgs[y].m, now);
    }
  }

  lemma GoodPurge(v: Image, now: int)
    requires Good(v, now)
    ensures Good(v.(dedup := map d | d in v.dedup && now < v.dedup[d].expiresAt :: v.dedup[d]), now)
  {
    hide InBounds, Validated, EntryInBounds;
    var w := v.(dedup := map d | d in v.dedup && now < v.dedup[d].expiresAt :: v.dedup[d]);
    forall x | x in w.msgs ensures Remembered(w, w.msgs[x].m, now) {
      assert Remembered(v, v.msgs[x].m, now);
    }
  }

  // What a dedup map answers at a time: the entry, if its window is open.
  function Fresh(dedup: map<bytes, DedupEntry>, d: bytes, now: int): Option<DedupEntry> {
    if d in dedup && now < dedup[d].expiresAt then Some(dedup[d]) else None
  }

  ghost predicate Agree(a: map<bytes, DedupEntry>, b: map<bytes, DedupEntry>, now: int) {
    forall d :: Fresh(a, d, now) == Fresh(b, d, now)
  }

  lemma AgreeLater(a: map<bytes, DedupEntry>, b: map<bytes, DedupEntry>, now: int, later: int)
    requires Agree(a, b, now) && now <= later
    ensures Agree(a, b, later)
  {
    forall d ensures Fresh(a, d, later) == Fresh(b, d, later) {
      assert Fresh(a, d, now) == Fresh(b, d, now);
    }
  }

  // The log's image describes the running state: equal messages and settings, equal dedup answers from now on,
  // and a sequence counter that replay raises to the one the first META record carries.
  ghost predicate Tracks(v: Image, s: State, metaSeq: nat, now: int) {
    && v.cfg == Settings(s.cfg)
    && v.msgs == MsgsOf(s.live)
    && v.nextSeq == Max(s.nextSeq, metaSeq)
    && Agree(v.dedup, s.dedup, now)
  }

  // Applying one more record to both keeps the two together.
  lemma TracksStep(v: Image, s: State, metaSeq: nat, now: int, r: LogRec, at: int)
    requires Tracks(v, s, metaSeq, now) && !r.MetaRec? && !r.DedupRec?
    requires ApplyRec(s, r, at).Some?
    ensures IApply(v, r).Some? && Tracks(IApply(v, r).value, ApplyRec(s, r, at).value, metaSeq, now)
  {
    hide StoredAttempt, MsgsOf, EffectivePriority, Placed, Norm;
    ImageStep(s, r, at);
    if r.EnqueueRec? {
      var d := r.m.dedupID;
      var a, b := Remember(v.cfg, v.dedup, r.m), Remember(s.cfg, s.dedup, r.m);
      forall x ensures Fresh(a, x, now) == Fresh(b, x, now) {
        assert Fresh(v.dedup, x, now) == Fresh(s.dedup, x, now);
      }
    }
  }
}
