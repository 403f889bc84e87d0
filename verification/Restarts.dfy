// Replay refines the running queue, and compaction preserves what replay would find.
module Restarts {
  import opened Bytes
  import opened Messages
  import opened Codec
  import opened QueueState
  import opened Images
  import opened Invariants
  import opened Journal
  import opened Snapshots

  // Replay reads the clock once per record, after everything the log recorded and no later than `until`.
  predicate ClockWithin(clock: seq<int>, from: int, until: int) {
    forall i :: 0 <= i < |clock| ==> from <= clock[i] <= until && FitsInt64(clock[i])
  }

  // Replayed messages stand where the time of replay puts them.
  lemma {:induction false} ReplayedFits(recs: seq<LogRec>, clock: seq<int>, from: int, until: int)
    requires |clock| == |recs| && ClockWithin(clock, from, until)
    requires forall i :: 0 <= i < |recs| ==> RecFits(recs[i], from)
    requires Replayed(recs, clock).Some?
    ensures StateFits(Replayed(recs, clock).value, until)
    decreases |recs|
  {
    hide EffectivePriority, Validate, Small;
    if recs != [] {
      var n := |recs| - 1;
      ReplayedFits(recs[..n], clock[..n], from, until);
      var s := Replayed(recs[..n], clock[..n]).value;
      hide Replayed;
      ApplyFits(s, recs[n], clock[n], from, until);
    }
  }

  lemma ApplyFits(s: State, r: LogRec, at: int, from: int, until: int)
    requires StateFits(s, until) && RecFits(r, from) && from <= at <= until && FitsInt64(at)
    requires ApplyRec(s, r, at).Some?
    ensures StateFits(ApplyRec(s, r, at).value, until)
  {
    hide EffectivePriority, Validate, Small, Validated, EntryInBounds;
    match r
    case EnqueueRec(m, dead) =>
      assert EntryFits(Entry(m, if dead then Dead else Placed(s.cfg, m, at)), until);
    case NackRec(id) => AttemptedFits(s, id, at, until);
    case ExpireRec(id) => AttemptedFits(s, id, at, until);
    case _ =>
  }

  lemma AttemptedFits(s: State, id: bytes, at: int, until: int)
    requires StateFits(s, until) && id in s.live && at <= until && FitsInt64(at)
    ensures StateFits(ApplyAttempt(s, id, at).value, until)
  {
    hide EffectivePriority;
    assert EntryFits(s.live[id], until);
    assert EntryFits(Attempted(s.cfg, s.live[id].m, at), until);
  }

  // The counter a log starts from is never lost.
  lemma {:induction false} MetaSeqKept(log: seq<LogRec>, v: Image)
    requires |log| > 0 && log[0].MetaRec? && Validated(log[0].cfg) && IFold(log) == Some(v)
    ensures v.nextSeq >= log[0].cfg.nextSeq
    decreases |log|
  {
    hide Validate, Validated, Norm, StoredAttempt;
    var n := |log| - 1;
    if n == 0 {
      ValidateNormalises(log[0].cfg);
    } else {
      MetaSeqKept(log[..n], IFold(log[..n]).value);
    }
  }

  // Restarting on any prefix a crash can leave: replay succeeds, and the invariant holds of the recovered queue, the
  // first `sure` records of its log being out of a further crash's reach.
  lemma RestartKeepsInv(c: Core, sure: nat, k: nat, clock: seq<int>, now: int)
    requires Inv(c) && c.base <= sure <= k <= |c.log| && |clock| == k && ClockWithin(clock, c.now, now) && c.now <= now
    ensures Replayed(c.log[..k], clock).Some?
    ensures var r := Replayed(c.log[..k], clock).value;
            Inv(Core(r, now, c.log[..k], sure, c.used)) && Some(ImageOf(r)) == IFold(c.log[..k])
  {
    var log := c.log[..k];
    ReplayedImage(log, clock);
    CutLogFits(c.log, k, c.now);
    CutPrefixesFold(c, sure, k, now);
    hide IFold, Good, StateFits, Replayed, NamesUsed, ImageOf, Tracks, PrefixesFold;
    var r := Replayed(log, clock).value;
    GoodLater(ImageOf(r), c.now, now);
    ReplayedFits(log, clock, c.now, now);
    LogFitsLater(log, c.now, now);
    RecoveredInv(log, r, sure, now, c.used);
  }

  lemma BaseWithin(c: Core)
    requires Inv(c)
    ensures 1 <= c.base <= |c.log|
  {
    hide IFold, LogFits;
  }

  lemma CutPrefixesFold(c: Core, sure: nat, k: nat, now: int)
    requires Inv(c) && c.base <= sure <= k <= |c.log| && c.now <= now
    ensures PrefixesFold(c.log[..k], sure, now, c.used)
    ensures IFold(c.log[..k]).Some? && ImageFits(IFold(c.log[..k]).value, c.now, c.used)
  {
    hide IFold, Good, NamesUsed;
    forall i | sure <= i <= k
      ensures IFold(c.log[..k][..i]).Some? && ImageFits(IFold(c.log[..k][..i]).value, now, c.used)
    {
      assert c.log[..k][..i] == c.log[..i];
      GoodLater(IFold(c.log[..i]).value, c.now, now);
    }
  }

  lemma CutLogFits(log: seq<LogRec>, k: nat, now: int)
    requires LogFits(log, now) && 1 <= k <= |log|
    ensures LogFits(log[..k], now)
  {
    hide RecFits;
  }

  lemma RecoveredInv(log: seq<LogRec>, r: State, sure: nat, now: int, used: set<bytes>)
    requires LogFits(log, now) && IFold(log) == Some(ImageOf(r)) && ImageFits(ImageOf(r), now, used)
    requires StateFits(r, now) && 1 <= sure <= |log| && PrefixesFold(log, sure, now, used)
    ensures Inv(Core(r, now, log, sure, used))
  {
    assert Validated(log[0].cfg) by { assert RecFits(log[0], now); }
    hide IFold, Good, StateFits, RecFits, NamesUsed, Validated, ImageOf, MsgsOf, PrefixesFold;
    MetaSeqKept(log, ImageOf(r));
    SettingsFromMeta(r);
  }

  lemma SettingsFromMeta(r: State)
    ensures ImageOf(r).cfg == Settings(r.cfg) && ImageOf(r).msgs == MsgsOf(r.live)
    ensures ImageOf(r).nextSeq == r.nextSeq
    ensures forall now :: Agree(ImageOf(r).dedup, r.dedup, now)
  {
  }

  lemma LogFitsLater(log: seq<LogRec>, now: int, later: int)
    requires LogFits(log, now) && now <= later
    ensures LogFits(log, later)
  {
    hide InBounds, Small, Validated, EntryInBounds;
  }

  // Compaction: the snapshot becomes the log.
  lemma CompactKeepsInv(c: Core, recs: seq<LogRec>, now: int)
    requires Inv(c) && c.now <= now && IsSnapshot(recs, c.s, now)
    ensures Inv(Core(c.s, now, recs, |recs|, c.used))
  {
    InvLater(c, now);
    SnapshotFits(c.s, recs, now, c.used);
    hide IFold, Good, StateFits, RecFits, NamesUsed, IsSnapshot, MsgsOf;
    SnapshotMeansTheSame(c.s, recs, now, c.used);
    assert recs[..|recs|] == recs;
    assert PrefixesFold(recs, |recs|, now, c.used) by {
      forall j | |recs| <= j <= |recs|
        ensures IFold(recs[..j]).Some? && ImageFits(IFold(recs[..j]).value, now, c.used)
      {
        assert recs[..j] == recs;
      }
    }
  }

  lemma SnapshotFits(s: State, recs: seq<LogRec>, now: int, used: set<bytes>)
    requires ImageFits(ImageOf(s), now, used) && StateFits(s, now) && IsSnapshot(recs, s, now)
    ensures LogFits(recs, now) && recs[0].cfg.nextSeq == s.nextSeq
  {
    var ids, ds :| LiveInOrder(s, ids) && OrphansInOrder(s, now, ds) && recs == SnapshotRecs(s, ids, ds);
    forall id | id in s.live ensures RecFits(EnqueueRec(s.live[id].m, s.live[id].status.Dead?), now) {
      LiveFits(s, id, now);
    }
    assert RecFits(recs[0], now) by { assert Validated(Settings(s.cfg)); }
    forall d | d in s.dedup ensures RecFits(DedupRec(s.dedup[d]), now) {
      assert EntryInBounds(ImageOf(s).dedup[d]);
    }
    hide Good, StateFits, RecFits, NamesUsed;
    var a := |ids|;
    forall i | 0 < i < |recs| ensures RecFits(recs[i], now) && !recs[i].MetaRec? {
      if i <= a {
        assert recs[i] == MsgRecs(s, ids)[i - 1] && ids[i - 1] in ids;
      } else {
        assert recs[i] == DedupRecs(s, ds)[i - 1 - a] && ds[i - 1 - a] in ds;
      }
    }
  }

  lemma LiveFits(s: State, id: bytes, now: int)
    requires Good(ImageOf(s), now) && StateFits(s, now) && id in s.live
    ensures RecFits(EnqueueRec(s.live[id].m, s.live[id].status.Dead?), now)
  {
    assert InBounds(ImageOf(s).msgs[id].m);
    assert EntryFits(s.live[id], now);
    hide Good, StateFits, Small;
  }

  // Images no record can tell apart from here on, but that one's counter has been raised to metaSeq: equal messages and
  // settings, and equal dedup answers at every time from `now`.
  ghost predicate Alike(v: Image, w: Image, metaSeq: nat, now: int) {
    && v.cfg == w.cfg && v.msgs == w.msgs && Agree(v.dedup, w.dedup, now)
    && v.nextSeq == Max(w.nextSeq, metaSeq)
  }

  lemma AlikeStep(v: Image, w: Image, metaSeq: nat, r: LogRec, now: int)
    requires Alike(v, w, metaSeq, now)
    ensures IApply(v, r).Some? <==> IApply(w, r).Some?
    ensures IApply(v, r).Some? ==> Alike(IApply(v, r).value, IApply(w, r).value, metaSeq, now)
  {
    hide Validate, StoredAttempt, Norm;
    if IApply(v, r).Some? && (r.EnqueueRec? || r.DedupRec?) {
      var v', w' := IApply(v, r).value, IApply(w, r).value;
      forall d ensures Fresh(v'.dedup, d, now) == Fresh(w'.dedup, d, now) {
        assert Fresh(v.dedup, d, now) == Fresh(w.dedup, d, now);
      }
    }
  }

  lemma {:induction false} AlikeThrough(a: seq<LogRec>, b: seq<LogRec>, metaSeq: nat, more: seq<LogRec>, now: int)
    requires IFold(a).Some? && IFold(b).Some? && Alike(IFold(a).value, IFold(b).value, metaSeq, now)
    ensures IFold(a + more).Some? <==> IFold(b + more).Some?
    ensures IFold(a + more).Some? ==> Alike(IFold(a + more).value, IFold(b + more).value, metaSeq, now)
    decreases |more|
  {
    hide IFold, IApply, Alike;
    if more == [] {
      assert a + more == a && b + more == b;
    } else {
      var n := |more| - 1;
      AlikeThrough(a, b, metaSeq, more[..n], now);
      assert a + more == a + more[..n] + [more[n]] && b + more == b + more[..n] + [more[n]];
      FoldSnoc(a + more[..n], more[n]);
      FoldSnoc(b + more[..n], more[n]);
      if IFold(a + more[..n]).Some? {
        AlikeStep(IFold(a + more[..n]).value, IFold(b + more[..n]).value, metaSeq, more[n], now);
      }
    }
  }

  // The old log and its snapshot, before anything follows them.
  lemma SnapshotIsAlike(c: Core, recs: seq<LogRec>, now: int)
    requires Inv(c) && c.now <= now && IsSnapshot(recs, c.s, now)
    ensures IFold(c.log).Some? && IFold(recs).Some?
    ensures Alike(IFold(c.log).value, IFold(recs).value, c.log[0].cfg.nextSeq, now)
    ensures IFold(recs).value.nextSeq == c.s.nextSeq
  {
    InvLater(c, now);
    hide IFold, Good, StateFits, LogFits, PrefixesFold, NamesUsed, IsSnapshot, MsgsOf;
    SnapshotMeansTheSame(c.s, recs, now, c.used);
    var v, w := IFold(c.log).value, IFold(recs).value;
    forall d ensures Fresh(v.dedup, d, now) == Fresh(w.dedup, d, now) {
      assert Fresh(v.dedup, d, now) == Fresh(c.s.dedup, d, now) == Fresh(w.dedup, d, now);
    }
  }

  // Compaction preserves meaning: whatever records follow, replaying the snapshot and them is replaying the old log
  // and them. Either both fail, or both give the same messages and settings, from the compaction on the same answer
  // for every DedupID, and the same sequence counter but for one case: a counter carried by the old log's first META
  // record, above every number handed out, is not in the snapshot. The counters are equal exactly when it is not ahead.
  lemma CompactionPreservesMeaning(c: Core, recs: seq<LogRec>, now: int, more: seq<LogRec>)
    requires Inv(c) && c.now <= now && IsSnapshot(recs, c.s, now)
    ensures IFold(c.log + more).Some? <==> IFold(recs + more).Some?
    ensures IFold(c.log + more).Some? ==>
              var v, w := IFold(c.log + more).value, IFold(recs + more).value;
              && v.cfg == w.cfg && v.msgs == w.msgs
              && (forall d, t :: t >= now ==> Fresh(v.dedup, d, t) == Fresh(w.dedup, d, t))
              && v.nextSeq == Max(w.nextSeq, c.log[0].cfg.nextSeq)
              && (v.nextSeq == w.nextSeq <==> c.log[0].cfg.nextSeq <= w.nextSeq)
  {
    SnapshotIsAlike(c, recs, now);
    hide IFold, Inv, IsSnapshot;
    AlikeThrough(c.log, recs, c.log[0].cfg.nextSeq, more, now);
    if IFold(c.log + more).Some? {
      var v, w := IFold(c.log + more).value, IFold(recs + more).value;
      forall d, t | t >= now ensures Fresh(v.dedup, d, t) == Fresh(w.dedup, d, t) {
        AgreeLater(v.dedup, w.dedup, now, t);
      }
    }
  }

  // No number carried by the first META record is ahead of the running counter.
  predicate Clear(c: Core) {
    |c.log| > 0 && c.log[0].MetaRec? && c.log[0].cfg.nextSeq <= c.s.nextSeq
  }

  // Every new queue whose configuration carries no counter is clear of that case. So is every queue that was ever
  // restarted or compacted, and it stays so: for them nothing at all is lost.
  lemma CounterNotAhead(c: Core, recs: seq<LogRec>, now: int)
    requires Inv(c) && c.now <= now && IsSnapshot(recs, c.s, now) && Clear(c)
    ensures IFold(c.log).Some? && IFold(recs).Some? && IFold(c.log).value.nextSeq == IFold(recs).value.nextSeq
  {
    SnapshotIsAlike(c, recs, now);
  }

  lemma ClearStays(c: Core, e: Event, now: int)
    requires Inv(c) && Clear(c) && c.now <= now && Enabled(c.s, c.used, e, now)
    ensures Clear(Next(c, e, now))
  {
    hide Inv, Attempted, Promote, Age, Lease, Purge;
    PromoteKeepsRest(c.s, now);
    PromoteKeepsRest(Promote(c.s, now), now);
    if e.EvDequeue? { LeaseKeepsRest(Promote(c.s, now), Elements(e.ids), e.deadline); }
    assert e.EvPurge? ==> Purge(c.s, now).nextSeq == c.s.nextSeq by { PurgeKeepsCounter(c.s, now); }
  }

  lemma PurgeKeepsCounter(s: State, now: int)
    ensures Purge(s, now).nextSeq == s.nextSeq
  {
  }

  lemma RestartClears(c: Core, sure: nat, k: nat, clock: seq<int>, now: int)
    requires Inv(c) && c.base <= sure <= k <= |c.log| && |clock| == k && ClockWithin(clock, c.now, now) && c.now <= now
    ensures Replayed(c.log[..k], clock).Some?
    ensures Clear(Core(Replayed(c.log[..k], clock).value, now, c.log[..k], sure, c.used))
  {
    RestartKeepsInv(c, sure, k, clock, now);
    assert Validated(c.log[0].cfg) by { assert RecFits(c.log[0], c.now); }
    hide IFold, Replayed, PrefixesFold, Validated, Good, StateFits, RecFits, MsgsOf;
    MetaSeqKept(c.log[..k], IFold(c.log[..k]).value);
  }

  lemma CompactClears(c: Core, recs: seq<LogRec>, now: int)
    requires Inv(c) && c.now <= now && IsSnapshot(recs, c.s, now)
    ensures Clear(Core(c.s, now, recs, |recs|, c.used))
  {
    InvLater(c, now);
    SnapshotFits(c.s, recs, now, c.used);
    hide IsSnapshot, RecFits;
  }

  // The case itself: a queue created with NextSeq 10 in its configuration replays to 10, and compacted at once to 1.
  lemma CompactionLosesACarriedCounter(cfg: Config, now: int)
    requires Validated(cfg) && WithinWidths(cfg) && cfg.nextSeq == 10
    ensures var log, recs := Created(cfg, now).log, [MetaRec(cfg.(nextSeq := 1))];
            && IsSnapshot(recs, Created(cfg, now).s, now)
            && IFold(log).Some? && IFold(log).value.nextSeq == 10
            && IFold(recs).Some? && IFold(recs).value.nextSeq == 1
  {
    var c := Created(cfg, now);
    var recs := [MetaRec(cfg.(nextSeq := 1))];
    assert IsSnapshot(recs, c.s, now) by {
      assert LiveInOrder(c.s, []) && OrphansInOrder(c.s, now, []);
      assert recs == SnapshotRecs(c.s, [], []);
    }
    CreatedInv(cfg, now);
    SnapshotIsAlike(c, recs, now);
    hide IFold, Inv, IsSnapshot;
  }

  // Replay refines the running queue. Replaying its log, at any times from now on, never fails; it yields the same
  // messages with the same attempts and the same dead set, field for field but for the VisibleAt of attempted messages;
  // once both promote what is due, every message stands the same, leased ones being available again; every DedupID is
  // answered the same.
  lemma ReplayRefinesLive(c: Core, clock: seq<int>, T: int)
    requires Inv(c) && |clock| == |c.log| && ClockWithin(clock, c.now, T) && c.now <= T
    ensures Replayed(c.log, clock).Some?
    ensures var r := Replayed(c.log, clock).value;
            && MsgsOf(r.live) == MsgsOf(c.s.live)
            && Settings(r.cfg) == Settings(c.s.cfg)
            && Standings(Promote(r, T)) == Standings(Promote(c.s, T))
            && (forall d, t :: t >= T ==> Fresh(r.dedup, d, t) == Fresh(c.s.dedup, d, t))
            && r.nextSeq == Max(c.s.nextSeq, c.log[0].cfg.nextSeq)
  {
    assert c.log[..|c.log|] == c.log;
    RestartKeepsInv(c, |c.log|, |c.log|, clock, T);
    var r := Replayed(c.log, clock).value;
    InvLater(c, T);
    hide IFold, Good, LogFits, PrefixesFold, NamesUsed, Replayed, MsgsOf, Small;
    StandingsFromImage(r, T);
    StandingsFromImage(c.s, T);
    assert r.live.Keys == c.s.live.Keys by { MsgsKeys(r.live); MsgsKeys(c.s.live); }
    forall d, t | t >= T ensures Fresh(r.dedup, d, t) == Fresh(c.s.dedup, d, t) {
      AgreeLater(r.dedup, c.s.dedup, T, t);
    }
  }

  // The running counter and the replayed one agree exactly when the first META record carries none above it. A
  // queue created with a larger NextSeq in its configuration runs from 1 but is replayed from that number.
  lemma ReplayedCounterAgrees(c: Core, clock: seq<int>, T: int)
    requires Inv(c) && |clock| == |c.log| && ClockWithin(clock, c.now, T) && c.now <= T
    ensures Replayed(c.log, clock).Some?
    ensures Replayed(c.log, clock).value.nextSeq == c.s.nextSeq <==> c.log[0].cfg.nextSeq <= c.s.nextSeq
  {
    ReplayRefinesLive(c, clock, T);
  }

  // Create: a new queue and the log it has just made durable.
  function Created(cfg: Config, now: int): Core {
    Core(NEW_QUEUE.(cfg := cfg), now, [MetaRec(cfg)], 1, {})
  }

  lemma CreatedInv(cfg: Config, now: int)
    requires Validated(cfg) && WithinWidths(cfg)
    ensures Inv(Created(cfg, now))
  {
    ValidateNormalises(cfg);
    var log := [MetaRec(cfg)];
    assert log[..0] == [] && log[..1] == log;
    assert Validated(Settings(cfg));
    hide Validate, Validated;
    var v := ImageOf(NEW_QUEUE).(cfg := Settings(cfg), nextSeq := Max(1, cfg.nextSeq));
    assert IFold(log) == Some(v) by { assert IFold(log[..0]) == Some(ImageOf(NEW_QUEUE)); }
  }

  // The counter example: with NextSeq 10 in the configuration, an empty new queue hands out 1 and replays to 10.
  lemma CreatedWithCounterDiffers(cfg: Config, now: int)
    requires Validated(cfg) && WithinWidths(cfg) && cfg.nextSeq == 10 && FitsInt64(now)
    ensures Created(cfg, now).s.nextSeq == 1
    ensures Replayed(Created(cfg, now).log, [now]).Some? && Replayed(Created(cfg, now).log, [now]).value.nextSeq == 10
  {
    CreatedInv(cfg, now);
    ReplayRefinesLive(Created(cfg, now), [now], now);
  }
}
