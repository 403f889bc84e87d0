// The objects and the system are about the same thing. Each method here is a method of Queue or Log with the state of
// the system carried along as a ghost: what it does is a run of the system's steps, each enabled in its turn, and the
// two agree again afterwards. So every sequence of calls, flushes and restarts is a run that CrashSafety and
// CrashRecovery prove safe. The books of the write bound are carried along in the same way.
module Conformance {
  import opened Bytes
  import opened Seqs
  import opened Messages
  import opened Codec
  import opened Images
  import opened Invariants
  import opened Record
  import opened QueueState
  import opened QueueLoops
  import opened Snapshots
  import opened Replay
  import opened Recovery
  import opened Wire
  import opened Loading
  import opened Writers
  import J = Journal
  import G = GroupCommit
  import L = Log
  import opened CrashSafety
  import opened CrashRecovery
  import W = WriteBound
  import opened Queues
  import opened Linkage
  import opened DiskFiles

  // A queue with its log, and the state of the system and the books it stands for.
  ghost predicate StandsFor(j: ConfigCodec, q: Queue, y: Sys, b: W.Books)
    reads q, q.ready, q.delayed, q.inflight, q.ready.items, q.delayed.items, q.inflight.items, q.byID.Values, q.dlq
    reads q.log
  {
    && Inv(y) && q.Structure({}) && q.ready.inOrder && q.log.Valid()
    && q.Abs() == y.core.s && q.log.protocol == Framed(j, y.wal) && q.failed == y.failed && q.closed == y.closed
    && b.size == q.log.size && b.floor == q.compactFloor && b.threshold == q.compactThreshold
  }

  // Only a finished write or another file changes the size.
  lemma SizeKept(l: L.Log, was: nat, p: G.LogState<Frame>)
    requires l.Valid() && p.from <= p.synced <= |p.batches| && was == |EncodedAll(G.Written(p))|
    requires l.protocol.base == p.base && l.protocol.from == p.from && l.protocol.synced == p.synced
    requires |p.batches| <= |l.protocol.batches| && l.protocol.batches[..|p.batches|] == p.batches
    ensures l.size == was
  {
    hide EncodedAll;
    l.SizeIsWritten();
    SliceOfPrefix(l.protocol.batches, p.batches, p.from, p.synced);
  }

  // Nobody holds the queue's mutex: no compaction is under way.
  predicate MutexFree(y: Sys) {
    y.phase.Serving? || y.phase.Stuck?
  }

  lemma StuckHasFailed(y: Sys)
    requires Inv(y)
    ensures y.phase.Stuck? ==> y.failed
  {
    hide J.Inv, G.Inv, InStep, WaitingSafe, DoneSafe;
  }

  lemma AppendKeepsSize(l: L.Log, was: nat, p: G.LogState<Frame>, f: Frame)
    requires l.Valid() && p.from <= p.synced <= |p.batches| && was == |EncodedAll(G.Written(p))|
    requires l.protocol == G.Do(p, G.Append(f))
    ensures l.size == was
  {
    hide EncodedAll, L.Log.Valid;
    assert p.batches[..|p.batches|] == p.batches;
    SizeKept(l, was, p);
  }

  lemma AckAllowed(j: ConfigCodec, y: Sys, id: bytes, now: int)
    requires id in y.core.s.live && (y.core.s.live[id].status.InFlight? || y.core.s.live[id].status.Dead?)
    ensures J.Enabled(y.core.s, y.core.used, J.EvAck(id), now) && FrameOf(j, AckRec(id)) == Frame(TYPE_ACK, id)
    ensures QueueState.ApplyAck(y.core.s, id) == Some(J.After(y.core.s, J.EvAck(id), now))
  {
  }

  // What is assumed of the input: an id never used before, and a message within the limits of the formats.
  predicate Acceptable(y: Sys, m: Msg, now: int) {
    && m.id !in y.core.used && m.seqNo == y.core.s.nextSeq
    && FreshMessage(m, now) && J.Small(m) && EntryInBounds(DedupOf(y.core.s.cfg, m))
  }

  lemma EnqueueAllowed(j: ConfigCodec, y: Sys, m: Msg, now: int)
    requires Inv(y) && Acceptable(y, m, now)
    ensures m.id !in y.core.s.live && FrameOf(j, EnqueueRec(m, false)) == Frame(TYPE_ENQUEUE, EncodeMessage(m, false))
    ensures var s, d := y.core.s, m.dedupID;
            (d != [] && d in s.dedup && now < s.dedup[d].expiresAt) || J.Enabled(s, y.core.used, J.EvEnqueue(m), now)
  {
    hide J.Inv, G.Inv, EncodeMessage;
    if m.id in y.core.s.live { LiveIsUsed(y.core, m.id); }
  }

  method Enqueue(j: ConfigCodec, q: Queue, payload: bytes, priority: int, delay: int, dedupID: bytes, newID: bytes,
                 now: int, ghost y: Sys, ghost b: W.Books)
    returns (res: EnqueueResult, ghost run: seq<Step>)
    requires StandsFor(j, q, y, b) && MutexFree(y) && y.core.now <= now
    requires Acceptable(y, Msg(newID, dedupID, y.core.s.nextSeq, priority, now + delay, payload, 0, now), now)
    modifies q`byID, q`dlq, q`nextSeq, q`dedup, q`failed, q`counters
    modifies q.ready`items, q.delayed`items, q.byID.Values`index, q.log
    ensures LegalSteps(y, run) && StandsFor(j, q, RunSteps(y, run), b)
    ensures run == match res
                   case Accepted(m, _) => [Operate(J.EvEnqueue(m), now)]
                   case NotAccepted(ErrAppend) => [Refused]
                   case _ => []
    ensures res.Accepted? ==> (EnqueueOp(res.m), res.batch) in RunSteps(y, run).pending
    ensures res.NotAccepted? ==> res.why.ErrClosed? || res.why.ErrFailed? || res.why.ErrAppend?
  {
    hide Inv, LegalSteps, RunSteps, Queue.Structure, Queue.Abs, L.Log.Valid, Framed, G.Do, G.Enabled, J.After, Do,
      Enabled, J.Enabled, FrameOf, G.Refuses, EncodedAll, G.Written, Acceptable,
      EncodeMessage, Admitted;
    StuckHasFailed(y);
    ghost var p, was := q.log.protocol, q.log.size;
    ghost var m := Msg(newID, dedupID, y.core.s.nextSeq, priority, now + delay, payload, 0, now);
    q.log.SizeIsWritten();
    FramingAnswers(j, y.wal);
    G.AppendEnabled(p, Frame(TYPE_ENQUEUE, EncodeMessage(m, false)));
    EnqueueAllowed(j, y, m, now);
    res := q.Enqueue(payload, priority, delay, dedupID, newID, now);
    if res.Accepted? {
      run := [Operate(J.EvEnqueue(m), now)];
      LoggedStep(j, y, J.EvEnqueue(m), now);
      AppendKeepsSize(q.log, was, p, Frame(TYPE_ENQUEUE, EncodeMessage(m, false)));
    } else if res.NotAccepted? && res.why.ErrAppend? {
      run := [Refused];
      RefusedStep(y);
      SizeKept(q.log, was, p);
    } else {
      run := [];
      NoSteps(y);
      SizeKept(q.log, was, p);
    }
  }

  method Ack(j: ConfigCodec, q: Queue, id: bytes, now: int, ghost y: Sys, ghost b: W.Books)
    returns (a: Answer, ghost run: seq<Step>)
    requires StandsFor(j, q, y, b) && MutexFree(y) && y.core.now <= now
    modifies q`byID, q`dlq, q`failed, q`counters, q.ready`items, q.delayed`items, q.inflight`items
    modifies q.byID.Values`index, q.log
    ensures LegalSteps(y, run) && StandsFor(j, q, RunSteps(y, run), b)
    ensures run == match a
                   case Recorded(_) => [Operate(J.EvAck(id), now)]
                   case Rejected(ErrAppend) => [Refused]
                   case _ => []
    ensures a.Recorded? ==> (AckOp(id), a.batch) in RunSteps(y, run).pending
  {
    hide Inv, LegalSteps, RunSteps, Queue.Structure, Queue.Abs, L.Log.Valid, Framed, G.Do, G.Enabled, J.After, Do,
      Enabled, J.Enabled, FrameOf, G.Refuses, EncodedAll, G.Written, QueueState.ApplyAck;
    StuckHasFailed(y);
    ghost var p, was := q.log.protocol, q.log.size;
    q.log.SizeIsWritten();
    FramingAnswers(j, y.wal);
    G.AppendEnabled(p, Frame(TYPE_ACK, id));
    a := q.Ack(id);
    if a.Recorded? {
      run := [Operate(J.EvAck(id), now)];
      AckAllowed(j, y, id, now);
      LoggedStep(j, y, J.EvAck(id), now);
      AppendKeepsSize(q.log, was, p, Frame(TYPE_ACK, id));
    } else if a.error.ErrAppend? {
      run := [Refused];
      RefusedStep(y);
      SizeKept(q.log, was, p);
    } else {
      run := [];
      NoSteps(y);
      SizeKept(q.log, was, p);
    }
  }

  lemma NackAllowed(j: ConfigCodec, y: Sys, id: bytes, now: int)
    requires id in y.core.s.live && y.core.s.live[id].status.InFlight? && FitsInt64(now)
    ensures J.Enabled(y.core.s, y.core.used, J.EvNack(id), now) && FrameOf(j, NackRec(id)) == Frame(TYPE_NACK, id)
    ensures QueueState.ApplyAttempt(y.core.s, id, now) == Some(J.After(y.core.s, J.EvNack(id), now))
  {
    hide Attempted;
  }

  method Nack(j: ConfigCodec, q: Queue, id: bytes, now: int, ghost y: Sys, ghost b: W.Books)
    returns (a: Answer, ghost run: seq<Step>)
    requires StandsFor(j, q, y, b) && MutexFree(y) && y.core.now <= now && FitsInt64(now)
    modifies q`dlq, q`failed, q`counters, q.ready`items, q.delayed`items, q.inflight`items
    modifies q.byID.Values`index, q.byID.Values`attempts, q.byID.Values`visibleAt, q.byID.Values`state
    modifies q.byID.Values`effPriority, q.log
    ensures LegalSteps(y, run) && StandsFor(j, q, RunSteps(y, run), b)
    ensures run == match a
                   case Recorded(_) => [Operate(J.EvNack(id), now)]
                   case Rejected(ErrAppend) => [Refused]
                   case _ => []
  {
    hide Inv, LegalSteps, RunSteps, Queue.Structure, Queue.Abs, L.Log.Valid, Framed, G.Do, G.Enabled, J.After, Do,
      Enabled, J.Enabled, FrameOf, G.Refuses, EncodedAll, G.Written, QueueState.ApplyAttempt, FailedOnce;
    StuckHasFailed(y);
    ghost var p, was := q.log.protocol, q.log.size;
    q.log.SizeIsWritten();
    FramingAnswers(j, y.wal);
    G.AppendEnabled(p, Frame(TYPE_NACK, id));
    a := q.Nack(id, now);
    if a.Recorded? {
      run := [Operate(J.EvNack(id), now)];
      NackAllowed(j, y, id, now);
      LoggedStep(j, y, J.EvNack(id), now);
      AppendKeepsSize(q.log, was, p, Frame(TYPE_NACK, id));
    } else if a.error.ErrAppend? {
      run := [Refused];
      RefusedStep(y);
      SizeKept(q.log, was, p);
    } else {
      run := [];
      NoSteps(y);
      SizeKept(q.log, was, p);
    }
  }

  // The settings give leases time to run, and messages and dedup entries are filed as Dequeue and Compact need them.
  lemma Orderly(y: Sys)
    requires Inv(y)
    ensures y.core.s.cfg.VisibilityTimeout() > 0
    ensures DistinctSeqs(y.core.s) && forall d :: d in y.core.s.dedup ==> y.core.s.dedup[d].dedupID == d
  {
    hide G.Inv, InStep, WaitingSafe, DoneSafe, PhaseInv;
    J.ReachableIsOrderly(y.core);
    TimeoutPositive(y.core);
  }

  lemma TimeoutPositive(c: J.Core)
    requires J.Inv(c)
    ensures c.s.cfg.VisibilityTimeout() > 0
  {
    hide IFold, J.LogFits, J.PrefixesFold, J.StateFits, Keyed, SeqsGood, DeadGood, DedupGood, BoundsGood, MsgsOf;
    assert Validated(ImageOf(c.s).cfg);
  }

  method Dequeue(j: ConfigCodec, q: Queue, max: int, visibility: int, now: int, ghost y: Sys, ghost b: W.Books)
    returns (ok: bool, out: seq<LeasedCopy>, ghost run: seq<Step>)
    requires StandsFor(j, q, y, b) && MutexFree(y) && y.core.now <= now
    modifies q.ready`items, q.delayed`items, q.inflight`items, q.byID.Values`index, q.byID.Values`state
    modifies q.byID.Values`effPriority, q.byID.Values`deadline, q`counters
    ensures LegalSteps(y, run) && StandsFor(j, q, RunSteps(y, run), b)
    ensures ok ==>
              var deadline := now + if visibility <= 0 then q.cfg.visibilityMS * 1_000_000 else visibility;
              run == [Operate(J.EvDequeue(IdsOf(out), deadline), now)]
    ensures !ok ==> run == []
    // Nothing is handed out before its time, and nothing but live messages as they are.
    ensures forall x :: x in out ==> x.m.visibleAt <= now && x.m.id in y.core.s.live && x.m == y.core.s.live[x.m.id].m
  {
    hide Inv, LegalSteps, RunSteps, Queue.Structure, Queue.Abs, L.Log.Valid, Framed, G.Do, G.Enabled, J.After, Do,
      Enabled, J.Enabled, FrameOf, G.Refuses, EncodedAll, G.Written, Promote,
      SortedReady, DistinctSeqs, Lease, IdsOf, CopiesOf, HandedOut, FirstInLine;
    StuckHasFailed(y);
    Orderly(y);
    q.AbsLive();
    ok, out := q.Dequeue(max, visibility, now);
    if ok {
      ghost var deadline := now + if visibility <= 0 then q.cfg.VisibilityTimeout() else visibility;
      run := [Operate(J.EvDequeue(IdsOf(out), deadline), now)];
      DequeueAllowed(y, IdsOf(out), deadline, now);
      QuietStep(y, J.EvDequeue(IdsOf(out), deadline), now);
      NothingEarly(y, q.Abs(), out, deadline, now);
    } else {
      run := [];
      NoSteps(y);
    }
  }

  lemma NothingEarly(y: Sys, t: State, out: seq<LeasedCopy>, deadline: int, now: int)
    requires Inv(y) && y.core.now <= now && CopiesOf(Promote(y.core.s, now), out, deadline)
    requires HandedOut(y.core.s, t, J.Elements(IdsOf(out)), deadline, now)
    ensures forall x :: x in out ==> x.m.visibleAt <= now && x.m.id in y.core.s.live && x.m == y.core.s.live[x.m.id].m
  {
    hide G.Inv, InStep, WaitingSafe, DoneSafe, PhaseInv, J.PrefixesFold, J.LogFits, J.ImageFits, IFold, Tracks,
      ReadyNow, Promote, J.Small;
    PromoteMeans(y.core.s, now);
    forall x | x in out
      ensures x.m.visibleAt <= now && x.m.id in y.core.s.live && x.m == y.core.s.live[x.m.id].m
    {
      var i :| 0 <= i < |out| && out[i] == x;
      assert IdsOf(out)[i] == x.m.id;
      assert x.m.id in J.Elements(IdsOf(out));
      assert J.EntryFits(y.core.s.live[x.m.id], y.core.now);
    }
  }

  lemma DequeueAllowed(y: Sys, ids: seq<bytes>, deadline: int, now: int)
    requires deadline > now && DistinctSeqs(Promote(y.core.s, now)) && ids <= SortedReady(Promote(y.core.s, now))
    ensures J.Enabled(y.core.s, y.core.used, J.EvDequeue(ids, deadline), now)
    ensures J.After(y.core.s, J.EvDequeue(ids, deadline), now) ==
            Lease(Promote(y.core.s, now), J.Elements(ids), deadline)
  {
  }

  method Tick(j: ConfigCodec, q: Queue, now: int, ghost y: Sys, ghost b: W.Books)
    returns (next: Option<int>, maxBatch: nat, compact: bool, ghost ids: seq<bytes>, ghost run: seq<Step>)
    requires StandsFor(j, q, y, b) && MutexFree(y) && y.core.now <= now && FitsInt64(now)
    modifies q`dlq, q`failed, q`counters, q`dedup, q`lastAge, q`lastPurge
    modifies q.ready`items, q.delayed`items, q.inflight`items
    modifies q.byID.Values`index, q.byID.Values`attempts, q.byID.Values`visibleAt, q.byID.Values`state
    modifies q.byID.Values`effPriority, q.log
    ensures LegalSteps(y, run) && StandsFor(j, q, RunSteps(y, run), b)
    ensures y.failed || y.closed ==> run == [] && !compact
    ensures !y.failed && !y.closed ==>
              run == TickRun(ids, now, q.failed,
                             q.cfg.agingIntervalMS > 0 && now - old(q.lastAge) >= q.cfg.agingIntervalMS * 1_000_000,
                             now - old(q.lastPurge) >= 30_000_000_000)
    // A compaction is asked for only when the books allow one.
    ensures compact ==> forall n :: W.Enabled(b, W.Compact(n))
  {
    hide Inv, LegalSteps, RunSteps, Queue.Structure, Queue.Abs, L.Log.Valid, Framed, G.Do, G.Enabled, J.After, Do,
      Enabled, J.Enabled, FrameOf, G.Refuses, EncodedAll, G.Written, Tidied, Ticked,
      ExpireIds, Promote, Expired, G.Appended, ExpiryFrames, IsNext, NothingPast, UsedUp, TickRun, AllTicked;
    StuckHasFailed(y);
    ghost var p, was := q.log.protocol, q.log.size;
    q.log.SizeIsWritten();
    FramingAnswers(j, y.wal);
    ghost var aging := q.cfg.AgingInterval() > 0 && now - q.lastAge >= q.cfg.AgingInterval();
    ghost var purging := now - q.lastPurge >= DEDUP_PURGE_INTERVAL;
    next, maxBatch, compact, ids := q.Tick(now);
    AppendsKeepSize(q.log, was, p, ExpiryFrames(ids));
    if y.failed || y.closed {
      run := [];
      NoSteps(y);
      NothingAppended(p);
    } else {
      run := TickRun(ids, now, q.failed, aging, purging);
      TickIsARun(j, y, ids, now, q.failed, aging, purging);
    }
  }

  lemma AppendsKeepSize(l: L.Log, was: nat, p: G.LogState<Frame>, fs: seq<Frame>)
    requires l.Valid() && p.from <= p.synced <= |p.batches| && was == |EncodedAll(G.Written(p))|
    requires l.protocol == G.Appended(p, fs)
    ensures l.size == was
  {
    hide EncodedAll, L.Log.Valid;
    assert p.batches[..|p.batches|] == p.batches;
    SizeKept(l, was, p);
  }

  lemma NothingAppended(p: G.LogState<Frame>)
    ensures G.Appended(p, ExpiryFrames([])) == p
  {
    ExpiryFramesMore([], []);
  }

  // The wait of a call, or of what answers no client: a Nack, or a tick's expiries.
  method WaitDurable(j: ConfigCodec, q: Queue, batch: nat, ghost op: Option<Op>, ghost y: Sys, ghost b: W.Books)
    returns (v: G.Verdict, ghost run: seq<Step>)
    requires StandsFor(j, q, y, b) && MutexFree(y) && (op.Some? ==> (op.value, batch) in y.pending)
    modifies q`failed
    ensures LegalSteps(y, run) && StandsFor(j, q, RunSteps(y, run), b)
    ensures run == if v == G.Nil && op.Some? then [Succeeds(op.value, batch)]
                   else if v == G.Failed && op.Some? then [Fails(op.value, batch)]
                   else if v == G.Failed && !y.failed then [Refused]
                   else []
  {
    hide Inv, LegalSteps, RunSteps, Queue.Structure, Queue.Abs, L.Log.Valid, Framed, G.Do, G.Enabled, J.After, Do,
      Enabled, J.Enabled, FrameOf, G.Refuses, EncodedAll, G.Written, G.Wait;
    StuckHasFailed(y);
    FailedIsFatal(y.wal, batch);
    FramingAnswers(j, y.wal);
    v := q.WaitDurable(batch);
    run := if v == G.Nil && op.Some? then [Succeeds(op.value, batch)]
           else if v == G.Failed && op.Some? then [Fails(op.value, batch)]
           else if v == G.Failed && !y.failed then [Refused]
           else [];
    if v != G.Blocked && op.Some? {
      WaitEnds(y, op.value, batch, v);
    } else if v == G.Failed && !y.failed {
      RefusedStep(y);
    } else {
      NoSteps(y);
    }
  }

  lemma FailedIsFatal(l: G.LogState<LogRec>, batch: nat)
    ensures G.Wait(l, batch) == G.Failed ==> G.Refuses(l)
  {
  }

  lemma WaitEnds(y: Sys, op: Op, batch: nat, v: G.Verdict)
    requires Inv(y) && (op, batch) in y.pending && v == G.Wait(y.wal, batch) && v != G.Blocked
    ensures var step := if v == G.Nil then Succeeds(op, batch) else Fails(op, batch);
            var z := RunSteps(y, [step]);
            && LegalSteps(y, [step]) && Inv(z) && z.core == y.core && z.wal == y.wal && z.closed == y.closed
            && z.failed == (y.failed || v == G.Failed)
  {
    hide Inv, LegalSteps, RunSteps, G.Wait;
    OneStep(y, if v == G.Nil then Succeeds(op, batch) else Fails(op, batch));
  }

  method Close(j: ConfigCodec, q: Queue, ghost y: Sys, ghost b: W.Books)
    requires StandsFor(j, q, y, b) && MutexFree(y)
    modifies q`closed
    ensures LegalSteps(y, [Step.Close]) && StandsFor(j, q, RunSteps(y, [Step.Close]), b)
  {
    hide Inv, LegalSteps, RunSteps, Queue.Structure, Queue.Abs, L.Log.Valid, Framed, G.Do, G.Enabled, J.After, Do,
      Enabled, J.Enabled, FrameOf, G.Refuses, EncodedAll, G.Written;
    q.Close();
    CloseStep(y);
  }

  lemma CloseStep(y: Sys)
    requires Inv(y) && MutexFree(y)
    ensures LegalSteps(y, [Step.Close]) && RunSteps(y, [Step.Close]) == y.(closed := true) && Inv(y.(closed := true))
  {
    hide Inv, LegalSteps, RunSteps;
    OneStep(y, Step.Close);
  }

  // The flusher and the closer of the log.

  method ReceiveSignal(j: ConfigCodec, q: Queue, ghost y: Sys, ghost b: W.Books)
    requires StandsFor(j, q, y, b) && q.log.protocol.flusher.Idle? && q.log.signal
    modifies q.log
    ensures LegalSteps(y, [LogRuns(G.Wake)]) && StandsFor(j, q, RunSteps(y, [LogRuns(G.Wake)]), b)
  {
    hide Inv, LegalSteps, RunSteps, Queue.Structure, Queue.Abs, L.Log.Valid, Framed, G.Do, G.Enabled, J.After, Do,
      Enabled, J.Enabled, FrameOf, G.Refuses, EncodedAll, G.Written;
    WakeEnabled(q.log);
    ghost var p, was := q.log.protocol, q.log.size;
    q.log.SizeIsWritten();
    q.log.ReceiveSignal();
    LogStep(j, y, G.Wake);
    SameFile(q.log, was, p, G.Wake);
  }

  lemma WakeEnabled(l: L.Log)
    requires l.Valid() && l.protocol.flusher.Idle? && l.signal
    ensures G.Enabled(l.protocol, G.Wake)
  {
    hide EncodedAll, G.Inv;
  }

  lemma SameFile(l: L.Log, was: nat, p: G.LogState<Frame>, s: G.Step<Frame>)
    requires l.Valid() && G.Inv(p) && p.from <= p.synced <= |p.batches| && was == |EncodedAll(G.Written(p))|
    requires G.Enabled(p, s) && l.protocol == G.Do(p, s) && !s.Finish? && !s.Reopened?
    ensures l.size == was
  {
    hide EncodedAll, L.Log.Valid, G.Inv, G.Written, G.Do, G.Enabled;
    L.WrittenKept(p, s);
    l.SizeIsWritten();
  }

  method FlushBegin(j: ConfigCodec, q: Queue, ghost y: Sys, ghost b: W.Books)
    returns (work: bool, data: bytes, ghost records: seq<Frame>)
    requires StandsFor(j, q, y, b) && q.log.protocol.flusher.Woken?
    modifies q.log
    ensures LegalSteps(y, [LogRuns(G.Take)]) && StandsFor(j, q, RunSteps(y, [LogRuns(G.Take)]), b)
    ensures work ==> q.log.protocol.flusher.Writing? && data == EncodedAll(records)
                     && |q.log.protocol.batches| > 0
                     && records == q.log.protocol.batches[|q.log.protocol.batches| - 1]
  {
    hide Inv, LegalSteps, RunSteps, Queue.Structure, Queue.Abs, L.Log.Valid, Framed, G.Do, G.Enabled, J.After, Do,
      Enabled, J.Enabled, FrameOf, G.Refuses, EncodedAll, G.Written;
    TakeEnabled(q.log);
    ghost var p, was := q.log.protocol, q.log.size;
    q.log.SizeIsWritten();
    work, data, records := q.log.FlushBegin();
    if work { WritingHasBatch(q.log); }
    LogStep(j, y, G.Take);
    SameFile(q.log, was, p, G.Take);
  }

  lemma TakeEnabled(l: L.Log)
    requires l.Valid() && l.protocol.flusher.Woken?
    ensures G.Enabled(l.protocol, G.Take)
  {
    hide EncodedAll, G.Inv;
  }

  lemma WritingHasBatch(l: L.Log)
    requires l.Valid() && l.protocol.flusher.Writing?
    ensures |l.protocol.batches| > 0
  {
    hide EncodedAll;
  }

  // A write that succeeds is an entry in the books: the log has grown by what was written.
  method FlushEnd(j: ConfigCodec, q: Queue, batch: nat, data: bytes, written: bool, ghost y: Sys, ghost b: W.Books)
    requires StandsFor(j, q, y, b) && q.log.protocol.flusher.Writing?
    requires 0 < batch == |q.log.protocol.batches| && data == EncodedAll(q.log.protocol.batches[batch - 1])
    modifies q.log
    ensures LegalSteps(y, [LogRuns(G.Finish(written))])
    ensures StandsFor(j, q, RunSteps(y, [LogRuns(G.Finish(written))]),
                      if written then W.Do(b, W.Flush(|data|)) else b)
  {
    hide Inv, LegalSteps, RunSteps, Queue.Structure, Queue.Abs, L.Log.Valid, Framed, G.Do, G.Enabled, J.After, Do,
      Enabled, J.Enabled, FrameOf, G.Refuses, EncodedAll, G.Written;
    FinishEnabled(q.log, written);
    q.log.FlushEnd(batch, data, written);
    LogStep(j, y, G.Finish(written));
  }

  lemma FinishEnabled(l: L.Log, written: bool)
    requires l.Valid() && l.protocol.flusher.Writing?
    ensures G.Enabled(l.protocol, G.Finish(written))
  {
    hide EncodedAll, G.Inv;
  }

  // A turn of the loop in Sync, through which Compact waits.
  method SyncTurn(j: ConfigCodec, q: Queue, ghost y: Sys, ghost b: W.Books) returns (v: G.Verdict, ghost run: seq<Step>)
    requires StandsFor(j, q, y, b)
    modifies q.log
    ensures LegalSteps(y, run) && StandsFor(j, q, RunSteps(y, run), b) && v == G.Sync(y.wal)
    ensures run == if v == G.Blocked && y.wal.buf != [] then [LogRuns(G.Kick)] else []
  {
    hide Inv, LegalSteps, RunSteps, Queue.Structure, Queue.Abs, L.Log.Valid, Framed, G.Do, G.Enabled, J.After, Do,
      Enabled, J.Enabled, FrameOf, G.Refuses, EncodedAll, G.Written, G.Sync;
    FramingAnswers(j, y.wal);
    ghost var p, was := q.log.protocol, q.log.size;
    q.log.SizeIsWritten();
    FramedBuffer(j, y.wal);
    v := q.log.Sync();
    if v == G.Blocked && y.wal.buf != [] {
      run := [LogRuns(G.Kick)];
      KickEnabled(p);
      LogStep(j, y, G.Kick);
      SameFile(q.log, was, p, G.Kick);
    } else {
      run := [];
      NoSteps(y);
      SizeKept(q.log, was, p);
    }
  }

  lemma FramedBuffer(j: ConfigCodec, l: G.LogState<LogRec>)
    ensures |Framed(j, l).buf| == |l.buf|
  {
  }

  lemma KickEnabled(l: G.LogState<Frame>)
    requires G.Sync(l) == G.Blocked && |l.buf| > 0
    ensures G.Enabled(l, G.Kick)
  {
  }

  // The log's Close, which Queue.Close calls once the timer has stopped.
  method CloseLog(j: ConfigCodec, q: Queue, ghost y: Sys, ghost b: W.Books) returns (ghost run: seq<Step>)
    requires StandsFor(j, q, y, b) && q.closed
    modifies q.log
    ensures LegalSteps(y, run) && StandsFor(j, q, RunSteps(y, run), b)
    ensures run == if y.wal.closed then [] else [LogRuns(G.CloseBegins)]
  {
    hide Inv, LegalSteps, RunSteps, Queue.Structure, Queue.Abs, L.Log.Valid, Framed, G.Do, G.Enabled, J.After, Do,
      Enabled, J.Enabled, FrameOf, G.Refuses, EncodedAll, G.Written;
    ghost var p, was := q.log.protocol, q.log.size;
    q.log.SizeIsWritten();
    ClosingEnabled(j, y, q.log);
    var first := q.log.BeginClose();
    if first {
      run := [LogRuns(G.CloseBegins)];
      LogStep(j, y, G.CloseBegins);
      SameFile(q.log, was, p, G.CloseBegins);
    } else {
      run := [];
      NoSteps(y);
      SizeKept(q.log, was, p);
    }
  }

  lemma ClosingEnabled(j: ConfigCodec, y: Sys, l: L.Log)
    requires l.Valid() && l.protocol == Framed(j, y.wal)
    ensures l.closed == y.wal.closed && (G.Enabled(l.protocol, G.CloseBegins) <==> !l.closed)
  {
    hide EncodedAll, G.Inv, FramedBatches, FramesOf;
  }

  // done is closed, and the flusher sees it.

  ghost method CloseDone(j: ConfigCodec, q: Queue, y: Sys, b: W.Books)
    requires StandsFor(j, q, y, b) && q.log.closed && !q.log.protocol.done
    modifies q.log`protocol
    ensures LegalSteps(y, [LogRuns(G.DoneCloses)]) && StandsFor(j, q, RunSteps(y, [LogRuns(G.DoneCloses)]), b)
  {
    hide Inv, LegalSteps, RunSteps, Queue.Structure, Queue.Abs, L.Log.Valid, Framed, G.Do, G.Enabled, J.After, Do,
      Enabled, J.Enabled, FrameOf, G.Refuses, EncodedAll, G.Written;
    DoneEnabled(q.log);
    q.log.CloseDone();
    LogStep(j, y, G.DoneCloses);
  }

  ghost method ReceiveDone(j: ConfigCodec, q: Queue, y: Sys, b: W.Books)
    requires StandsFor(j, q, y, b) && q.log.protocol.flusher.Idle? && q.log.protocol.done
    modifies q.log`protocol
    ensures LegalSteps(y, [LogRuns(G.WakeDone)]) && StandsFor(j, q, RunSteps(y, [LogRuns(G.WakeDone)]), b)
  {
    hide Inv, LegalSteps, RunSteps, Queue.Structure, Queue.Abs, L.Log.Valid, Framed, G.Do, G.Enabled, J.After, Do,
      Enabled, J.Enabled, FrameOf, G.Refuses, EncodedAll, G.Written;
    DoneEnabled(q.log);
    q.log.ReceiveDone();
    LogStep(j, y, G.WakeDone);
  }

  lemma DoneEnabled(l: L.Log)
    requires l.Valid()
    ensures l.closed && !l.protocol.done ==> G.Enabled(l.protocol, G.DoneCloses)
    ensures l.protocol.flusher.Idle? && l.protocol.done ==> G.Enabled(l.protocol, G.WakeDone)
  {
    hide EncodedAll, G.Inv;
  }

  // Compaction.

  function CompactRun(r: Compaction, now: int, fatal: bool): seq<Step> {
    match r
    case SyncFailed => [Refused]
    case Unsettled(recs) => [Snapshot(recs, now), Rename] + [SyncDir(false)]
    case NotReopened(recs) =>
      [Snapshot(recs, now), Rename] + [SyncDir(true)] + [Reopen(if fatal then OpenFailed else CloseFailed)]
    case Compacted(recs) => [Snapshot(recs, now), Rename] + [SyncDir(true)] + [Reopen(Swapped)]
    case _ => []
  }

  // Up to the rename.
  lemma SwapBegins(y: Sys, recs: seq<LogRec>, now: int)
    requires Inv(y) && Open(y, now) && G.Sync(y.wal) == G.Nil && IsSnapshot(recs, y.core.s, now)
    ensures var run := [Snapshot(recs, now), Rename]; var z := RunSteps(y, run);
            && LegalSteps(y, run) && Inv(z) && z == y.(core := y.core.(now := now), phase := Renamed(recs))
  {
    hide Inv, LegalSteps, RunSteps, IsSnapshot, G.Sync;
    OneStep(y, Snapshot(recs, now));
    OneMoreStep(y, [Snapshot(recs, now)], Rename);
    assert [Snapshot(recs, now)] + [Rename] == [Snapshot(recs, now), Rename];
  }

  // Up to the directory fsync.
  lemma SwapSettles(y: Sys, recs: seq<LogRec>, now: int, ok: bool)
    requires Inv(y) && Open(y, now) && G.Sync(y.wal) == G.Nil && IsSnapshot(recs, y.core.s, now)
    ensures var run := [Snapshot(recs, now), Rename] + [SyncDir(ok)]; var z := RunSteps(y, run);
            && LegalSteps(y, run) && Inv(z)
            && z == y.(core := y.core.(now := now), phase := if ok then Installed(recs) else Stuck(recs, false),
                       failed := !ok)
  {
    hide Inv, LegalSteps, RunSteps, IsSnapshot, G.Sync;
    SwapBegins(y, recs, now);
    OneMoreStep(y, [Snapshot(recs, now), Rename], SyncDir(ok));
  }

  // And to the end.
  lemma SwapEnds(j: ConfigCodec, y: Sys, recs: seq<LogRec>, now: int, result: ReopenResult)
    requires Inv(y) && Open(y, now) && G.Sync(y.wal) == G.Nil && IsSnapshot(recs, y.core.s, now)
    ensures var run := [Snapshot(recs, now), Rename] + [SyncDir(true)] + [Reopen(result)]; var z := RunSteps(y, run);
            && LegalSteps(y, run) && Inv(z) && z.core.s == y.core.s && !z.closed
            && (result == Swapped ==> z.wal == G.Do(y.wal, G.Reopened(recs)))
            && z.failed == (result != Swapped)
            && z.phase == (if result == Swapped then Serving else Stuck(recs, true))
            && Framed(j, z.wal) == (match result
                                    case Swapped => G.Do(Framed(j, y.wal), G.Reopened(FramesOf(j, recs)))
                                    case OpenFailed => G.Do(Framed(j, y.wal), G.ReopenFailed)
                                    case CloseFailed => Framed(j, y.wal))
  {
    hide Inv, LegalSteps, RunSteps, IsSnapshot, G.Sync, G.Do, FramesOf, Framed;
    SwapSettles(y, recs, now, true);
    NotClosed(y);
    var run := [Snapshot(recs, now), Rename] + [SyncDir(true)];
    OneMoreStep(y, run, Reopen(result));
    FramingCommutes(j, y.wal, G.Reopened(recs));
    FramingCommutes(j, y.wal, G.ReopenFailed);
  }

  lemma NotClosed(y: Sys)
    requires Inv(y) && !y.closed
    ensures !y.wal.closed
  {
    hide J.Inv, G.Inv, WaitingSafe, DoneSafe, PhaseInv, G.Durable, G.Accepted;
  }

  method Compact(j: ConfigCodec, q: Queue, now: int, d: Files, faultAt: nat, faults: Faults, closes: bool, opens: bool,
                 ghost y: Sys, ghost b: W.Books)
    returns (r: Compaction, d': Files, ghost run: seq<Step>, ghost b': W.Books)
    requires StandsFor(j, q, y, b) && MutexFree(y) && y.core.now <= now && G.Sync(y.wal) != G.Blocked
    modifies q`failed, q`compactFloor, q`counters, q.log
    ensures LegalSteps(y, run) && StandsFor(j, q, RunSteps(y, run), b') && run == CompactRun(r, now, q.log.fatal)
    // A success is an entry in the books, with what the snapshot cost.
    ensures b' == if r.Compacted? then W.Do(b, W.Compact(q.log.size)) else b
    // And a crash finds a file the system allows for, if it would have before.
    ensures Faithful(j) && y.phase.Serving? && SystemFile(j, y, d) ==> OnDisk(j, RunSteps(y, run), d')
  {
    hide Inv, LegalSteps, RunSteps, Queue.Structure, Queue.Abs, L.Log.Valid, Framed, G.Do, G.Enabled, J.After, Do,
      Enabled, J.Enabled, FrameOf, G.Refuses, EncodedAll, G.Written, G.Sync,
      IsSnapshot, DistinctSeqs, FramesOf, OnDisk, Faithful, G.Inv;
    StuckHasFailed(y);
    Orderly(y);
    FramingAnswers(j, y.wal);
    ghost var p, was := q.log.protocol, q.log.size;
    q.log.SizeIsWritten();
    NotFatal(q.log);
    q.AbsLive();
    r, d' := q.Compact(j, now, d, faultAt, faults, closes, opens);
    NotFatal(q.log);
    run := CompactRun(r, now, q.log.fatal);
    b' := if r.Compacted? then W.Do(b, W.Compact(q.log.size)) else b;
    ReopenFailedKeeps(p);
    CompactIsARun(j, y, now, r, q.log.fatal, q.log.protocol);
    if !r.Compacted? { SizeKept(q.log, was, p); }
    SystemLog(y);
    if Faithful(j) && y.phase.Serving? && SystemFile(j, y, d) {
      FilesAreLeft(j, y, RunSteps(y, run), r, d, d');
    }
  }

  // What the outcome says of the log.
  ghost predicate LogAfter(j: ConfigCodec, y: Sys, now: int, r: Compaction, fatal: bool, p: G.LogState<Frame>) {
    match r
    case Unsettled(recs) => IsSnapshot(recs, y.core.s, now) && p == Framed(j, y.wal)
    case NotReopened(recs) =>
      && IsSnapshot(recs, y.core.s, now)
      && p == if fatal then G.Do(Framed(j, y.wal), G.ReopenFailed) else Framed(j, y.wal)
    case Compacted(recs) =>
      IsSnapshot(recs, y.core.s, now) && p == G.Do(Framed(j, y.wal), G.Reopened(FramesOf(j, recs)))
    case _ => p == Framed(j, y.wal)
  }

  // And of the phase.
  predicate EndsIn(y: Sys, r: Compaction, z: Sys) {
    match r
    case Unsettled(recs) => z.wal == y.wal && z.phase == Stuck(recs, false)
    case NotReopened(recs) => z.phase == Stuck(recs, true)
    case Compacted(recs) => z.phase == Serving && z.wal == G.Do(y.wal, G.Reopened(recs))
    case _ => z.wal == y.wal && z.phase == y.phase
  }

  predicate Fatal(r: Compaction) {
    r.SyncFailed? || r.Unsettled? || r.NotReopened?
  }

  lemma CompactIsARun(j: ConfigCodec, y: Sys, now: int, r: Compaction, fatal: bool, p: G.LogState<Frame>)
    requires Inv(y) && (!r.Turned? ==> Open(y, now)) && LogAfter(j, y, now, r, fatal, p)
    requires !r.Turned? ==> G.Sync(y.wal) == if r.SyncFailed? then G.Failed else G.Nil
    ensures LegalSteps(y, CompactRun(r, now, fatal))
    ensures var z := RunSteps(y, CompactRun(r, now, fatal));
            && Inv(z) && z.core.s == y.core.s && z.closed == y.closed && z.failed == (y.failed || Fatal(r))
            && Framed(j, z.wal) == p && EndsIn(y, r, z)
  {
    hide Inv, LegalSteps, RunSteps, IsSnapshot, G.Sync, G.Do, FramesOf, Framed, G.Refuses;
    NoSteps(y);
    match r {
      case SyncFailed =>
        FailedSyncIsFatal(y.wal);
        RefusedStep(y);
      case Unsettled(recs) => SwapSettles(y, recs, now, false);
      case NotReopened(recs) => SwapEnds(j, y, recs, now, if fatal then OpenFailed else CloseFailed);
      case Compacted(recs) => SwapEnds(j, y, recs, now, Swapped);
      case _ =>
    }
  }

  lemma NotFatal(l: L.Log)
    requires l.Valid()
    ensures l.fatal == l.protocol.fatal && (G.Sync(l.protocol) == G.Nil ==> !l.fatal)
  {
    hide EncodedAll, G.Inv;
  }

  lemma FailedSyncIsFatal(l: G.LogState<LogRec>)
    ensures G.Sync(l) == G.Failed ==> G.Refuses(l)
  {
  }

  lemma ReopenFailedKeeps(p: G.LogState<Frame>)
    ensures var l := G.Do(p, G.ReopenFailed);
            l.base == p.base && l.from == p.from && l.synced == p.synced && l.batches == p.batches && l.fatal
  {
  }

  // A file that holds what is written is as long as the log says it is.
  lemma SizeIsTheFiles(j: ConfigCodec, q: Queue, y: Sys, b: W.Books, d: Files)
    requires StandsFor(j, q, y, b) && G.Inv(y.wal) && SystemFile(j, y, d)
    ensures |d.log| == q.log.size == b.size
  {
    hide Inv, Queue.Structure, Queue.Abs, EncodedAll, FramesOf, G.Inv;
    LogInBounds(y.wal);
    q.log.SizeIsWritten();
    FramedWritten(j, y.wal);
  }

  // What the restart finds, record by record.
  ghost predicate Found(j: ConfigCodec, file: bytes, clock: seq<int>, r: State, recs: seq<LogRec>)
    requires |clock| == |ScanAll(file).frames|
  {
    var frames := ScanAll(file).frames;
    && frames == FramesOf(j, recs) && frames != [] && frames[0].typ == TYPE_META
    && Decoded(j, frames) == Some(recs) && Replayed(recs, clock) == Some(r)
    && forall i :: 0 <= i < |frames| ==> HarmlessMeta(j, frames, clock, i)
  }

  lemma RestartFinds(j: ConfigCodec, y: Sys, file: bytes, sure: nat, clock: seq<int>, now: int)
    returns (r: State, recs: seq<LogRec>)
    requires Inv(y) && Faithful(j) && CrashLeaves(j, y, file, sure) && ClockFits(y, file, clock, now)
    ensures Load(j, file, clock) == Loaded(r, recs, ScanAll(file).valid) && Found(j, file, clock, r, recs)
    ensures Inv(Restarted(y, r, recs, Opening(file, sure), now)) && Opening(file, sure) <= |recs|
  {
    hide Inv, Faithful, ScanAll, Load, Decoded, Replayed, CrashLeaves, HarmlessMeta, PromisesHold, FramesOf, EncodedAll,
      Restarted, Found, Opening, J.Inv;
    r, recs := CrashRecovers(j, y, file, sure, clock, now);
    RestartedCore(y, r, recs, Opening(file, sure), now);
    ScannedFrames(j, file, J.Core(r, now, recs, Opening(file, sure), y.core.used));
    LoadedMeans(j, file, clock, r, recs);
    MetaFirst(j, ScanAll(file).frames, clock, J.Core(r, now, recs, Opening(file, sure), y.core.used));
    IsFound(j, file, clock, r, recs);
  }

  lemma IsFound(j: ConfigCodec, file: bytes, clock: seq<int>, r: State, recs: seq<LogRec>)
    requires |clock| == |ScanAll(file).frames| && ScanAll(file).frames == FramesOf(j, recs) && recs != []
    requires ScanAll(file).frames[0].typ == TYPE_META
    requires Decoded(j, ScanAll(file).frames) == Some(recs) && Replayed(recs, clock) == Some(r)
    requires forall i :: 0 <= i < |clock| ==> HarmlessMeta(j, ScanAll(file).frames, clock, i)
    ensures Found(j, file, clock, r, recs)
  {
    hide ScanAll, Decoded, Replayed, HarmlessMeta;
  }

  lemma RestartedCore(y: Sys, r: State, recs: seq<LogRec>, sure: nat, now: int)
    requires Inv(Restarted(y, r, recs, sure, now))
    ensures J.Inv(J.Core(r, now, recs, sure, y.core.used)) && sure <= |recs| && recs != []
  {
    hide G.Inv, InStep, WaitingSafe, DoneSafe, PhaseInv, J.PrefixesFold, J.StateFits, J.ImageFits, IFold;
  }

  lemma ScannedFrames(j: ConfigCodec, file: bytes, c: J.Core)
    requires Faithful(j) && J.Inv(c)
    requires ScanAll(file).valid <= |file| && file[..ScanAll(file).valid] == EncodedAll(FramesOf(j, c.log))
    ensures ScanAll(file).frames == FramesOf(j, c.log)
  {
    LogRecordsFit(c);
    hide J.Inv, Faithful, J.RecFits, EncodedAll, FramesOf, ScanAll, Decoded;
    DecodedFrames(j, c.log, c.now);
    ScanEncoded(FramesOf(j, c.log));
    ReplaySoundOnAnyBytes(file);
  }

  lemma LoadedMeans(j: ConfigCodec, file: bytes, clock: seq<int>, r: State, recs: seq<LogRec>)
    requires |clock| == |ScanAll(file).frames| && Load(j, file, clock) == Loaded(r, recs, ScanAll(file).valid)
    ensures Decoded(j, ScanAll(file).frames) == Some(recs) && |recs| == |clock| && Replayed(recs, clock) == Some(r)
  {
    hide ScanAll, Decoded, Replayed;
  }

  // The log of a queue has one META record, its first, so its ready heap is never disturbed.
  lemma MetaFirst(j: ConfigCodec, frames: seq<Frame>, clock: seq<int>, c: J.Core)
    requires J.Inv(c) && frames == FramesOf(j, c.log) && |clock| == |frames|
    ensures frames != [] && frames[0].typ == TYPE_META
    ensures forall i :: 0 <= i < |frames| ==> HarmlessMeta(j, frames, clock, i)
  {
    hide IFold, J.PrefixesFold, J.StateFits, J.ImageFits, J.RecFits, HarmlessMeta, Tracks;
    FirstMetaIsHarmless(j, frames, clock);
  }

  lemma FramedOpened(j: ConfigCodec, recs: seq<LogRec>, sure: nat)
    ensures Framed(j, G.Opened(recs, sure)) == G.Opened(FramesOf(j, recs), sure)
  {
    assert FramesOf(j, []) == [];
  }

  // Restart after a crash at any moment: Replay, apply and Open give a queue and a log that stand for the recovered
  // system.
  method Restart(j: ConfigCodec, file: bytes, ghost sure: nat, clock: seq<int>, now: int, ghost y: Sys)
    returns (q: Queue, ghost b: W.Books)
    requires Inv(y) && Faithful(j) && CrashLeaves(j, y, file, sure) && ClockFits(y, file, clock, now)
    ensures StandsFor(j, q, After(j, y, CrashAndLoad(file, sure, clock, now)), b)
    ensures b == W.Books(q.log.size, 0, 8_388_608, [], 0)
  {
    hide Inv, Queue.Structure, Queue.Abs, L.Log.Valid, Framed, EncodedAll, FramesOf, Faithful, ScanAll, Load, Decoded,
      Replayed, CrashLeaves, HarmlessMeta, PromisesHold, G.Inv, Opening;
    ghost var r, recs := RestartFinds(j, y, file, sure, clock, now);
    ghost var safe := Opening(file, sure);
    FramedOpened(j, recs, safe);
    OpeningIs(file, sure);
    var frames, offsets, valid, ending := Replay.Replay(file);
    var l := new L.Log(frames, safe, valid, |file|);
    q := new Queue(l);
    var ok := q.Load(j, frames, clock);
    b := W.Books(q.log.size, 0, DEFAULT_COMPACT_THRESHOLD, [], 0);
  }

  // Opening cuts the file exactly if more is there than was verified.
  lemma OpeningIs(file: bytes, sure: nat)
    ensures ScanAll(file).valid <= |file|
    ensures ScanAll(file).valid != |file| ==> Opening(file, sure) == |ScanAll(file).frames|
  {
    hide ScanAll;
    ReplaySoundOnAnyBytes(file);
  }
}
