// The whole system: queue operations, the group-commit log, compaction, and crashes, interleaved.
module CrashSafety {
  import opened Bytes
  import opened Seqs
  import opened Messages
  import opened Record
  import opened Replay
  import opened QueueState
  import opened Images
  import opened Invariants
  import J = Journal
  import opened Snapshots
  import opened Restarts
  import opened Wire
  import opened Loading
  import G = GroupCommit

  // A client call that appended a record and is, or was, waiting for its batch.
  datatype Op = EnqueueOp(m: Msg) | AckOp(id: bytes)

  // Compact holds the queue mutex from its snapshot to its end; Stuck is its failure after the rename.
  datatype Phase =
    | Serving
    | Snapshotted(snap: seq<LogRec>) // the temp file is complete and fsynced
    | Renamed(snap: seq<LogRec>)     // it is at the log's path, the directory not yet fsynced
    | Installed(snap: seq<LogRec>)   // the directory is fsynced, the log not yet reopened
    | Stuck(snap: seq<LogRec>, durable: bool)

  datatype Sys = Sys(
    core: J.Core,
    wal: G.LogState<LogRec>,
    failed: bool,
    closed: bool,
    pending: set<(Op, nat)>,
    acknowledged: set<Op>,
    ackIssued: set<bytes>,
    phase: Phase)

  datatype Step =
    | Operate(e: J.Event, now: int)
    | Refused                                 // an Append, a Sync or a wait that answers no client reported an error
    | Succeeds(op: Op, batch: nat)            // Wait returned nil, and so does the call
    | Fails(op: Op, batch: nat)               // Wait returned the fatal error: the queue fails
    | LogRuns(s: G.Step<LogRec>)              // the flusher, Sync's kick, or the log's Close
    | Snapshot(recs: seq<LogRec>, now: int)   // Sync returned nil, then the temp file was written
    | SnapshotFails                           // anything before the rename: the queue carries on
    | Rename
    | SyncDir(ok: bool)
    | Reopen(result: ReopenResult)
    | Close

  // Reopen closes the old descriptor, then opens the path again. Only the second failure marks the log itself.
  datatype ReopenResult = Swapped | CloseFailed | OpenFailed

  predicate LogStepAllowed(y: Sys, s: G.Step<LogRec>) {
    match s
    case Append(_) => false
    case Reopened(_) => false
    case ReopenFailed => false
    case CloseBegins => y.closed
    case _ => true
  }

  // What a tick still does after an append of its own has failed the queue.
  predicate Background(e: J.Event) {
    e.EvAge? || e.EvPurge?
  }

  ghost predicate Enabled(y: Sys, step: Step) {
    match step
    case Operate(e, now) =>
      && y.phase.Serving? && (!y.failed || Background(e)) && !y.closed
      && y.core.now <= now && J.Enabled(y.core.s, y.core.used, e, now)
      && (J.RecsOf(e) != [] ==> !y.wal.fatal && !y.wal.closed)
    case Refused => y.phase.Serving? && (y.wal.fatal || y.wal.closed)
    case Succeeds(op, batch) => (op, batch) in y.pending && G.Wait(y.wal, batch) == G.Nil
    case Fails(op, batch) => (op, batch) in y.pending && G.Wait(y.wal, batch) == G.Failed
    case LogRuns(s) => LogStepAllowed(y, s) && G.Enabled(y.wal, s)
    case Snapshot(recs, now) =>
      && y.phase.Serving? && !y.failed && !y.closed && G.Sync(y.wal) == G.Nil
      && y.core.now <= now && IsSnapshot(recs, y.core.s, now)
    case SnapshotFails => y.phase.Snapshotted?
    case Rename => y.phase.Snapshotted?
    case SyncDir(_) => y.phase.Renamed?
    case Reopen(_) => y.phase.Installed? && !y.wal.closed
    case Close => y.phase.Serving? || y.phase.Stuck?
  }

  function OpOf(e: J.Event): set<Op> {
    match e
    case EvEnqueue(m) => {EnqueueOp(m)}
    case EvAck(id) => {AckOp(id)}
    case _ => {}
  }

  function Waiting(e: J.Event, batch: nat): set<(Op, nat)> {
    match e
    case EvEnqueue(m) => {(EnqueueOp(m), batch)}
    case EvAck(id) => {(AckOp(id), batch)}
    case _ => {}
  }

  function Logged(wal: G.LogState<LogRec>, e: J.Event): G.LogState<LogRec> {
    if J.RecsOf(e) == [] then wal else G.Do(wal, G.Append(J.RecsOf(e)[0]))
  }

  function Do(y: Sys, step: Step): Sys {
    match step
    case Operate(e, now) =>
      y.(core := J.Next(y.core, e, now), wal := Logged(y.wal, e),
         pending := y.pending + Waiting(e, y.wal.NextSeq()),
         ackIssued := y.ackIssued + (if e.EvAck? then {e.id} else {}))
    case Refused => y.(failed := true)
    case Succeeds(op, batch) => y.(pending := y.pending - {(op, batch)}, acknowledged := y.acknowledged + {op})
    case Fails(op, batch) => y.(pending := y.pending - {(op, batch)}, failed := true)
    case LogRuns(s) => y.(wal := G.Do(y.wal, s))
    case Snapshot(recs, now) => y.(core := y.core.(now := now), phase := Snapshotted(recs))
    case SnapshotFails => y.(phase := Serving)
    case Rename => if y.phase.Snapshotted? then y.(phase := Renamed(y.phase.snap)) else y
    case SyncDir(ok) =>
      if !y.phase.Renamed? then y
      else if ok then y.(phase := Installed(y.phase.snap))
      else y.(phase := Stuck(y.phase.snap, false), failed := true)
    case Reopen(result) =>
      if !y.phase.Installed? then y
      else (match result
            case Swapped => Compacted(y, y.phase.snap)
            case CloseFailed => y.(phase := Stuck(y.phase.snap, true), failed := true)
            case OpenFailed =>
              y.(wal := G.Do(y.wal, G.ReopenFailed), phase := Stuck(y.phase.snap, true), failed := true))
    case Close => y.(closed := true)
  }

  function Compacted(y: Sys, snap: seq<LogRec>): Sys {
    y.(wal := G.Do(y.wal, G.Reopened(snap)), core := y.core.(log := snap, base := |snap|), phase := Serving)
  }

  // The files that can be left when the process dies, and how many of the records in it are then sure to be on the
  // disk: all of them after a power cut, which leaves what the disk held; after the process alone is killed, at least
  // those that were before. Between the rename and the directory fsync it may be either log; the snapshot was fsynced.
  ghost predicate CrashLeaves(j: ConfigCodec, y: Sys, file: bytes, sure: nat)
    requires G.Inv(y.wal)
  {
    match y.phase
    case Serving => OldLogLeft(j, y, file, sure)
    case Snapshotted(_) => OldLogLeft(j, y, file, sure)
    case Renamed(snap) => OldLogLeft(j, y, file, sure) || SnapshotLeft(j, snap, file, sure)
    case Installed(snap) => SnapshotLeft(j, snap, file, sure)
    case Stuck(snap, durable) => (OldLogLeft(j, y, file, sure) && !durable) || SnapshotLeft(j, snap, file, sure)
  }

  ghost predicate OldLogLeft(j: ConfigCodec, y: Sys, file: bytes, sure: nat)
    requires G.Inv(y.wal)
  {
    && CrashCut(j, G.Durable(y.wal), G.InDoubt(y.wal), file)
    && |G.Durable(y.wal)| <= sure <= |ScanAll(file).frames|
  }

  predicate SnapshotLeft(j: ConfigCodec, snap: seq<LogRec>, file: bytes, sure: nat) {
    file == EncodedAll(FramesOf(j, snap)) && sure == |snap|
  }

  predicate SameBody(a: Msg, b: Msg) {
    a == b.(attempts := a.attempts, visibleAt := a.visibleAt)
  }

  // What a log promises a client whose call is done.
  predicate Holds(v: Image, op: Op, ackIssued: set<bytes>) {
    match op
    case EnqueueOp(m) => m.id in ackIssued || (m.id in v.msgs && SameBody(v.msgs[m.id].m, m))
    case AckOp(id) => id !in v.msgs
  }

  // The promise is kept by every prefix of the log that has at least its first n records.
  ghost predicate Settled(log: seq<LogRec>, n: nat, op: Op, ackIssued: set<bytes>) {
    forall k :: n <= k <= |log| && IFold(log[..k]).Some? ==> Holds(IFold(log[..k]).value, op, ackIssued)
  }

  predicate Named(op: Op, used: set<bytes>) {
    match op
    case EnqueueOp(m) => m.id in used
    case AckOp(id) => id in used
  }

  ghost predicate Inv(y: Sys) {
    J.Inv(y.core) && G.Inv(y.wal) && InStep(y) && WaitingSafe(y) && DoneSafe(y) && PhaseInv(y)
  }

  // The log of the protocol is the queue's, and a crash cannot cut below where the queue could restart from.
  ghost predicate InStep(y: Sys)
    requires G.Inv(y.wal)
  {
    G.Accepted(y.wal) == y.core.log && y.core.base <= |G.Durable(y.wal)| && (y.wal.closed ==> y.closed)
  }

  // A batch id that Append has handed out.
  predicate Batched(l: G.LogState<LogRec>, b: nat) {
    1 <= b <= |l.batches| + if l.buf == [] then 0 else 1
  }

  lemma BatchedStays(l: G.LogState<LogRec>, s: G.Step<LogRec>)
    requires G.Enabled(l, s)
    ensures forall b :: Batched(l, b) ==> Batched(G.Do(l, s), b)
    ensures s.Append? ==> Batched(G.Do(l, s), l.NextSeq())
  {
  }

  // A call that is still waiting is safe once its batch is on disk,
  ghost predicate WaitingSafe(y: Sys)
    requires G.Inv(y.wal)
  {
    forall p :: p in y.pending ==> Batched(y.wal, p.1) && Kept(y, G.End(y.wal, p.1), p.0)
  }

  // and one that has succeeded is safe now.
  ghost predicate DoneSafe(y: Sys)
    requires G.Inv(y.wal)
  {
    forall op :: op in y.acknowledged ==> Kept(y, |G.Durable(y.wal)|, op)
  }

  ghost predicate Kept(y: Sys, n: nat, op: Op) {
    Named(op, y.core.used) && Settled(y.core.log, n, op, y.ackIssued)
  }

  // While a snapshot exists, the log it replaces is complete on disk and the state it describes stands still.
  ghost predicate PhaseInv(y: Sys)
    requires G.Inv(y.wal)
  {
    match y.phase
    case Serving => true
    case Stuck(snap, _) => y.failed && IsSnapshot(snap, y.core.s, y.core.now) && G.Quiet(y.wal) &&
        y.wal.synced == |y.wal.batches|
    case _ => IsSnapshot(y.phase.snap, y.core.s, y.core.now) && G.Sync(y.wal) == G.Nil
  }

  lemma HoldsStep(v: Image, r: LogRec, op: Op, ackIssued: set<bytes>, issued': set<bytes>, used: set<bytes>)
    requires Holds(v, op, ackIssued) && IApply(v, r).Some? && ackIssued <= issued'
    requires r.AckRec? ==> r.id in issued'
    requires Named(op, used) && (r.EnqueueRec? ==> r.m.id !in used)
    ensures Holds(IApply(v, r).value, op, issued')
  {
    hide Validate;
  }

  lemma SettledLater(log: seq<LogRec>, n: nat, n': nat, op: Op, ackIssued: set<bytes>)
    requires Settled(log, n, op, ackIssued) && n <= n'
    ensures Settled(log, n', op, ackIssued)
  {
    hide IFold, Holds;
  }

  // A promise outlives one more record, Ack records included.
  lemma SettledGrows(log: seq<LogRec>, r: LogRec, n: nat, op: Op, ackIssued: set<bytes>, issued': set<bytes>,
        used: set<bytes>)
    requires Settled(log, n, op, ackIssued) && n <= |log| && ackIssued <= issued'
    requires IFold(log).Some?
    requires r.AckRec? ==> r.id in issued'
    requires Named(op, used) && (r.EnqueueRec? ==> r.m.id !in used)
    ensures Settled(log + [r], n, op, issued')
  {
    var log' := log + [r];
    FoldSnoc(log, r);
    hide IFold, IApply;
    assert log[..|log|] == log;
    forall k | n <= k <= |log'| && IFold(log'[..k]).Some? ensures Holds(IFold(log'[..k]).value, op, issued') {
      if k <= |log| {
        assert log'[..k] == log[..k];
        assert Holds(IFold(log[..k]).value, op, ackIssued);
      } else {
        assert log'[..k] == log';
        HoldsStep(IFold(log).value, r, op, ackIssued, issued', used);
      }
    }
  }

  // A record settles its own call's promise at once.
  lemma SettledAtEnd(log: seq<LogRec>, op: Op, ackIssued: set<bytes>)
    requires IFold(log).Some? ==> Holds(IFold(log).value, op, ackIssued)
    ensures Settled(log, |log|, op, ackIssued)
  {
    hide IFold, Holds;
    assert log[..|log|] == log;
  }

  lemma NewOpHolds(v: Image, e: J.Event, op: Op, ackIssued: set<bytes>)
    requires op in OpOf(e) && J.RecsOf(e) != [] && IApply(v, J.RecsOf(e)[0]).Some?
    ensures Holds(IApply(v, J.RecsOf(e)[0]).value, op, ackIssued)
  {
    hide Validate;
  }

  // A snapshot keeps every promise the log it replaces keeps.
  lemma SettledInSnapshot(c: J.Core, snap: seq<LogRec>, n: nat, op: Op, ackIssued: set<bytes>)
    requires J.Inv(c) && IsSnapshot(snap, c.s, c.now) && n <= |c.log| && Settled(c.log, n, op, ackIssued)
    ensures Settled(snap, |snap|, op, ackIssued)
  {
    hide IFold, Holds, MsgsOf, Good, IsSnapshot, J.StateFits, J.PrefixesFold, J.LogFits, J.NamesUsed;
    SnapshotMeansTheSame(c.s, snap, c.now, c.used);
    assert c.log[..|c.log|] == c.log;
    var v, w := IFold(c.log).value, IFold(snap).value;
    assert Holds(v, op, ackIssued);
    SameMsgsHold(v, w, op, ackIssued);
    SettledAtEnd(snap, op, ackIssued);
  }

  lemma SameMsgsHold(v: Image, w: Image, op: Op, ackIssued: set<bytes>)
    requires Holds(v, op, ackIssued) && v.msgs == w.msgs
    ensures Holds(w, op, ackIssued)
  {
  }

  lemma NamedMore(op: Op, used: set<bytes>, used': set<bytes>)
    requires Named(op, used) && used <= used'
    ensures Named(op, used')
  {
  }

  // Appending moves no batch boundary but that of the batch being gathered.
  lemma AppendMovesEnds(l: G.LogState<LogRec>, r: LogRec, b: nat)
    requires G.Inv(l) && G.Enabled(l, G.Append(r))
    ensures var l' := G.Do(l, G.Append(r));
            && G.Inv(l') && G.Accepted(l') == G.Accepted(l) + [r]
            && G.Durable(l') == G.Durable(l)
            && G.End(l, b) <= G.End(l', b) && G.End(l, b) <= |G.Accepted(l)|
            && (b == l.NextSeq() ==> G.End(l', b) == |G.Accepted(l')|)
  {
    G.AcceptedInOrder(l, G.Append(r));
    G.EndMonotone(l, b, b);
  }

  lemma LiveIsUsed(c: J.Core, id: bytes)
    requires J.Inv(c) && id in c.s.live
    ensures id in c.used
  {
    assert id in ImageOf(c.s).msgs;
  }

  // One operation that writes a record: every promise outstanding, and the new one, are kept.
  lemma LoggedOperation(y: Sys, e: J.Event, now: int)
    requires Inv(y) && Enabled(y, Operate(e, now)) && J.RecsOf(e) != []
    ensures Inv(Do(y, Operate(e, now)))
  {
    hide J.Inv, IFold, IApply, J.Enabled, Named, J.After, Holds, G.Do, Kept, G.Inv, G.End, G.Durable, G.Accepted;
    var z := Do(y, Operate(e, now));
    var r := J.RecsOf(e)[0];
    OperationLogs(y.core, e, now);
    OperationBooked(y, e, now);
    forall p | p in z.pending && p !in y.pending
      ensures Named(p.0, z.core.used) && p.1 == y.wal.NextSeq()
      ensures Holds(IApply(IFold(y.core.log).value, r).value, p.0, z.ackIssued)
    {
      NewOpHolds(IFold(y.core.log).value, e, p.0, z.ackIssued);
    }
    GrownKeepsInv(y, z, r);
  }

  lemma GrownKeepsInv(y: Sys, z: Sys, r: LogRec)
    requires Inv(y) && J.Inv(z.core) && Grown(y, z, r) && z.core.base == y.core.base && z.phase.Serving?
    requires G.Enabled(y.wal, G.Append(r)) && z.wal == G.Do(y.wal, G.Append(r)) && z.closed == y.closed
    requires IFold(y.core.log).Some? && IApply(IFold(y.core.log).value, r).Some?
    requires z.acknowledged == y.acknowledged
    requires forall p :: p in z.pending && p !in y.pending ==>
               Named(p.0, z.core.used) && p.1 == y.wal.NextSeq() &&
               Holds(IApply(IFold(y.core.log).value, r).value, p.0, z.ackIssued)
    ensures Inv(z)
  {
    FoldSnoc(y.core.log, r);
    hide J.Inv, G.Inv, InStep, WaitingSafe, DoneSafe, IFold, IApply, Named, G.Do, PhaseInv, Holds, G.Enabled;
    InStepGrown(y, z, r);
    WaitingGrown(y, z, r);
    DoneGrown(y, z, r);
    ServingPhase(z);
  }

  lemma InStepGrown(y: Sys, z: Sys, r: LogRec)
    requires G.Inv(y.wal) && InStep(y) && z.core.log == y.core.log + [r] && z.core.base == y.core.base
    requires G.Enabled(y.wal, G.Append(r)) && z.wal == G.Do(y.wal, G.Append(r)) && z.closed == y.closed
    ensures G.Inv(z.wal) && InStep(z)
  {
    AppendMovesEnds(y.wal, r, 1);
    hide G.Inv, G.End, G.Durable, G.Accepted;
  }

  lemma DoneGrown(y: Sys, z: Sys, r: LogRec)
    requires G.Inv(y.wal) && InStep(y) && DoneSafe(y) && Grown(y, z, r) && IFold(y.core.log).Some?
    requires G.Enabled(y.wal, G.Append(r)) && z.wal == G.Do(y.wal, G.Append(r)) && z.acknowledged == y.acknowledged
    ensures G.Inv(z.wal) && DoneSafe(z)
  {
    AppendMovesEnds(y.wal, r, 1);
    DurableWithin(y.wal);
    LogInBounds(y.wal);
    LogInBounds(z.wal);
    hide G.Inv, G.End, G.Durable, G.Accepted, IFold, G.Do, G.Enabled, Kept;
    forall op | op in z.acknowledged ensures Kept(z, |G.Durable(z.wal)|, op) {
      KeptGrows(y, z, r, |G.Durable(y.wal)|, |G.Durable(y.wal)|, op);
    }
  }

  lemma WaitingGrown(y: Sys, z: Sys, r: LogRec)
    requires G.Inv(y.wal) && InStep(y) && WaitingSafe(y) && Grown(y, z, r)
    requires G.Enabled(y.wal, G.Append(r)) && z.wal == G.Do(y.wal, G.Append(r)) && IFold(y.core.log).Some?
    requires IFold(z.core.log).Some?
    requires forall p :: p in z.pending && p !in y.pending ==>
               Named(p.0, z.core.used) && p.1 == y.wal.NextSeq() && Holds(IFold(z.core.log).value, p.0, z.ackIssued)
    ensures G.Inv(z.wal) && WaitingSafe(z)
  {
    AppendMovesEnds(y.wal, r, 1);
    LogInBounds(y.wal);
    LogInBounds(z.wal);
    BatchedStays(y.wal, G.Append(r));
    hide G.Inv, G.End, G.Durable, G.Accepted, IFold, G.Do, G.Enabled, Kept, Holds, Named, Grown, Batched;
    forall p | p in z.pending ensures Batched(z.wal, p.1) && Kept(z, G.End(z.wal, p.1), p.0) {
      WaitingKept(y, z, r, p);
    }
  }

  lemma WaitingKept(y: Sys, z: Sys, r: LogRec, p: (Op, nat))
    requires G.Inv(y.wal) && G.Accepted(y.wal) == y.core.log && Grown(y, z, r) && p in z.pending
    requires G.Enabled(y.wal, G.Append(r)) && z.wal == G.Do(y.wal, G.Append(r)) && IFold(y.core.log).Some?
    requires IFold(z.core.log).Some?
    requires p in y.pending ==> Kept(y, G.End(y.wal, p.1), p.0)
    requires p !in y.pending ==> Named(p.0, z.core.used) && p.1 == y.wal.NextSeq() &&
                                 Holds(IFold(z.core.log).value, p.0, z.ackIssued)
    ensures z.wal.from <= |z.wal.batches| && Kept(z, G.End(z.wal, p.1), p.0)
  {
    AppendMovesEnds(y.wal, r, p.1);
    hide G.Inv, G.End, G.Accepted, IFold, Settled, Named, G.Do, Holds, G.Enabled, Kept;
    if p in y.pending {
      KeptGrows(y, z, r, G.End(y.wal, p.1), G.End(z.wal, p.1), p.0);
    } else {
      SettledAtEnd(z.core.log, p.0, z.ackIssued);
      KeptAtEnd(z, p.0);
    }
  }

  lemma KeptAtEnd(z: Sys, op: Op)
    requires Named(op, z.core.used) && Settled(z.core.log, |z.core.log|, op, z.ackIssued)
    ensures Kept(z, |z.core.log|, op)
  {
  }

  lemma ServingPhase(y: Sys)
    requires y.phase.Serving? && G.Inv(y.wal)
    ensures PhaseInv(y)
  {
  }

  lemma LogFolds(c: J.Core)
    requires J.Inv(c)
    ensures IFold(c.log).Some?
  {
  }

  // What LoggedOperation needs of the operation itself: its record can be replayed after the log so far,
  lemma OperationLogs(c: J.Core, e: J.Event, now: int)
    requires J.Inv(c) && c.now <= now && J.Enabled(c.s, c.used, e, now) && J.RecsOf(e) != []
    ensures J.Inv(J.Next(c, e, now))
    ensures J.Next(c, e, now).log == c.log + [J.RecsOf(e)[0]]
    ensures IFold(c.log).Some? && IApply(IFold(c.log).value, J.RecsOf(e)[0]).Some?
  {
    J.StepKeepsInv(c, e, now);
    LogFolds(c);
    LogFolds(J.Next(c, e, now));
    hide J.Inv, J.Enabled, IFold, IApply, J.After;
    assert J.RecsOf(e) == [J.RecsOf(e)[0]];
    FoldSnoc(c.log, J.RecsOf(e)[0]);
  }

  // and it and its call are in the books.
  lemma OperationBooked(y: Sys, e: J.Event, now: int)
    requires J.Inv(y.core) && Enabled(y, Operate(e, now)) && J.RecsOf(e) != []
    ensures var z := Do(y, Operate(e, now)); var r := J.RecsOf(e)[0];
            && z.core.base == y.core.base && z.phase == y.phase
            && (forall op :: op in OpOf(e) ==> Named(op, z.core.used))
            && (forall p :: p in z.pending && p !in y.pending ==> p.0 in OpOf(e) && p.1 == y.wal.NextSeq())
            && z.acknowledged == y.acknowledged && z.wal == G.Do(y.wal, G.Append(r))
            && Grown(y, z, r)
  {
    hide J.Inv, J.After, G.Do, FreshMessage, J.Small, IsDuplicate;
    if e.EvAck? { LiveIsUsed(y.core, e.id); }
  }

  // The log, the names used and the acks issued have grown together by one record.
  predicate Grown(y: Sys, z: Sys, r: LogRec) {
    && z.core.log == y.core.log + [r]
    && y.core.used <= z.core.used && y.ackIssued <= z.ackIssued
    && (r.AckRec? ==> r.id in z.ackIssued)
    && (r.EnqueueRec? ==> r.m.id !in y.core.used)
  }

  lemma KeptGrows(y: Sys, z: Sys, r: LogRec, n: nat, n': nat, op: Op)
    requires Grown(y, z, r) && Kept(y, n, op) && n <= n' && n <= |y.core.log| && IFold(y.core.log).Some?
    ensures Kept(z, n', op)
  {
    hide IFold, Settled;
    SettledGrows(y.core.log, r, n, op, y.ackIssued, z.ackIssued, y.core.used);
    SettledLater(z.core.log, n, n', op, z.ackIssued);
    NamedMore(op, y.core.used, z.core.used);
  }

  lemma DurableWithin(l: G.LogState<LogRec>)
    requires G.Inv(l)
    ensures |G.Durable(l)| <= |G.Accepted(l)|
    ensures G.Durable(l) == G.Accepted(l)[..|G.Durable(l)|]
    ensures |G.Durable(l)| + |G.InDoubt(l)| <= |G.Accepted(l)|
    ensures G.Durable(l) + G.InDoubt(l) == G.Accepted(l)[..|G.Durable(l)| + |G.InDoubt(l)|]
  {
    LogInBounds(l);
    assert l.sure < |l.base| ==> l.synced == 0 == l.from;
    hide G.Flatten, G.Accepted, G.Inv;
    G.EndIsPrefix(l, l.synced);
    UnfinishedWithin(l);
    if l.sure < |l.base| {
      UnsureWithin(l);
    }
  }

  // What is written, and then what is being written.
  lemma UnfinishedWithin(l: G.LogState<LogRec>)
    requires G.Inv(l)
    ensures l.from <= l.synced <= |l.batches|
    ensures var n := |G.Written(l)| + |G.Unfinished(l)|;
            n <= |G.Accepted(l)| && G.Written(l) + G.Unfinished(l) == G.Accepted(l)[..n]
  {
    LogInBounds(l);
    hide G.Flatten, G.Accepted, G.Inv, G.End, G.Written;
    if l.synced < |l.batches| {
      OneBatchMore(l);
      G.EndIsPrefix(l, l.synced + 1);
    } else {
      G.EndIsPrefix(l, l.synced);
      AllWritten(l);
    }
  }

  lemma OneBatchMore(l: G.LogState<LogRec>)
    requires l.from <= l.synced < |l.batches|
    ensures l.base + G.Flatten(l.batches[l.from..l.synced + 1]) == G.Written(l) + G.Unfinished(l)
  {
    hide G.Flatten;
    SliceSnoc(l.batches, l.from, l.synced);
    G.FlattenSnoc(l.batches[l.from..l.synced], l.batches[l.synced]);
    Associative(l.base, G.Flatten(l.batches[l.from..l.synced]), l.batches[l.synced]);
  }

  lemma AllWritten(l: G.LogState<LogRec>)
    requires l.from <= l.synced == |l.batches|
    ensures l.base + G.Flatten(l.batches[l.from..l.synced]) == G.Written(l) == G.Written(l) + G.Unfinished(l)
  {
    hide G.Flatten;
  }

  lemma UnsureWithin(l: G.LogState<LogRec>)
    requires l.sure < |l.base| && l.from == l.synced == 0
    ensures l.base == G.Written(l) && G.Durable(l) + G.InDoubt(l) == G.Written(l) + G.Unfinished(l)
  {
    assert l.batches[l.from..l.synced] == [];
    assert l.base[..l.sure] + l.base[l.sure..] == l.base;
    Associative(l.base[..l.sure], l.base[l.sure..], G.Unfinished(l));
  }

  lemma QuietOperation(y: Sys, e: J.Event, now: int)
    requires Inv(y) && Enabled(y, Operate(e, now)) && J.RecsOf(e) == []
    ensures Inv(Do(y, Operate(e, now)))
  {
    hide J.Inv, G.Inv, InStep, WaitingSafe, DoneSafe, J.Enabled, J.Next, PhaseInv;
    var z := Do(y, Operate(e, now));
    QuietCore(y.core, e, now);
    assert z.pending == y.pending && z.ackIssued == y.ackIssued && z.wal == y.wal;
    SafeAlike(y, z);
    ServingPhase(z);
  }

  lemma QuietCore(c: J.Core, e: J.Event, now: int)
    requires J.Inv(c) && c.now <= now && J.Enabled(c.s, c.used, e, now) && J.RecsOf(e) == []
    ensures var d := J.Next(c, e, now); J.Inv(d) && d.log == c.log && d.used == c.used && d.base == c.base
  {
    J.StepKeepsInv(c, e, now);
    hide J.Inv, J.Enabled, J.After;
    assert c.log + [] == c.log && c.used + {} == c.used;
  }

  // Nothing the promises speak of has changed, but that some calls have stopped waiting.
  lemma SafeAlike(y: Sys, z: Sys)
    requires G.Inv(y.wal) && InStep(y) && WaitingSafe(y) && DoneSafe(y) && z.wal == y.wal
    requires z.core.log == y.core.log && z.core.used == y.core.used && z.core.base == y.core.base
    requires z.ackIssued == y.ackIssued && z.pending <= y.pending && z.acknowledged == y.acknowledged
    requires y.closed ==> z.closed
    ensures InStep(z) && WaitingSafe(z) && DoneSafe(z)
  {
    LogInBounds(y.wal);
    KeptAlike(y, z);
    hide G.Inv, G.End, G.Durable, G.Accepted, Kept;
  }

  // Promises are about the log, the names and the acks alone.
  lemma KeptAlike(y: Sys, z: Sys)
    requires z.core.log == y.core.log && z.core.used == y.core.used && z.ackIssued == y.ackIssued
    ensures forall n, op :: Kept(y, n, op) ==> Kept(z, n, op)
  {
    hide Settled, Named;
  }

  // The flusher's steps move records to the disk; no promise depends on where they were.
  lemma LogStepKeeps(l: G.LogState<LogRec>, s: G.Step<LogRec>, b: nat)
    requires G.Inv(l) && G.Enabled(l, s) && !s.Append? && !s.Reopened?
    ensures var l' := G.Do(l, s);
            && G.Inv(l') && G.Accepted(l') == G.Accepted(l)
            && G.End(l', b) == G.End(l, b) && |G.Durable(l)| <= |G.Durable(l')|
  {
    hide G.Inv, G.Flatten, G.Accepted, G.End, G.Durable, G.Do, G.Enabled;
    G.AcceptedInOrder(l, s);
    LogInBounds(l);
    LogInBounds(G.Do(l, s));
    EndKept(l, s, b);
    DurableGrows(l, s);
  }

  lemma EndKept(l: G.LogState<LogRec>, s: G.Step<LogRec>, b: nat)
    requires G.Inv(l) && G.Inv(G.Do(l, s)) && G.Enabled(l, s) && !s.Append? && !s.Reopened?
    requires G.Accepted(G.Do(l, s)) == G.Accepted(l)
    ensures G.End(G.Do(l, s), b) == G.End(l, b)
  {
    LogInBounds(l);
    LogInBounds(G.Do(l, s));
    BatchesAfter(l, s);
    hide G.Inv, G.Enabled, G.Do, G.Flatten;
    if G.Do(l, s).batches == l.batches {
      EndOfSame(l, G.Do(l, s), b);
    } else {
      EndOfMore(l, G.Do(l, s), b);
    }
  }

  lemma BatchesAfter(l: G.LogState<LogRec>, s: G.Step<LogRec>)
    requires !s.Append? && !s.Reopened?
    ensures var l' := G.Do(l, s);
            && l'.base == l.base && l'.from == l.from
            && (l'.batches == l.batches || (l'.batches == l.batches + [l.buf] && l'.buf == []))
  {
  }

  lemma EndOfSame(l: G.LogState<LogRec>, l': G.LogState<LogRec>, b: nat)
    requires l.from <= |l.batches| && l'.base == l.base && l'.from == l.from && l'.batches == l.batches
    requires G.Accepted(l') == G.Accepted(l)
    ensures G.End(l', b) == G.End(l, b)
  {
    hide G.Flatten, G.Accepted;
  }

  lemma EndOfMore(l: G.LogState<LogRec>, l': G.LogState<LogRec>, b: nat)
    requires l.from <= |l.batches| && l'.base == l.base && l'.from == l.from && l'.batches == l.batches + [l.buf]
    requires l'.buf == [] && G.Accepted(l') == G.Accepted(l)
    ensures G.End(l', b) == G.End(l, b)
  {
    if l.from < b <= |l.batches| {
      SliceInFirst(l.batches, [l.buf], l.from, b);
      hide G.Flatten, G.Accepted;
    } else if b == |l'.batches| {
      hide G.Flatten;
      SliceToEnd(l'.batches, l.from);
      assert G.Accepted(l') == l'.base + G.Flatten(l'.batches[l'.from..]) + [];
      hide G.Accepted;
    } else {
      hide G.Flatten, G.Accepted;
    }
  }

  lemma DurableGrows(l: G.LogState<LogRec>, s: G.Step<LogRec>)
    requires G.Inv(l) && G.Inv(G.Do(l, s)) && G.Enabled(l, s) && !s.Append? && !s.Reopened?
    ensures |G.Durable(l)| <= |G.Durable(G.Do(l, s))|
  {
    hide G.Flatten;
    var l' := G.Do(l, s);
    if s.Finish? && s.ok && !l.fatal {
      SliceSnoc(l.batches, l.from, l.synced);
      G.FlattenSnoc(l.batches[l.from..l.synced], l.batches[l.synced]);
    } else if l'.batches != l.batches {
      SliceInFirst(l.batches, [l.buf], l.from, l.synced);
    }
  }

  // The protocol's own steps, and a reopening that fails.
  lemma LogMoves(y: Sys, z: Sys, s: G.Step<LogRec>)
    requires G.Inv(y.wal) && InStep(y) && WaitingSafe(y) && DoneSafe(y)
    requires G.Enabled(y.wal, s) && !s.Append? && !s.Reopened? && (s.CloseBegins? ==> y.closed)
    requires z.wal == G.Do(y.wal, s) && z.core == y.core && z.closed == y.closed
    requires z.ackIssued == y.ackIssued && z.pending == y.pending && z.acknowledged == y.acknowledged
    ensures G.Inv(z.wal) && InStep(z) && WaitingSafe(z) && DoneSafe(z)
  {
    LogStepKeeps(y.wal, s, 1);
    hide G.Inv, WaitingSafe, DoneSafe, G.Do, G.Enabled;
    WaitingMoves(y, z, s);
    DoneMoves(y, z, s);
    ClosedByClose(y.wal, s);
    hide G.Durable, G.Accepted;
  }

  lemma WaitingMoves(y: Sys, z: Sys, s: G.Step<LogRec>)
    requires G.Inv(y.wal) && G.Inv(z.wal) && WaitingSafe(y) && G.Enabled(y.wal, s) && !s.Append? && !s.Reopened?
    requires z.wal == G.Do(y.wal, s) && z.core == y.core && z.ackIssued == y.ackIssued && z.pending == y.pending
    ensures WaitingSafe(z)
  {
    hide G.Inv, G.End, G.Durable, G.Accepted, Kept, G.Do, G.Enabled, Batched;
    BatchedStays(y.wal, s);
    LogInBounds(y.wal);
    LogInBounds(z.wal);
    KeptAlike(y, z);
    forall p | p in z.pending ensures Batched(z.wal, p.1) && Kept(z, G.End(z.wal, p.1), p.0) {
      LogStepKeeps(y.wal, s, p.1);
    }
  }

  lemma DoneMoves(y: Sys, z: Sys, s: G.Step<LogRec>)
    requires G.Inv(y.wal) && G.Inv(z.wal) && DoneSafe(y) && G.Enabled(y.wal, s) && !s.Append? && !s.Reopened?
    requires z.wal == G.Do(y.wal, s) && z.core == y.core && z.ackIssued == y.ackIssued
    requires z.acknowledged == y.acknowledged
    ensures DoneSafe(z)
  {
    hide G.Inv, G.End, G.Durable, G.Accepted, Kept, G.Do, G.Enabled;
    LogStepKeeps(y.wal, s, 1);
    LogInBounds(y.wal);
    LogInBounds(z.wal);
    KeptAlike(y, z);
    forall op | op in z.acknowledged ensures Kept(z, |G.Durable(z.wal)|, op) {
      KeptLater(y, |G.Durable(y.wal)|, |G.Durable(z.wal)|, op);
    }
  }

  lemma ClosedByClose(l: G.LogState<LogRec>, s: G.Step<LogRec>)
    ensures G.Do(l, s).closed ==> l.closed || s.CloseBegins?
  {
  }

  lemma LogRunsKeepsInv(y: Sys, s: G.Step<LogRec>)
    requires Inv(y) && Enabled(y, LogRuns(s))
    ensures Inv(Do(y, LogRuns(s)))
  {
    hide J.Inv, G.Inv, InStep, WaitingSafe, DoneSafe, G.Do, G.Enabled, IsSnapshot, G.Quiet, G.Sync;
    var z := Do(y, LogRuns(s));
    assert z.wal == G.Do(y.wal, s);
    LogMoves(y, z, s);
    if !y.phase.Serving? {
      SyncIsQuiet(y.wal);
      QuietStays(y.wal, s);
      QuietIsSynced(z.wal);
    }
  }

  lemma KeptLater(y: Sys, n: nat, n': nat, op: Op)
    requires Kept(y, n, op) && n <= n'
    ensures Kept(y, n', op)
  {
    hide Settled, Named;
    SettledLater(y.core.log, n, n', op, y.ackIssued);
  }

  // With nothing buffered or in flight the flusher has nothing to do.
  lemma QuietStays(l: G.LogState<LogRec>, s: G.Step<LogRec>)
    requires G.Inv(l) && G.Enabled(l, s) && G.Quiet(l) && !s.Append? && !s.Reopened? && !s.ReopenFailed?
    requires l.synced == |l.batches|
    ensures var l' := G.Do(l, s); G.Quiet(l') && l'.synced == |l'.batches| && l'.fatal == l.fatal
  {
  }

  lemma QuietIsSynced(l: G.LogState<LogRec>)
    requires G.Quiet(l)
    ensures !l.fatal ==> G.Sync(l) == G.Nil
  {
  }

  lemma SnapshotKeepsInv(y: Sys, recs: seq<LogRec>, now: int)
    requires Inv(y) && Enabled(y, Snapshot(recs, now))
    ensures Inv(Do(y, Snapshot(recs, now)))
  {
    hide J.Inv, G.Inv, InStep, WaitingSafe, DoneSafe, IsSnapshot, G.Sync;
    J.InvLater(y.core, now);
    SafeAlike(y, Do(y, Snapshot(recs, now)));
  }

  // The log is replaced: what was promised of the old one holds of the snapshot.
  lemma ReopenKeepsInv(y: Sys)
    requires Inv(y) && Enabled(y, Reopen(Swapped))
    ensures Inv(Do(y, Reopen(Swapped)))
  {
    hide Inv, Do, Enabled, Compacted, G.Enabled;
    SwapIsReady(y);
    SwappedDoes(y);
    CompactedKeepsInv(y, y.phase.snap);
  }

  lemma SwapIsReady(y: Sys)
    requires Inv(y) && Enabled(y, Reopen(Swapped))
    ensures y.phase.Installed? && G.Sync(y.wal) == G.Nil && !y.wal.closed
    ensures IsSnapshot(y.phase.snap, y.core.s, y.core.now)
  {
    hide J.Inv, G.Inv, InStep, WaitingSafe, DoneSafe, IsSnapshot;
  }

  lemma SwappedDoes(y: Sys)
    requires y.phase.Installed? && G.Sync(y.wal) == G.Nil && !y.wal.closed
    ensures Do(y, Reopen(Swapped)) == Compacted(y, y.phase.snap) && G.Enabled(y.wal, G.Reopened(y.phase.snap))
  {
    hide G.Do;
  }

  lemma CompactedKeepsInv(y: Sys, snap: seq<LogRec>)
    requires Inv(y) && IsSnapshot(snap, y.core.s, y.core.now) && G.Enabled(y.wal, G.Reopened(snap))
    ensures Inv(Compacted(y, snap))
  {
    var z := Compacted(y, snap);
    hide J.Inv, G.Inv, InStep, WaitingSafe, DoneSafe, IsSnapshot, G.Do, G.Enabled, PhaseInv;
    CompactKeepsInv(y.core, snap, y.core.now);
    CompactedSafe(y, z, snap);
    ServingPhase(z);
  }

  lemma CompactedSafe(y: Sys, z: Sys, snap: seq<LogRec>)
    requires J.Inv(y.core) && G.Inv(y.wal) && InStep(y) && WaitingSafe(y) && DoneSafe(y)
    requires IsSnapshot(snap, y.core.s, y.core.now) && G.Enabled(y.wal, G.Reopened(snap)) && z == Compacted(y, snap)
    ensures G.Inv(z.wal) && InStep(z) && WaitingSafe(z) && DoneSafe(z)
  {
    hide J.Inv, G.Inv, G.Durable, Kept, IsSnapshot, G.Do, G.Accepted, G.End, G.Enabled, Batched;
    ReopenFacts(y.wal, snap);
    DurableWithin(y.wal);
    LogInBounds(y.wal);
    LogInBounds(z.wal);
    BatchedStays(y.wal, G.Reopened(snap));
    forall p | p in z.pending ensures Batched(z.wal, p.1) && Kept(z, G.End(z.wal, p.1), p.0) {
      G.EndMonotone(y.wal, p.1, p.1);
      KeptInSnapshot(y, z, snap, G.End(y.wal, p.1), p.0);
    }
    forall op | op in z.acknowledged ensures Kept(z, |G.Durable(z.wal)|, op) {
      KeptInSnapshot(y, z, snap, |G.Durable(y.wal)|, op);
    }
  }

  lemma KeptInSnapshot(y: Sys, z: Sys, snap: seq<LogRec>, n: nat, op: Op)
    requires J.Inv(y.core) && IsSnapshot(snap, y.core.s, y.core.now) && n <= |y.core.log| && Kept(y, n, op)
    requires z.core.log == snap && z.core.used == y.core.used && z.ackIssued == y.ackIssued
    ensures Kept(z, |snap|, op)
  {
    hide J.Inv, IsSnapshot, Settled, Named;
    SettledInSnapshot(y.core, snap, n, op, y.ackIssued);
  }

  lemma ReopenFacts(l: G.LogState<LogRec>, snap: seq<LogRec>)
    requires G.Inv(l) && G.Enabled(l, G.Reopened(snap))
    ensures var l' := G.Do(l, G.Reopened(snap));
            && G.Inv(l') && G.Accepted(l') == snap && G.Durable(l') == snap && l'.closed == l.closed
            && l.from <= |l.batches| && forall b :: G.End(l', b) == |snap|
  {
    var l' := G.Do(l, G.Reopened(snap));
    G.AcceptedInOrder(l, G.Reopened(snap));
    EndsAfterReopen(l, snap);
    assert l.synced == |l.batches|;
    hide G.Inv;
    assert l'.batches[l'.from..l'.synced] == [];
    assert G.Durable(l') == snap + [] == snap;
  }

  lemma EndsAfterReopen(l: G.LogState<LogRec>, snap: seq<LogRec>)
    requires G.Inv(l) && G.Enabled(l, G.Reopened(snap))
    ensures forall b :: G.End(G.Do(l, G.Reopened(snap)), b) == |snap|
  {
    var l' := G.Do(l, G.Reopened(snap));
    assert l'.batches[l'.from..] == [];
    assert G.Accepted(l') == snap + [] + [] == snap;
  }

  lemma ReopenFailsKeepsInv(y: Sys)
    requires Inv(y) && Enabled(y, Reopen(OpenFailed))
    ensures Inv(Do(y, Reopen(OpenFailed)))
  {
    var z := Do(y, Reopen(OpenFailed));
    hide J.Inv, G.Inv, InStep, WaitingSafe, DoneSafe, G.Do, IsSnapshot, G.Quiet, G.Sync, G.Enabled;
    FailingDoes(y);
    FailingKeepsQuiet(y.wal);
    hide Do;
    LogMoves(y, z, G.ReopenFailed);
  }

  lemma FailingDoes(y: Sys)
    requires y.phase.Installed?
    ensures var z := Do(y, Reopen(OpenFailed));
            z == y.(wal := G.Do(y.wal, G.ReopenFailed), phase := Stuck(y.phase.snap, true), failed := true)
  {
    hide G.Do;
  }

  lemma FailingKeepsQuiet(l: G.LogState<LogRec>)
    requires G.Inv(l) && G.Sync(l) == G.Nil && !l.closed
    ensures G.Enabled(l, G.ReopenFailed)
    ensures var l' := G.Do(l, G.ReopenFailed); G.Quiet(l') && l'.synced == |l'.batches|
  {
  }

  lemma LogInBounds(l: G.LogState<LogRec>)
    requires G.Inv(l)
    ensures l.from <= l.synced <= |l.batches|
  {
  }

  // Wait returning nil is enough to tell the client.
  lemma SucceedsKeepsInv(y: Sys, op: Op, batch: nat)
    requires Inv(y) && Enabled(y, Succeeds(op, batch))
    ensures Inv(Do(y, Succeeds(op, batch)))
  {
    hide J.Inv, G.Inv, G.End, G.Durable, G.Accepted, Kept, IsSnapshot, G.Quiet, G.Wait, G.Sync;
    var z := Do(y, Succeeds(op, batch));
    LogInBounds(y.wal);
    assert (op, batch) in y.pending && batch >= 1;
    G.NilMeansDurable(y.wal, batch);
    KeptAlike(y, z);
    KeptLater(y, G.End(y.wal, batch), |G.Durable(y.wal)|, op);
  }

  lemma StepKeepsInv(y: Sys, step: Step)
    requires Inv(y) && Enabled(y, step)
    ensures Inv(Do(y, step))
  {
    match step
    case Operate(e, now) => if J.RecsOf(e) == [] { QuietOperation(y, e, now); } else { LoggedOperation(y, e, now); }
    case LogRuns(s) => LogRunsKeepsInv(y, s);
    case Snapshot(recs, now) => SnapshotKeepsInv(y, recs, now);
    case Succeeds(op, batch) => SucceedsKeepsInv(y, op, batch);
    case Reopen(Swapped) => ReopenKeepsInv(y);
    case Reopen(OpenFailed) => ReopenFailsKeepsInv(y);
    case _ => OtherStepKeepsInv(y, step);
  }

  lemma SyncIsQuiet(l: G.LogState<LogRec>)
    requires G.Inv(l)
    ensures G.Sync(l) == G.Nil ==> G.Quiet(l) && l.synced == |l.batches| && !l.fatal
  {
  }

  lemma OtherStepKeepsInv(y: Sys, step: Step)
    requires Inv(y) && Enabled(y, step)
    requires step.Refused? || step.Fails? || step.SnapshotFails? || step.Rename? || step.SyncDir? || step.Close?
             || step == Reopen(CloseFailed)
    ensures Inv(Do(y, step))
  {
    hide J.Inv, G.Inv, InStep, WaitingSafe, DoneSafe, IsSnapshot, G.Quiet, G.Wait, G.Sync;
    OtherStepLeaves(y, step);
    SafeAlike(y, Do(y, step));
  }

  lemma OtherStepLeaves(y: Sys, step: Step)
    requires G.Inv(y.wal) && PhaseInv(y) && Enabled(y, step)
    requires step.Refused? || step.Fails? || step.SnapshotFails? || step.Rename? || step.SyncDir? || step.Close?
             || step == Reopen(CloseFailed)
    ensures var z := Do(y, step);
            && z.core == y.core && z.wal == y.wal && z.ackIssued == y.ackIssued && (y.closed ==> z.closed)
            && z.pending <= y.pending && z.acknowledged == y.acknowledged && PhaseInv(z)
  {
    SyncIsQuiet(y.wal);
    hide G.Inv, IsSnapshot, G.Quiet, G.Wait, G.Sync;
  }
}
