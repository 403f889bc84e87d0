// A crash at any moment, and the restart after it: what Load finds in the file the crash leaves.
module CrashRecovery {
  import opened Bytes
  import opened Messages
  import opened Record
  import opened Replay
  import opened Recovery
  import opened QueueState
  import opened Images
  import J = Journal
  import opened Snapshots
  import opened Restarts
  import opened Wire
  import opened Loading
  import G = GroupCommit
  import opened CrashSafety

  // A new process on the recovered log. Calls that had not returned are gone; promises made are not.
  function Restarted(y: Sys, r: State, recs: seq<LogRec>, sure: nat, now: int): Sys {
    Sys(J.Core(r, now, recs, sure, y.core.used), G.Opened(recs, sure), false, false, {}, y.acknowledged, y.ackIssued,
        Serving)
  }

  // Opening the log syncs the file if it has to be cut, and leaves it as it was if not.
  function Opening(file: bytes, sure: nat): nat {
    if ScanAll(file).ending == Clean then sure else |ScanAll(file).frames|
  }

  // Replay of the file, at times since the last operation.
  predicate ClockFits(y: Sys, file: bytes, clock: seq<int>, now: int) {
    |clock| == |ScanAll(file).frames| && ClockWithin(clock, y.core.now, now) && y.core.now <= now
  }

  lemma OpeningBounds(file: bytes, sure: nat)
    requires sure <= |ScanAll(file).frames|
    ensures sure <= Opening(file, sure) <= |ScanAll(file).frames|
  {
    hide ScanAll;
  }

  predicate Begins(recs: seq<LogRec>, log: seq<LogRec>) {
    |recs| <= |log| && recs == log[..|recs|]
  }

  // Load on a file that holds a core's log from the first record to somewhere past what cannot be lost.
  lemma LoadCut(j: ConfigCodec, c: J.Core, durable: seq<LogRec>, inDoubt: seq<LogRec>, file: bytes, sure: nat,
                clock: seq<int>, now: int)
    returns (r: State, recs: seq<LogRec>)
    requires Faithful(j) && J.Inv(c) && CrashCut(j, durable, inDoubt, file)
    requires Begins(durable + inDoubt, c.log) && c.base <= |durable|
    requires |clock| == |ScanAll(file).frames| && ClockWithin(clock, c.now, now) && c.now <= now
    requires |durable| <= sure <= |ScanAll(file).frames|
    ensures Load(j, file, clock) == Loaded(r, recs, ScanAll(file).valid)
    ensures file[..ScanAll(file).valid] == EncodedAll(FramesOf(j, recs))
    ensures sure <= |recs| == |ScanAll(file).frames| && Begins(recs, c.log)
    ensures J.Inv(J.Core(r, now, recs, sure, c.used)) && IFold(recs) == Some(ImageOf(r))
  {
    hide J.RecFits, J.Inv, Faithful, ScanAll, Decoded, IFold, ImageOf, ClockWithin, CrashCut, FramesOf, Load,
      Replayed, EncodedAll, AllWritable;
    LogRecordsFit(c);
    var all := durable + inDoubt;
    PrefixFits(c.log, all, c.now);
    var k := CrashCutReplays(j, durable, inDoubt, file, c.now);
    PrefixOfPrefix(c.log, all, k);
    recs := c.log[..k];
    assert |ScanAll(file).frames| == k;
    RestartKeepsInv(c, sure, k, clock, now);
    r := Replayed(recs, clock).value;
    LoadSucceeds(j, file, clock, recs, r);
    ReplaySoundOnAnyBytes(file);
  }

  lemma PrefixFits(log: seq<LogRec>, all: seq<LogRec>, now: int)
    requires |all| <= |log| && all == log[..|all|] && forall i :: 0 <= i < |log| ==> J.RecFits(log[i], now)
    ensures forall i :: 0 <= i < |all| ==> J.RecFits(all[i], now)
  {
    hide J.RecFits;
  }

  lemma WholePrefix(log: seq<LogRec>)
    ensures log + [] == log && log[..|log|] == log
  {
  }

  lemma PrefixOfPrefix(log: seq<LogRec>, all: seq<LogRec>, k: nat)
    requires k <= |all| <= |log| && all == log[..|all|]
    ensures all[..k] == log[..k] && (k > 0 ==> log[..k][0] == log[0])
  {
  }

  lemma LoadSucceeds(j: ConfigCodec, file: bytes, clock: seq<int>, recs: seq<LogRec>, r: State)
    requires Decoded(j, ScanAll(file).frames) == Some(recs) && !ScanAll(file).ending.Corrupt?
    requires |recs| == |clock| == |ScanAll(file).frames| && |recs| > 0 && recs[0].MetaRec?
    requires Replayed(recs, clock) == Some(r)
    ensures Load(j, file, clock) == Loaded(r, recs, ScanAll(file).valid)
  {
    hide Decoded, ScanAll, Replayed;
  }

  lemma LogRecordsFit(c: J.Core)
    requires J.Inv(c)
    ensures 1 <= c.base && |c.log| > 0 && c.log[0].MetaRec?
    ensures forall i :: 0 <= i < |c.log| ==> J.RecFits(c.log[i], c.now)
  {
    hide J.RecFits, IFold;
  }

  // What the file a crash leaves was cut from: the log with its unfinished write, or the snapshot.
  ghost predicate LeftBy(j: ConfigCodec, y: Sys, file: bytes, sure: nat, snap: Option<seq<LogRec>>)
    requires G.Inv(y.wal)
  {
    match snap
    case None => OldLogLeft(j, y, file, sure)
    case Some(recs) => SnapshotLeft(j, recs, file, sure) && IsSnapshot(recs, y.core.s, y.core.now)
  }

  lemma LeftBySome(j: ConfigCodec, y: Sys, file: bytes, sure: nat) returns (snap: Option<seq<LogRec>>)
    requires Inv(y) && CrashLeaves(j, y, file, sure)
    ensures LeftBy(j, y, file, sure, snap)
  {
    hide J.Inv, G.Inv, InStep, WaitingSafe, DoneSafe, IsSnapshot, OldLogLeft, SnapshotLeft, G.Sync, G.Quiet;
    snap := if OldLogLeft(j, y, file, sure) then None else Some(y.phase.snap);
  }

  lemma WholeSnapshot(j: ConfigCodec, snap: seq<LogRec>, file: bytes)
    requires file == EncodedAll(FramesOf(j, snap))
    ensures CrashCut(j, snap, [], file)
  {
    assert EncodedAll(FramesOf(j, []))[..0] == [];
    assert file == EncodedAll(FramesOf(j, snap)) + EncodedAll(FramesOf(j, []))[..0];
  }

  // The promises made, of the recovered queue.
  ghost predicate PromisesHold(y: Sys, r: State) {
    && (forall m :: EnqueueOp(m) in y.acknowledged && m.id !in y.ackIssued ==>
          m.id in r.live && SameBody(r.live[m.id].m, m))
    && (forall id :: AckOp(id) in y.acknowledged ==> id !in r.live)
  }

  lemma HoldsOfState(r: State, op: Op, ackIssued: set<bytes>)
    requires Holds(ImageOf(r), op, ackIssued)
    ensures match op
            case EnqueueOp(m) => m.id in ackIssued || (m.id in r.live && SameBody(r.live[m.id].m, m))
            case AckOp(id) => id !in r.live
  {
    assert MsgsOf(r.live).Keys == r.live.Keys by { MsgsKeys(r.live); }
  }

  lemma AllHold(y: Sys, r: State)
    requires forall op :: op in y.acknowledged ==> Holds(ImageOf(r), op, y.ackIssued)
    ensures PromisesHold(y, r)
  {
    hide Holds, SameBody, ImageOf;
    forall op | op in y.acknowledged
      ensures match op
              case EnqueueOp(m) => m.id in y.ackIssued || (m.id in r.live && SameBody(r.live[m.id].m, m))
              case AckOp(id) => id !in r.live
    {
      HoldsOfState(r, op, y.ackIssued);
    }
    forall m | EnqueueOp(m) in y.acknowledged && m.id !in y.ackIssued
      ensures m.id in r.live && SameBody(r.live[m.id].m, m)
    {
      var op := EnqueueOp(m);
      assert op in y.acknowledged;
    }
    forall id | AckOp(id) in y.acknowledged ensures id !in r.live {
      var op := AckOp(id);
      assert op in y.acknowledged;
    }
  }

  // A recovered log that keeps every promise made starts a system that keeps them too.
  lemma RestartedInv(y: Sys, r: State, recs: seq<LogRec>, sure: nat, now: int)
    requires J.Inv(J.Core(r, now, recs, sure, y.core.used)) && sure <= |recs|
    requires forall op :: op in y.acknowledged ==> Named(op, y.core.used) && Settled(recs, sure, op, y.ackIssued)
    ensures Inv(Restarted(y, r, recs, sure, now))
  {
    var z := Restarted(y, r, recs, sure, now);
    hide J.Inv, Settled, Named, InStep, DoneSafe, PhaseInv;
    RestartedLog(recs, sure);
    ServingPhase(z);
    RestartedSafe(z, sure);
  }

  lemma RestartedLog(recs: seq<LogRec>, sure: nat)
    requires sure <= |recs|
    ensures var l := G.Opened(recs, sure);
            G.Inv(l) && G.Accepted(l) == recs && |G.Durable(l)| == sure
  {
    var l := G.Opened(recs, sure);
    assert l.batches[l.from..] == [] && l.batches[l.from..l.synced] == [];
    assert G.Accepted(l) == recs + [] + [] == recs;
    assert G.Written(l) == recs + [] == recs;
  }

  lemma RestartedSafe(z: Sys, sure: nat)
    requires G.Inv(z.wal) && G.Accepted(z.wal) == z.core.log && |G.Durable(z.wal)| == sure == z.core.base
    requires !z.wal.closed
    requires forall op :: op in z.acknowledged ==> Named(op, z.core.used) && Settled(z.core.log, sure, op, z.ackIssued)
    ensures InStep(z) && DoneSafe(z)
  {
    LogInBounds(z.wal);
    hide G.Inv, G.Durable, G.Accepted, Settled, Named;
  }

  lemma KeptHolds(y: Sys, n: nat, op: Op, k: nat)
    requires Kept(y, n, op) && n <= k <= |y.core.log| && IFold(y.core.log[..k]).Some?
    ensures Named(op, y.core.used) && Holds(IFold(y.core.log[..k]).value, op, y.ackIssued)
  {
    hide IFold, Holds, Named;
  }

  lemma SettledHolds(recs: seq<LogRec>, sure: nat, op: Op, ackIssued: set<bytes>)
    requires Settled(recs, sure, op, ackIssued) && sure <= |recs| && IFold(recs).Some?
    ensures Holds(IFold(recs).value, op, ackIssued)
  {
    hide IFold, Holds;
    assert recs[..|recs|] == recs;
  }

  // The central theorem. Whenever the process dies, the log found on restart loads, torn tail or not; it holds every
  // message whose Enqueue returned success and for which no Ack was issued, and none whose Ack returned success; and
  // the system goes on from there as sound as before, on a file cut back to exactly the records it kept.
  lemma CrashRecovers(j: ConfigCodec, y: Sys, file: bytes, sure: nat, clock: seq<int>, now: int)
    returns (r: State, recs: seq<LogRec>)
    requires Inv(y) && Faithful(j) && CrashLeaves(j, y, file, sure) && ClockFits(y, file, clock, now)
    ensures Load(j, file, clock) == Loaded(r, recs, ScanAll(file).valid)
    ensures file[..ScanAll(file).valid] == EncodedAll(FramesOf(j, recs))
    ensures PromisesHold(y, r)
    ensures Inv(Restarted(y, r, recs, Opening(file, sure), now))
  {
    hide Inv, J.Inv, G.Inv, IsSnapshot, OldLogLeft, SnapshotLeft, Faithful, IFold, ImageOf, Load, Named, Holds, Settled,
      CrashLeaves, PromisesHold, EncodedAll, FramesOf, ScanAll, ClockFits, Restarted;
    var snap := LeftBySome(j, y, file, sure);
    match snap {
      case None => r, recs := OldLogRecovers(j, y, file, sure, clock, now);
      case Some(s) => r, recs := SnapshotRecovers(j, y, s, file, sure, clock, now);
    }
    forall op | op in y.acknowledged ensures Holds(ImageOf(r), op, y.ackIssued) {
      SettledHolds(recs, Opening(file, sure), op, y.ackIssued);
    }
    AllHold(y, r);
    RestartedInv(y, r, recs, Opening(file, sure), now);
  }

  // What either kind of recovery gives.
  ghost predicate Recovered(j: ConfigCodec, y: Sys, file: bytes, sure: nat, clock: seq<int>, now: int, r: State,
                            recs: seq<LogRec>)
    requires |clock| == |ScanAll(file).frames|
  {
    && Load(j, file, clock) == Loaded(r, recs, ScanAll(file).valid)
    && file[..ScanAll(file).valid] == EncodedAll(FramesOf(j, recs))
    && sure <= |recs|
    && J.Inv(J.Core(r, now, recs, sure, y.core.used)) && IFold(recs) == Some(ImageOf(r))
    && (forall op :: op in y.acknowledged ==> Named(op, y.core.used) && Settled(recs, sure, op, y.ackIssued))
  }

  lemma OldLogRecovers(j: ConfigCodec, y: Sys, file: bytes, sure: nat, clock: seq<int>, now: int)
    returns (r: State, recs: seq<LogRec>)
    requires Inv(y) && Faithful(j) && OldLogLeft(j, y, file, sure) && ClockFits(y, file, clock, now)
    ensures Recovered(j, y, file, Opening(file, sure), clock, now, r, recs)
  {
    DurableCut(y);
    OpeningBounds(file, sure);
    var d, u := G.Durable(y.wal), G.InDoubt(y.wal);
    assert CrashCut(j, d, u, file) && |d| <= sure && Begins(d + u, y.core.log) && y.core.base <= |d|;
    hide Inv, J.Inv, G.Inv, G.Durable, G.InDoubt, CrashCut, Faithful, IFold, ImageOf, Load, Named, Settled, ScanAll,
      ClockWithin, EncodedAll, FramesOf, Opening, Begins, OldLogLeft, Recovered;
    r, recs := LoadCut(j, y.core, d, u, file, Opening(file, sure), clock, now);
    AcknowledgedSettled(y, recs, Opening(file, sure));
    IsRecovered(j, y, file, Opening(file, sure), clock, now, r, recs);
  }

  lemma IsRecovered(j: ConfigCodec, y: Sys, file: bytes, sure: nat, clock: seq<int>, now: int, r: State,
                    recs: seq<LogRec>)
    requires |clock| == |ScanAll(file).frames| && Load(j, file, clock) == Loaded(r, recs, ScanAll(file).valid)
    requires file[..ScanAll(file).valid] == EncodedAll(FramesOf(j, recs)) && sure <= |recs|
    requires J.Inv(J.Core(r, now, recs, sure, y.core.used)) && IFold(recs) == Some(ImageOf(r))
    requires forall op :: op in y.acknowledged ==> Named(op, y.core.used) && Settled(recs, sure, op, y.ackIssued)
    ensures Recovered(j, y, file, sure, clock, now, r, recs)
  {
    hide J.Inv, Load, EncodedAll, FramesOf, ScanAll, IFold, ImageOf, Named, Settled;
  }

  lemma DurableCut(y: Sys)
    requires Inv(y)
    ensures y.wal.from <= y.wal.synced <= |y.wal.batches| && J.Inv(y.core)
    ensures var d, u := G.Durable(y.wal), G.InDoubt(y.wal);
            y.core.base <= |d| && Begins(d + u, y.core.log)
  {
    hide J.Inv, G.Inv, G.Durable, G.InDoubt, PhaseInv, Kept, G.End, G.Accepted;
    DurableWithin(y.wal);
    LogInBounds(y.wal);
  }

  lemma AcknowledgedSettled(y: Sys, recs: seq<LogRec>, sure: nat)
    requires Inv(y) && y.wal.from <= y.wal.synced <= |y.wal.batches|
    requires |G.Durable(y.wal)| <= sure <= |recs| && Begins(recs, y.core.log)
    ensures forall op :: op in y.acknowledged ==> Named(op, y.core.used) && Settled(recs, sure, op, y.ackIssued)
  {
    hide J.Inv, G.Inv, G.Durable, Settled, Named, PhaseInv, G.End, G.Accepted;
    forall op | op in y.acknowledged ensures Named(op, y.core.used) && Settled(recs, sure, op, y.ackIssued) {
      assert Kept(y, |G.Durable(y.wal)|, op);
      SettledInPrefix(y.core.log, |G.Durable(y.wal)|, recs, sure, op, y.ackIssued);
    }
  }

  lemma SettledInPrefix(log: seq<LogRec>, n: nat, recs: seq<LogRec>, sure: nat, op: Op, ackIssued: set<bytes>)
    requires Settled(log, n, op, ackIssued) && n <= sure <= |recs| <= |log| && recs == log[..|recs|]
    ensures Settled(recs, sure, op, ackIssued)
  {
    hide IFold, Holds;
    forall k | sure <= k <= |recs| && IFold(recs[..k]).Some? ensures Holds(IFold(recs[..k]).value, op, ackIssued) {
      assert recs[..k] == log[..k];
    }
  }

  lemma SnapshotRecovers(j: ConfigCodec, y: Sys, snap: seq<LogRec>, file: bytes, sure: nat, clock: seq<int>, now: int)
    returns (r: State, recs: seq<LogRec>)
    requires Inv(y) && Faithful(j) && SnapshotLeft(j, snap, file, sure) && ClockFits(y, file, clock, now)
    requires IsSnapshot(snap, y.core.s, y.core.now)
    ensures Recovered(j, y, file, Opening(file, sure), clock, now, r, recs)
  {
    hide Inv, J.Inv, G.Inv, G.Durable, CrashCut, Faithful, IFold, ImageOf, Load, Named, Settled, ScanAll, ClockWithin,
      IsSnapshot, EncodedAll, FramesOf;
    DurableCut(y);
    var c := J.Core(y.core.s, y.core.now, snap, |snap|, y.core.used);
    CompactKeepsInv(y.core, snap, y.core.now);
    WholePrefix(snap);
    WholeSnapshot(j, snap, file);
    SnapshotFileScans(j, c, file);
    r, recs := LoadCut(j, c, snap, [], file, Opening(file, sure), clock, now);
    PromisesInSnapshot(y, snap);
  }

  lemma SnapshotFileScans(j: ConfigCodec, c: J.Core, file: bytes)
    requires Faithful(j) && J.Inv(c) && file == EncodedAll(FramesOf(j, c.log))
    ensures ScanAll(file).ending == Clean && |ScanAll(file).frames| == |c.log|
    ensures Decoded(j, ScanAll(file).frames) == Some(c.log)
  {
    LogRecordsFit(c);
    hide J.Inv, Faithful, J.RecFits, EncodedAll, FramesOf, ScanAll, Decoded;
    WholeLogScans(j, c.log, file, c.now);
  }

  lemma PromisesInSnapshot(y: Sys, snap: seq<LogRec>)
    requires Inv(y) && IsSnapshot(snap, y.core.s, y.core.now)
    ensures forall op :: op in y.acknowledged ==> Named(op, y.core.used) && Settled(snap, |snap|, op, y.ackIssued)
  {
    DurableCut(y);
    hide J.Inv, G.Inv, G.Durable, Settled, Named, PhaseInv, G.End, G.Accepted, IsSnapshot;
    forall op | op in y.acknowledged ensures Named(op, y.core.used) && Settled(snap, |snap|, op, y.ackIssued) {
      assert Kept(y, |G.Durable(y.wal)|, op);
      SettledInSnapshot(y.core, snap, |G.Durable(y.wal)|, op, y.ackIssued);
    }
  }

  predicate IsWhole(j: ConfigCodec, file: bytes, log: seq<LogRec>) {
    ScanAll(file).ending == Clean && Decoded(j, ScanAll(file).frames) == Some(log)
  }

  predicate IsPrefix(j: ConfigCodec, file: bytes, log: seq<LogRec>, atLeast: nat) {
    var scan := ScanAll(file);
    && !scan.ending.Corrupt? && atLeast <= |scan.frames| <= |log|
    && Decoded(j, scan.frames) == Some(log[..|scan.frames|])
  }

  // Compaction is atomic: while one is under way a crash leaves the old log or the whole snapshot, and neither is ever
  // corrupt. The old log is whole too, if it was whole on the disk when the process started or any write has been
  // synced since; otherwise it is what a crash would have left without the compaction.
  lemma CompactionIsAtomic(j: ConfigCodec, y: Sys, file: bytes, sure: nat)
    requires Inv(y) && Faithful(j) && !y.phase.Serving? && CrashLeaves(j, y, file, sure)
    ensures y.wal.from <= y.wal.synced <= |y.wal.batches|
    ensures IsWhole(j, file, y.phase.snap) || IsPrefix(j, file, y.core.log, |G.Durable(y.wal)|)
    ensures y.wal.sure == |y.wal.base| ==> IsWhole(j, file, y.phase.snap) || IsWhole(j, file, y.core.log)
  {
    hide Inv, J.Inv, G.Inv, G.Durable, G.InDoubt, Faithful, EncodedAll, FramesOf, IsWhole, IsPrefix, IsSnapshot,
      CrashCut;
    NothingUnfinished(y);
    if file == EncodedAll(FramesOf(j, y.phase.snap)) {
      SnapshotFileIsWhole(j, y, file);
    } else {
      OldLogScans(j, y, file);
    }
  }

  lemma SnapshotFileIsWhole(j: ConfigCodec, y: Sys, file: bytes)
    requires Inv(y) && Faithful(j) && !y.phase.Serving? && IsSnapshot(y.phase.snap, y.core.s, y.core.now)
    requires file == EncodedAll(FramesOf(j, y.phase.snap))
    ensures IsWhole(j, file, y.phase.snap)
  {
    CompactKeepsInv(y.core, y.phase.snap, y.core.now);
    hide Inv, J.Inv, Faithful, EncodedAll, FramesOf, ScanAll, Decoded, IsSnapshot;
    SnapshotFileScans(j, J.Core(y.core.s, y.core.now, y.phase.snap, |y.phase.snap|, y.core.used), file);
  }

  lemma OldLogScans(j: ConfigCodec, y: Sys, file: bytes)
    requires Inv(y) && Faithful(j) && y.wal.from <= y.wal.synced <= |y.wal.batches|
    requires CrashCut(j, G.Durable(y.wal), G.InDoubt(y.wal), file)
    ensures IsPrefix(j, file, y.core.log, |G.Durable(y.wal)|)
    ensures G.Durable(y.wal) == y.core.log && G.InDoubt(y.wal) == [] ==> IsWhole(j, file, y.core.log)
  {
    hide Inv, J.Inv, G.Inv, G.Durable, G.InDoubt, Faithful, EncodedAll, FramesOf, ScanAll, Decoded, J.RecFits, CrashCut;
    DurableCut(y);
    LogRecordsFit(y.core);
    var all := G.Durable(y.wal) + G.InDoubt(y.wal);
    PrefixFits(y.core.log, all, y.core.now);
    var k := CrashCutReplays(j, G.Durable(y.wal), G.InDoubt(y.wal), file, y.core.now);
    PrefixOfPrefix(y.core.log, all, k);
    assert |ScanAll(file).frames| == k;
    if G.Durable(y.wal) == y.core.log && G.InDoubt(y.wal) == [] {
      NothingToCut(j, y.core.log, file);
      SnapshotFileScans(j, y.core, file);
    }
  }

  lemma NothingUnfinished(y: Sys)
    requires Inv(y) && !y.phase.Serving?
    ensures IsSnapshot(y.phase.snap, y.core.s, y.core.now) && y.wal.from <= y.wal.synced <= |y.wal.batches|
    ensures y.wal.sure == |y.wal.base| ==> G.Durable(y.wal) == y.core.log && G.InDoubt(y.wal) == []
    ensures forall p :: p in y.pending ==> y.wal.sure == |y.wal.base| && p.1 <= y.wal.synced
  {
    SyncIsQuiet(y.wal);
    G.WrittenIsAccepted(y.wal);
    hide J.Inv, Kept, IsSnapshot, G.Written, G.Accepted;
    assert forall p :: p in y.pending ==> Batched(y.wal, p.1);
  }

  lemma NothingToCut(j: ConfigCodec, log: seq<LogRec>, file: bytes)
    requires CrashCut(j, log, [], file)
    ensures file == EncodedAll(FramesOf(j, log))
  {
    var a := EncodedAll(FramesOf(j, log));
    assert EncodedAll(FramesOf(j, [])) == [];
    assert a + [] == a;
  }

  lemma WholeLogScans(j: ConfigCodec, recs: seq<LogRec>, file: bytes, now: int)
    requires Faithful(j) && file == EncodedAll(FramesOf(j, recs))
    requires forall i :: 0 <= i < |recs| ==> J.RecFits(recs[i], now)
    ensures ScanAll(file).ending == Clean && Decoded(j, ScanAll(file).frames) == Some(recs)
  {
    hide Faithful, J.RecFits, EncodedAll, FramesOf, ScanAll, Decoded;
    DecodedFrames(j, recs, now);
    ScanEncoded(FramesOf(j, recs));
  }

  // Runs of the whole system, with any number of crashes and restarts.
  datatype Move = Act(step: Step) | CrashAndLoad(file: bytes, sure: nat, clock: seq<int>, now: int)

  ghost predicate Possible(j: ConfigCodec, y: Sys, mv: Move) {
    match mv
    case Act(step) => Enabled(y, step)
    case CrashAndLoad(file, sure, clock, now) =>
      G.Inv(y.wal) && CrashLeaves(j, y, file, sure) && ClockFits(y, file, clock, now)
  }

  function After(j: ConfigCodec, y: Sys, mv: Move): Sys {
    match mv
    case Act(step) => Do(y, step)
    case CrashAndLoad(file, sure, clock, now) =>
      if |clock| != |ScanAll(file).frames| then y
      else
        match Load(j, file, clock)
        case Loaded(r, recs, _) => Restarted(y, r, recs, Opening(file, sure), now)
        case _ => y
  }

  ghost predicate Legal(j: ConfigCodec, y: Sys, run: seq<Move>)
    decreases |run|
  {
    run == [] || (Possible(j, y, run[0]) && Legal(j, After(j, y, run[0]), run[1..]))
  }

  function Run(j: ConfigCodec, y: Sys, run: seq<Move>): Sys
    decreases |run|
  {
    if run == [] then y else Run(j, After(j, y, run[0]), run[1..])
  }

  // A queue just made by Create, its META record on disk.
  function Started(cfg: Config, now: int): Sys {
    Sys(Created(cfg, now), G.Opened([MetaRec(cfg)], 1), false, false, {}, {}, {}, Serving)
  }

  lemma StartedInv(cfg: Config, now: int)
    requires Validated(cfg) && WithinWidths(cfg)
    ensures Inv(Started(cfg, now))
  {
    CreatedInv(cfg, now);
    RestartedLog([MetaRec(cfg)], 1);
    hide J.Inv, G.Inv, G.Durable, G.Accepted;
  }

  lemma MoveKeepsInv(j: ConfigCodec, y: Sys, mv: Move)
    requires Inv(y) && Faithful(j) && Possible(j, y, mv)
    ensures Inv(After(j, y, mv))
  {
    hide Inv, Faithful, Enabled, CrashLeaves, ScanAll, Load, Do, ClockWithin;
    match mv
    case Act(step) => StepKeepsInv(y, step);
    case CrashAndLoad(file, sure, clock, now) => var r, recs := CrashRecovers(j, y, file, sure, clock, now);
  }

  lemma {:induction false} RunKeepsInv(j: ConfigCodec, y: Sys, run: seq<Move>)
    requires Inv(y) && Faithful(j) && Legal(j, y, run)
    ensures Inv(Run(j, y, run))
    decreases |run|
  {
    hide Inv, Faithful, Possible, After;
    if run != [] {
      MoveKeepsInv(j, y, run[0]);
      RunKeepsInv(j, After(j, y, run[0]), run[1..]);
    }
  }

  // Crash safety of every run from Create, through any interleaving of operations, flusher, compactions, failures,
  // crashes and restarts: the log a crash leaves loads, and keeps every promise ever made.
  lemma CrashSafe(j: ConfigCodec, cfg: Config, start: int, run: seq<Move>, file: bytes, sure: nat, clock: seq<int>,
                  now: int)
    requires Faithful(j) && Validated(cfg) && WithinWidths(cfg) && Legal(j, Started(cfg, start), run)
    requires Possible(j, Run(j, Started(cfg, start), run), CrashAndLoad(file, sure, clock, now))
    ensures Load(j, file, clock).Loaded? && PromisesHold(Run(j, Started(cfg, start), run), Load(j, file, clock).s)
  {
    hide Inv, Faithful, Legal, Run, CrashLeaves, ScanAll, Load, PromisesHold, Validated, G.Inv, ClockWithin;
    StartedInv(cfg, start);
    RunKeepsInv(j, Started(cfg, start), run);
    var r, recs := CrashRecovers(j, Run(j, Started(cfg, start), run), file, sure, clock, now);
  }

  // A file that holds exactly what is durable, as a power cut may leave it.
  lemma JustTheDurable(j: ConfigCodec, y: Sys, file: bytes)
    requires Inv(y) && Faithful(j) && y.phase.Serving? && y.wal.from <= y.wal.synced <= |y.wal.batches|
    requires file == EncodedAll(FramesOf(j, G.Durable(y.wal)))
    ensures |ScanAll(file).frames| == |G.Durable(y.wal)| && Decoded(j, ScanAll(file).frames) == Some(G.Durable(y.wal))
    ensures CrashLeaves(j, y, file, |G.Durable(y.wal)|)
  {
    DurableWithin(y.wal);
    LogRecordsFit(y.core);
    var d := G.Durable(y.wal);
    assert G.Accepted(y.wal) == y.core.log;
    hide Inv, J.Inv, G.Inv, G.Durable, G.InDoubt, G.Accepted, Faithful, EncodedAll, FramesOf, ScanAll, Decoded,
      J.RecFits;
    PrefixFits(y.core.log, d, y.core.now);
    WholeLogScans(j, d, file, y.core.now);
    CutAtOnce(j, d, G.InDoubt(y.wal), file);
  }

  lemma CutAtOnce(j: ConfigCodec, durable: seq<LogRec>, inDoubt: seq<LogRec>, file: bytes)
    requires file == EncodedAll(FramesOf(j, durable))
    ensures CrashCut(j, durable, inDoubt, file)
  {
    hide EncodedAll, FramesOf;
    var whole := EncodedAll(FramesOf(j, inDoubt));
    assert whole[..0] == [] && file + [] == file;
  }

  // What a crash may take: a record of the log survives every crash exactly when it is among the durable ones.
  lemma RecordSurvivesIffDurable(j: ConfigCodec, y: Sys, i: nat)
    requires Inv(y) && Faithful(j) && y.phase.Serving? && i < |y.core.log|
    ensures y.wal.from <= y.wal.synced <= |y.wal.batches|
    ensures (forall file, sure :: CrashLeaves(j, y, file, sure) ==> i < |ScanAll(file).frames|)
            <==> i < |G.Durable(y.wal)|
  {
    LogInBounds(y.wal);
    hide Inv, J.Inv, G.Inv, G.Durable, G.InDoubt, Faithful, EncodedAll, FramesOf, ScanAll, Decoded, CrashCut;
    if i >= |G.Durable(y.wal)| {
      var file := EncodedAll(FramesOf(j, G.Durable(y.wal)));
      JustTheDurable(j, y, file);
    }
  }

  // Duplicate answers are not among the promises kept: Enqueue answers a duplicate without waiting, so the answer can
  // name a message that is not on disk yet. On any new queue, a retry that comes while the first enqueue is still being
  // flushed is such a case: a crash then leaves a queue that knows neither the message nor its DedupID. By the lemma
  // above the message named survives every crash exactly when its record is durable by then.
  lemma DuplicateAnswerCanBeLost(j: ConfigCodec, cfg: Config, start: int, m: Msg, now: int, file: bytes)
    requires Faithful(j) && Validated(cfg) && WithinWidths(cfg) && start <= now && FitsInt64(now)
    requires J.Enabled(Created(cfg, start).s, {}, J.EvEnqueue(m), now) && m.dedupID != []
    requires file == EncodedAll(FramesOf(j, [MetaRec(cfg)]))
    ensures var y := Do(Started(cfg, start), Operate(J.EvEnqueue(m), now));
            && Inv(y) && IsDuplicate(y.core.s, m.dedupID, now) && y.core.s.dedup[m.dedupID].messageID == m.id
            && CrashLeaves(j, y, file, 1)
            && |ScanAll(file).frames| == 1 && Load(j, file, [now]).Loaded?
            && var r := Load(j, file, [now]).s;
               m.id !in r.live && !IsDuplicate(r, m.dedupID, now)
  {
    hide J.Enabled, J.After, Inv, Do, Enabled, IsDuplicate, G.Inv, G.Durable, CrashLeaves, Load, ScanAll, Faithful,
      EncodedAll, FramesOf, Validated, Decoded, LoggedFirst;
    var y0, step := Started(cfg, start), Operate(J.EvEnqueue(m), now);
    var y := Do(y0, step);
    StartedInv(cfg, start);
    FirstIsRemembered(cfg, start, m, now);
    FirstIsNotDurable(cfg, m, y.wal);
    StepKeepsInv(y0, step);
    JustTheDurable(j, y, file);
    OnlyMetaLoads(j, cfg, file, m, now);
  }

  predicate LoggedFirst(cfg: Config, m: Msg, l: G.LogState<LogRec>) {
    l == G.Do(G.Opened([MetaRec(cfg)], 1), G.Append(EnqueueRec(m, false)))
  }

  lemma FirstIsRemembered(cfg: Config, start: int, m: Msg, now: int)
    requires Validated(cfg) && start <= now && J.Enabled(Created(cfg, start).s, {}, J.EvEnqueue(m), now)
    requires m.dedupID != []
    ensures var y := Do(Started(cfg, start), Operate(J.EvEnqueue(m), now));
            && Enabled(Started(cfg, start), Operate(J.EvEnqueue(m), now))
            && IsDuplicate(y.core.s, m.dedupID, now) && y.core.s.dedup[m.dedupID].messageID == m.id
            && LoggedFirst(cfg, m, y.wal) && y.phase.Serving?
  {
    hide EffectivePriority, J.Small;
  }

  lemma FirstIsNotDurable(cfg: Config, m: Msg, l: G.LogState<LogRec>)
    requires LoggedFirst(cfg, m, l)
    ensures l.from <= l.synced <= |l.batches| && G.Durable(l) == [MetaRec(cfg)]
  {
    assert l.batches[l.from..l.synced] == [];
    assert G.Written(l) == [MetaRec(cfg)] + [];
  }

  lemma OnlyMetaLoads(j: ConfigCodec, cfg: Config, file: bytes, m: Msg, now: int)
    requires Validated(cfg) && Decoded(j, ScanAll(file).frames) == Some([MetaRec(cfg)]) && |ScanAll(file).frames| == 1
    requires file == EncodedAll(FramesOf(j, [MetaRec(cfg)])) && Faithful(j) && WithinWidths(cfg) && FitsInt64(now)
    ensures Load(j, file, [now]).Loaded?
    ensures var r := Load(j, file, [now]).s; m.id !in r.live && !IsDuplicate(r, m.dedupID, now)
  {
    CreatedInv(cfg, now);
    OnlyMetaReplays(cfg, now);
    hide ScanAll, Decoded, EncodedAll, FramesOf, Faithful, Load, Replayed, J.Inv, Validated, IsDuplicate, WithinWidths;
    SnapshotFileScans(j, Created(cfg, now), file);
    LoadSucceeds(j, file, [now], [MetaRec(cfg)], Replayed([MetaRec(cfg)], [now]).value);
  }

  lemma OnlyMetaReplays(cfg: Config, now: int)
    requires Validated(cfg)
    ensures Replayed([MetaRec(cfg)], [now]) == Some(NEW_QUEUE.(cfg := cfg, nextSeq := Max(1, cfg.nextSeq)))
  {
    ValidateNormalises(cfg);
    hide Validate, Validated;
    assert [MetaRec(cfg)][..0] == [] && [now][..0] == [];
    assert Replayed([], []) == Some(NEW_QUEUE);
  }

  ghost predicate LegalSteps(y: Sys, run: seq<Step>)
    decreases |run|
  {
    run == [] || (Enabled(y, run[0]) && LegalSteps(Do(y, run[0]), run[1..]))
  }

  function RunSteps(y: Sys, run: seq<Step>): Sys
    decreases |run|
  {
    if run == [] then y else RunSteps(Do(y, run[0]), run[1..])
  }

  // The theorem is not about nothing: the first enqueue of any new queue can be acknowledged, by these five steps.
  function FirstEnqueue(m: Msg, now: int): seq<Step> {
    [Operate(J.EvEnqueue(m), now), LogRuns(G.Wake), LogRuns(G.Take), LogRuns(G.Finish(true)), Succeeds(EnqueueOp(m), 1)]
  }

  lemma FirstEnqueueIsAcknowledged(cfg: Config, start: int, m: Msg, now: int)
    requires Validated(cfg) && WithinWidths(cfg) && start <= now
    requires J.Enabled(Created(cfg, start).s, {}, J.EvEnqueue(m), now)
    ensures LegalSteps(Started(cfg, start), FirstEnqueue(m, now))
    ensures EnqueueOp(m) in RunSteps(Started(cfg, start), FirstEnqueue(m, now)).acknowledged
  {
    var y0 := Started(cfg, start);
    var y1 := Do(y0, Operate(J.EvEnqueue(m), now));
    var r := EnqueueRec(m, false);
    var l := y1.wal;
    assert Enabled(y0, Operate(J.EvEnqueue(m), now)) && (EnqueueOp(m), 1) in y1.pending &&
        y0.wal == G.Opened([MetaRec(cfg)], 1);
    assert l == G.Do(G.Opened([MetaRec(cfg)], 1), G.Append(r));
    FirstFlush([MetaRec(cfg)], r);
    hide J.Enabled, J.After, LegalSteps, RunSteps, G.Do, G.Enabled, G.Wait;
    var l2 := G.Do(l, G.Wake);
    var l3 := G.Do(l2, G.Take);
    var y2, y3, y4 := y1.(wal := l2), y1.(wal := l3), y1.(wal := G.Do(l3, G.Finish(true)));
    LastStep(y4, Succeeds(EnqueueOp(m), 1));
    StepFirst(y3, LogRuns(G.Finish(true)), Succeeds(EnqueueOp(m), 1), []);
    StepFirst(y2, LogRuns(G.Take), LogRuns(G.Finish(true)), [Succeeds(EnqueueOp(m), 1)]);
    StepFirst(y1, LogRuns(G.Wake), LogRuns(G.Take), [LogRuns(G.Finish(true)), Succeeds(EnqueueOp(m), 1)]);
    StepFirst(y0, Operate(J.EvEnqueue(m), now), LogRuns(G.Wake),
              [LogRuns(G.Take), LogRuns(G.Finish(true)), Succeeds(EnqueueOp(m), 1)]);
  }

  // One record through a new log: appended, taken, written, and its wait returns nil.
  lemma FirstFlush(base: seq<LogRec>, r: LogRec)
    ensures var l := G.Do(G.Opened(base, |base|), G.Append(r));
            var l2 := G.Do(l, G.Wake);
            var l3 := G.Do(l2, G.Take);
            var l4 := G.Do(l3, G.Finish(true));
            && G.Enabled(l, G.Wake) && G.Enabled(l2, G.Take) && G.Enabled(l3, G.Finish(true))
            && !l4.fatal && G.Wait(l4, 1) == G.Nil
  {
  }

  lemma LastStep(y: Sys, step: Step)
    requires Enabled(y, step)
    ensures LegalSteps(y, [step]) && RunSteps(y, [step]) == Do(y, step)
  {
    hide Enabled, Do;
    assert [step][1..] == [];
    assert LegalSteps(Do(y, step), []) && RunSteps(Do(y, step), []) == Do(y, step);
  }

  lemma StepFirst(y: Sys, step: Step, next: Step, rest: seq<Step>)
    requires Enabled(y, step) && LegalSteps(Do(y, step), [next] + rest)
    ensures LegalSteps(y, [step, next] + rest)
    ensures RunSteps(y, [step, next] + rest) == RunSteps(Do(y, step), [next] + rest)
  {
    hide Enabled, Do;
    assert ([step, next] + rest)[1..] == [next] + rest;
  }

  // Compaction fails closed: once a step after the rename has failed, nothing is ever appended again, and nothing is
  // acknowledged but calls whose records the old log and the snapshot both held already.
  lemma {:induction false} StuckForGood(y: Sys, run: seq<Step>)
    requires Inv(y) && y.phase.Stuck? && LegalSteps(y, run)
    ensures var z := RunSteps(y, run);
            && z.phase == y.phase && z.core == y.core && z.pending <= y.pending
            && forall op :: op in z.acknowledged && op !in y.acknowledged ==> exists b :: (op, b) in y.pending
    decreases |run|
  {
    hide Inv, Enabled, Do;
    if run != [] {
      StepKeepsInv(y, run[0]);
      StuckStep(y, run[0]);
      StuckForGood(Do(y, run[0]), run[1..]);
    }
  }

  lemma StuckStep(y: Sys, step: Step)
    requires Inv(y) && y.phase.Stuck? && Enabled(y, step)
    ensures var z := Do(y, step);
            && z.phase == y.phase && z.core == y.core && z.pending <= y.pending
            && forall op :: op in z.acknowledged && op !in y.acknowledged ==> exists b :: (op, b) in y.pending
  {
    hide J.Inv, G.Inv, Kept, IsSnapshot, G.Do, G.Enabled, G.Quiet;
    if step.Succeeds? { assert (step.op, step.batch) in y.pending; }
  }

  // What is still waiting then is safe whichever log a crash leaves: nothing of the old log is in doubt.
  lemma StuckCallsAreSafe(y: Sys, op: Op, batch: nat)
    requires Inv(y) && !y.phase.Serving? && (op, batch) in y.pending
    ensures y.wal.from <= y.wal.synced <= |y.wal.batches|
    ensures G.Durable(y.wal) == y.core.log && G.InDoubt(y.wal) == []
    ensures IFold(y.core.log).Some? && Holds(IFold(y.core.log).value, op, y.ackIssued)
    ensures IFold(y.phase.snap).Some? && Holds(IFold(y.phase.snap).value, op, y.ackIssued)
  {
    hide J.Inv, G.Inv, IsSnapshot, IFold, Holds, Named, PhaseInv, G.Accepted, G.End, Settled;
    NothingUnfinished(y);
    LogFolds(y.core);
    G.EndMonotone(y.wal, batch, batch);
    CompactKeepsInv(y.core, y.phase.snap, y.core.now);
    LogFolds(J.Core(y.core.s, y.core.now, y.phase.snap, |y.phase.snap|, y.core.used));
    assert Kept(y, G.End(y.wal, batch), op);
    assert y.core.log[..|y.core.log|] == y.core.log;
    KeptHolds(y, G.End(y.wal, batch), op, |y.core.log|);
    SettledInSnapshot(y.core, y.phase.snap, G.End(y.wal, batch), op, y.ackIssued);
    SettledHolds(y.phase.snap, |y.phase.snap|, op, y.ackIssued);
  }
}
