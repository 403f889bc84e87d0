// What a compaction leaves on the disk, file by file, against what the system says a crash may find there.
module DiskFiles {
  import opened Bytes
  import opened Messages
  import opened Record
  import opened Replay
  import opened QueueState
  import opened Wire
  import opened Loading
  import opened Writers
  import J = Journal
  import G = GroupCommit
  import opened CrashSafety
  import opened CrashRecovery
  import opened Queues

  // Whatever a crash may find under the log's name is a file the system allows for.
  ghost predicate OnDisk(j: ConfigCodec, y: Sys, d: Files)
    requires G.Inv(y.wal)
  {
    forall file :: file == d.log || d.replaced == Some(file) ==> exists sure :: CrashLeaves(j, y, file, sure)
  }

  // What is written is what is durable and the first part of what is in doubt.
  lemma WrittenSplits(l: G.LogState<LogRec>) returns (tail: seq<LogRec>, rest: seq<LogRec>)
    requires G.Inv(l)
    ensures l.from <= l.synced <= |l.batches|
    ensures G.Written(l) == G.Durable(l) + tail && G.InDoubt(l) == tail + rest
    ensures Begins(G.Written(l), G.Accepted(l))
  {
    LogInBounds(l);
    WrittenBegins(l);
    if l.sure < |l.base| {
      assert l.batches[l.from..l.synced] == [] && G.Written(l) == l.base + [] == l.base;
      tail, rest := l.base[l.sure..], G.Unfinished(l);
    } else {
      tail, rest := [], G.Unfinished(l);
      assert G.Written(l) + [] == G.Written(l) && [] + rest == rest;
    }
  }

  lemma WrittenBegins(l: G.LogState<LogRec>)
    requires l.from <= l.synced <= |l.batches|
    ensures Begins(G.Written(l), G.Accepted(l))
  {
    G.EndIsPrefix(l, l.synced);
    hide G.Accepted, G.Flatten;
  }

  // The log's file as it stands between two writes is one of those.
  lemma FileIsLeft(j: ConfigCodec, y: Sys, file: bytes)
    requires Inv(y) && Faithful(j) && G.Inv(y.wal) && file == EncodedAll(FramesOf(j, G.Written(y.wal)))
    ensures OldLogLeft(j, y, file, |G.Durable(y.wal)|)
  {
    hide Inv, J.Inv, G.Inv, G.Written, G.Durable, G.InDoubt, G.Accepted, Faithful, EncodedAll, FramesOf, ScanAll,
      Decoded, J.RecFits, CrashCut, Begins;
    SystemLog(y);
    var tail, rest := WrittenSplits(y.wal);
    var w := G.Written(y.wal);
    CutAfterWritten(j, G.Durable(y.wal), tail, rest, file);
    LogRecordsFit(y.core);
    BeginsFits(y.core.log, w, y.core.now);
    WholeLogScans(j, w, file, y.core.now);
  }

  lemma SystemLog(y: Sys)
    requires Inv(y)
    ensures J.Inv(y.core) && G.Inv(y.wal) && y.wal.from <= y.wal.synced <= |y.wal.batches|
    ensures G.Accepted(y.wal) == y.core.log
  {
    LogInBounds(y.wal);
    hide J.Inv, G.Inv, WaitingSafe, DoneSafe, PhaseInv, G.Durable, G.Accepted;
  }

  lemma BeginsFits(log: seq<LogRec>, w: seq<LogRec>, now: int)
    requires Begins(w, log) && forall i :: 0 <= i < |log| ==> J.RecFits(log[i], now)
    ensures forall i :: 0 <= i < |w| ==> J.RecFits(w[i], now)
  {
    hide J.RecFits;
    PrefixFits(log, w, now);
  }

  lemma CutAfterWritten(j: ConfigCodec, durable: seq<LogRec>, tail: seq<LogRec>, rest: seq<LogRec>, file: bytes)
    requires file == EncodedAll(FramesOf(j, durable + tail))
    ensures CrashCut(j, durable, tail + rest, file)
  {
    hide EncodedAll, FrameOf;
    var d, t, r := FramesOf(j, durable), FramesOf(j, tail), FramesOf(j, rest);
    assert FramesOf(j, durable + tail) == d + t && FramesOf(j, tail + rest) == t + r;
    EncodedAllAppend(d, t);
    EncodedAllAppend(t, r);
    assert (EncodedAll(t) + EncodedAll(r))[..|EncodedAll(t)|] == EncodedAll(t);
  }

  // The log's file holds what is written, and no other goes by its name.
  ghost predicate SystemFile(j: ConfigCodec, y: Sys, d: Files)
    requires G.Inv(y.wal)
  {
    d == Files(EncodedAll(FramesOf(j, G.Written(y.wal))), None)
  }

  // The files of a compaction, however it ends.
  lemma FilesAreLeft(j: ConfigCodec, y: Sys, z: Sys, r: Compaction, d: Files, d': Files)
    requires Inv(y) && Inv(z) && Faithful(j) && y.phase.Serving?
    requires SystemFile(j, y, d)
    requires match r
             case Unsettled(recs) =>
               && z.wal == y.wal && z.phase == Stuck(recs, false)
               && d' == Files(EncodedAll(FramesOf(j, recs)), Some(d.log))
             case NotReopened(recs) => z.phase == Stuck(recs, true) && d' == Files(EncodedAll(FramesOf(j, recs)), None)
             case Compacted(recs) =>
               && z.phase == Serving && d' == Files(EncodedAll(FramesOf(j, recs)), None)
               && G.Sync(y.wal) == G.Nil && z.wal == G.Do(y.wal, G.Reopened(recs))
             case _ => z.wal == y.wal && z.phase == Serving && d' == d
    ensures OnDisk(j, z, d')
  {
    hide J.Inv, Faithful, EncodedAll, FramesOf, G.Durable, G.Written, InStep, WaitingSafe, DoneSafe, PhaseInv,
      G.Inv, OldLogLeft;
    LogInBounds(y.wal);
    FileIsLeft(j, y, d.log);
    match r
    case Unsettled(recs) =>
      assert CrashLeaves(j, z, d'.log, |recs|);
      SameOldLog(j, y, z, d.log);
      assert CrashLeaves(j, z, d.log, |G.Durable(y.wal)|);
    case NotReopened(recs) => assert CrashLeaves(j, z, d'.log, |recs|);
    case Compacted(recs) =>
      SyncIsQuiet(y.wal);
      ReopenedWrites(y.wal, recs);
      LogInBounds(z.wal);
      FileIsLeft(j, z, d'.log);
      assert CrashLeaves(j, z, d'.log, |G.Durable(z.wal)|);
    case _ =>
      SameOldLog(j, y, z, d.log);
      assert CrashLeaves(j, z, d.log, |G.Durable(y.wal)|);
  }

  lemma SameOldLog(j: ConfigCodec, y: Sys, z: Sys, file: bytes)
    requires G.Inv(y.wal) && z.wal == y.wal && OldLogLeft(j, y, file, |G.Durable(y.wal)|)
    ensures OldLogLeft(j, z, file, |G.Durable(y.wal)|)
  {
    hide G.Inv, CrashCut, ScanAll, G.Durable;
    LogInBounds(y.wal);
  }

  lemma ReopenedWrites(l: G.LogState<LogRec>, recs: seq<LogRec>)
    requires l.synced == |l.batches|
    ensures G.Written(G.Do(l, G.Reopened(recs))) == recs
  {
    var l' := G.Do(l, G.Reopened(recs));
    assert l'.batches[l'.from..l'.synced] == [];
    assert recs + [] == recs;
  }
}
