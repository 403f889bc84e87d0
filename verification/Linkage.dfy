// The log of frames that Log keeps is the log of records the system keeps, and a method's work is a run of the system's
// steps: the lemmas that Conformance puts together, method by method.
module Linkage {
  import opened Bytes
  import opened Record
  import opened QueueState
  import opened QueueLoops
  import opened Wire
  import J = Journal
  import G = GroupCommit
  import opened CrashSafety
  import opened CrashRecovery
  import Q = Queues

  // The log of records as the log of frames that Log keeps.

  function FramedBatches(j: ConfigCodec, bs: seq<seq<LogRec>>): (r: seq<seq<Frame>>)
    ensures |r| == |bs| && forall i :: 0 <= i < |bs| ==> r[i] == FramesOf(j, bs[i])
  {
    seq(|bs|, i requires 0 <= i < |bs| => FramesOf(j, bs[i]))
  }

  function Framed(j: ConfigCodec, l: G.LogState<LogRec>): G.LogState<Frame> {
    G.LogState(FramesOf(j, l.base), l.sure, l.from, FramedBatches(j, l.batches), FramesOf(j, l.buf), l.flushed,
               l.synced, l.fatal, l.fatalSeq, l.token, l.closed, l.done, l.flusher)
  }

  function FramedStep(j: ConfigCodec, s: G.Step<LogRec>): G.Step<Frame> {
    match s
    case Append(r) => G.Append(FrameOf(j, r))
    case Kick => G.Kick
    case Wake => G.Wake
    case WakeDone => G.WakeDone
    case Take => G.Take
    case Finish(ok) => G.Finish(ok)
    case Reopened(recs) => G.Reopened(FramesOf(j, recs))
    case ReopenFailed => G.ReopenFailed
    case CloseBegins => G.CloseBegins
    case DoneCloses => G.DoneCloses
  }

  // Framing commutes with every step of the protocol,
  lemma FramingCommutes(j: ConfigCodec, l: G.LogState<LogRec>, s: G.Step<LogRec>)
    ensures G.Enabled(Framed(j, l), FramedStep(j, s)) <==> G.Enabled(l, s)
    ensures G.Do(Framed(j, l), FramedStep(j, s)) == Framed(j, G.Do(l, s))
  {
    hide FrameOf;
    match s
    case Append(r) => assert FramesOf(j, l.buf + [r]) == FramesOf(j, l.buf) + [FrameOf(j, r)];
    case Take => assert FramedBatches(j, l.batches + [l.buf]) == FramedBatches(j, l.batches) + [FramesOf(j, l.buf)];
      assert FramesOf(j, []) == [];
    case _ =>
  }

  // and changes no answer it gives.
  lemma FramingAnswers(j: ConfigCodec, l: G.LogState<LogRec>)
    ensures forall b :: G.Wait(Framed(j, l), b) == G.Wait(l, b)
    ensures G.Sync(Framed(j, l)) == G.Sync(l)
    ensures Framed(j, l).NextSeq() == l.NextSeq() && (G.Refuses(Framed(j, l)) <==> G.Refuses(l))
  {
    hide FrameOf;
  }

  lemma {:induction false} FramedFlatten(j: ConfigCodec, bs: seq<seq<LogRec>>)
    ensures G.Flatten(FramedBatches(j, bs)) == FramesOf(j, G.Flatten(bs))
    decreases |bs|
  {
    hide FrameOf;
    if bs != [] {
      var n := |bs| - 1;
      FramedFlatten(j, bs[..n]);
      assert FramedBatches(j, bs)[..n] == FramedBatches(j, bs[..n]);
      assert FramesOf(j, G.Flatten(bs[..n]) + bs[n]) == FramesOf(j, G.Flatten(bs[..n])) + FramesOf(j, bs[n]);
    }
  }

  // What is written, and what is durable, is the same either way.
  lemma FramedWritten(j: ConfigCodec, l: G.LogState<LogRec>)
    requires l.from <= l.synced <= |l.batches|
    ensures G.Written(Framed(j, l)) == FramesOf(j, G.Written(l))
    ensures G.Durable(Framed(j, l)) == FramesOf(j, G.Durable(l))
  {
    hide FrameOf;
    var bs := l.batches[l.from..l.synced];
    assert FramedBatches(j, l.batches)[l.from..l.synced] == FramedBatches(j, bs);
    FramedFlatten(j, bs);
    assert FramesOf(j, l.base + G.Flatten(bs)) == FramesOf(j, l.base) + FramesOf(j, G.Flatten(bs));
    if l.sure < |l.base| { assert FramesOf(j, l.base[..l.sure]) == FramesOf(j, l.base)[..l.sure]; }
  }

  // Runs, one after the other.
  lemma {:induction false} RunsJoin(y: Sys, a: seq<Step>, b: seq<Step>)
    requires LegalSteps(y, a) && LegalSteps(RunSteps(y, a), b)
    ensures LegalSteps(y, a + b) && RunSteps(y, a + b) == RunSteps(RunSteps(y, a), b)
    decreases |a|
  {
    hide Enabled, Do;
    if a == [] {
      assert a + b == b;
    } else {
      assert (a + b)[0] == a[0] && (a + b)[1..] == a[1..] + b;
      RunsJoin(Do(y, a[0]), a[1..], b);
    }
  }

  lemma NoSteps(y: Sys)
    ensures LegalSteps(y, []) && RunSteps(y, []) == y
  {
  }

  // One enabled step is a run, and keeps the invariant.
  lemma OneStep(y: Sys, step: Step)
    requires Inv(y) && Enabled(y, step)
    ensures LegalSteps(y, [step]) && RunSteps(y, [step]) == Do(y, step) && Inv(Do(y, step))
  {
    hide Inv, Enabled, Do;
    StepKeepsInv(y, step);
    LastStep(y, step);
  }

  // And a step after a run is one.
  lemma OneMoreStep(y: Sys, a: seq<Step>, step: Step)
    requires LegalSteps(y, a) && Inv(RunSteps(y, a)) && Enabled(RunSteps(y, a), step)
    ensures LegalSteps(y, a + [step]) && RunSteps(y, a + [step]) == Do(RunSteps(y, a), step)
    ensures Inv(RunSteps(y, a + [step]))
  {
    hide Inv, Enabled, Do, LegalSteps, RunSteps;
    OneStep(RunSteps(y, a), step);
    RunsJoin(y, a, [step]);
  }

  // A running system between two operations.
  predicate Open(y: Sys, now: int) {
    y.phase.Serving? && !y.failed && !y.closed && y.core.now <= now
  }

  // An operation that writes a record, the append having been accepted.
  lemma LoggedStep(j: ConfigCodec, y: Sys, e: J.Event, now: int)
    requires Inv(y) && Open(y, now) && J.Enabled(y.core.s, y.core.used, e, now) && J.RecsOf(e) != []
    requires !G.Refuses(Framed(j, y.wal))
    ensures Enabled(y, Operate(e, now))
    ensures var z := Do(y, Operate(e, now));
            && LegalSteps(y, [Operate(e, now)]) && RunSteps(y, [Operate(e, now)]) == z && Inv(z) && Open(z, now)
            && z.core.s == J.After(y.core.s, e, now) && !G.Refuses(z.wal)
            && Framed(j, z.wal) == G.Do(Framed(j, y.wal), G.Append(FrameOf(j, J.RecsOf(e)[0])))
            && Waiting(e, Framed(j, z.wal).NextSeq()) <= z.pending
  {
    hide Inv, J.Enabled, J.After, FrameOf, Framed, LegalSteps, RunSteps;
    FramingCommutes(j, y.wal, G.Append(J.RecsOf(e)[0]));
    FramingAnswers(j, y.wal);
    OneStep(y, Operate(e, now));
    FramingAnswers(j, Do(y, Operate(e, now)).wal);
  }

  // One that writes none.
  lemma QuietStep(y: Sys, e: J.Event, now: int)
    requires Inv(y) && y.phase.Serving? && !y.closed && y.core.now <= now && (!y.failed || Background(e))
    requires J.Enabled(y.core.s, y.core.used, e, now) && J.RecsOf(e) == []
    ensures Enabled(y, Operate(e, now))
    ensures var z := Do(y, Operate(e, now));
            && LegalSteps(y, [Operate(e, now)]) && RunSteps(y, [Operate(e, now)]) == z && Inv(z)
            && z == y.(core := z.core) && z.core.s == J.After(y.core.s, e, now) && z.core.now == now
  {
    hide Inv, J.Enabled, J.After, LegalSteps, RunSteps;
    OneStep(y, Operate(e, now));
    assert y.ackIssued + {} == y.ackIssued && y.pending + {} == y.pending;
  }

  // An error of the log that fails the queue.
  lemma RefusedStep(y: Sys)
    requires Inv(y) && y.phase.Serving? && G.Refuses(y.wal)
    ensures Enabled(y, Refused) && LegalSteps(y, [Refused])
    ensures RunSteps(y, [Refused]) == y.(failed := true) && Inv(y.(failed := true))
  {
    hide Inv, LegalSteps, RunSteps;
    OneStep(y, Refused);
  }

  // A step of the flusher, of Sync or of the log's Close.
  lemma LogStep(j: ConfigCodec, y: Sys, s: G.Step<LogRec>)
    requires Inv(y) && LogStepAllowed(y, s) && G.Enabled(Framed(j, y.wal), FramedStep(j, s))
    ensures Enabled(y, LogRuns(s)) && LegalSteps(y, [LogRuns(s)])
    ensures var z := RunSteps(y, [LogRuns(s)]);
            Inv(z) && z == y.(wal := z.wal) && Framed(j, z.wal) == G.Do(Framed(j, y.wal), FramedStep(j, s))
  {
    hide Inv, LegalSteps, RunSteps, Framed;
    FramingCommutes(j, y.wal, s);
    OneStep(y, LogRuns(s));
  }

  // A tick as a run.

  function ExpirySteps(ids: seq<bytes>, now: int): (r: seq<Step>)
    ensures |r| == |ids|
  {
    seq(|ids|, i requires 0 <= i < |ids| => Operate(J.EvExpire(ids[i]), now))
  }

  // The expiry loop is one EvExpire after another, each enabled in its turn.
  ghost predicate ExpiryRun(j: ConfigCodec, y: Sys, ids: seq<bytes>, now: int) {
    && LegalSteps(y, ExpirySteps(ids, now))
    && var z := RunSteps(y, ExpirySteps(ids, now));
       && Inv(z) && Open(z, now) && (G.Refuses(z.wal) <==> G.Refuses(y.wal))
       && z.core.s == ExpireIds(y.core.s, J.Elements(ids), now)
       && Framed(j, z.wal) == G.Appended(Framed(j, y.wal), Q.ExpiryFrames(ids))
  }

  lemma {:induction false} ExpiryIsARun(j: ConfigCodec, y: Sys, ids: seq<bytes>, now: int)
    requires Inv(y) && Open(y, now) && FitsInt64(now) && AllOverdue(y.core.s, ids, now)
    requires forall a, b :: 0 <= a < b < |ids| ==> ids[a] != ids[b]
    requires ids != [] ==> !G.Refuses(y.wal)
    ensures ExpiryRun(j, y, ids, now)
    decreases |ids|
  {
    hide Inv, Overdue, G.Refuses, ExpiryRun, Open;
    if ids == [] {
      NoExpiries(j, y, now);
    } else {
      var n := |ids| - 1;
      assert ids == ids[..n] + [ids[n]] && ids[n] !in ids[..n];
      ExpiryIsARun(j, y, ids[..n], now);
      ExpiryRunMore(j, y, ids[..n], ids[n], now);
    }
  }

  lemma NoExpiries(j: ConfigCodec, y: Sys, now: int)
    requires Inv(y) && Open(y, now)
    ensures ExpiryRun(j, y, [], now)
  {
    hide Inv, ExpireIds, Framed, J.Elements;
    Q.ExpiryFramesMore([], []);
    ExpireNone(y.core.s, now);
    assert ExpirySteps([], now) == [];
  }

  lemma ExpiryRunMore(j: ConfigCodec, y: Sys, head: seq<bytes>, id: bytes, now: int)
    requires ExpiryRun(j, y, head, now) && AllOverdue(y.core.s, head, now) && FitsInt64(now) && !G.Refuses(y.wal)
    requires id in y.core.s.live && Overdue(y.core.s.live[id], now) && id !in head
    ensures ExpiryRun(j, y, head + [id], now)
  {
    hide Inv, LegalSteps, RunSteps, ExpireIds, Framed, J.Elements, Q.ExpiryFrames, Overdue, G.Refuses, J.Enabled,
      AllOverdue, Open, Attempted;
    var x := RunSteps(y, ExpirySteps(head, now));
    StillOverdue(y.core.s, head, id, now);
    ExpireOneMore(y.core.s, head, id, now);
    OneExpiry(x.core.s, x.core.used, id, now);
    hide J.After;
    FramingAnswers(j, x.wal);
    LoggedStep(j, x, J.EvExpire(id), now);
    RunsJoin(y, ExpirySteps(head, now), [Operate(J.EvExpire(id), now)]);
    assert ExpirySteps(head + [id], now) == ExpirySteps(head, now) + [Operate(J.EvExpire(id), now)];
    Q.ExpiryFramesMore(head, id);
    G.AppendedMore(Framed(j, y.wal), Q.ExpiryFrames(head), Frame(TYPE_LEASE_EXPIRE, id));
  }

  lemma StillOverdue(s: State, ids: seq<bytes>, id: bytes, now: int)
    requires id in s.live && Overdue(s.live[id], now) && id !in ids
    ensures id in ExpireIds(s, J.Elements(ids), now).live && Overdue(ExpireIds(s, J.Elements(ids), now).live[id], now)
  {
    hide Attempted;
  }

  lemma OneExpiry(t: State, used: set<bytes>, id: bytes, now: int)
    requires id in t.live && Overdue(t.live[id], now) && FitsInt64(now)
    ensures J.After(t, J.EvExpire(id), now) == t.(live := t.live[id := Attempted(t.cfg, t.live[id].m, now)])
    ensures J.Enabled(t, used, J.EvExpire(id), now)
  {
    hide Attempted;
  }

  function TickRun(ids: seq<bytes>, now: int, refused: bool, aging: bool, purging: bool): seq<Step> {
    [Operate(J.EvPromote, now)] + ExpirySteps(ids, now) + (if refused then [Refused] else [])
    + (if aging then [Operate(J.EvAge, now)] else []) + (if purging then [Operate(J.EvPurge, now)] else [])
  }

  // A whole tick: promotion, expiries, perhaps an append that fails, aging and purge.
  lemma TickIsARun(j: ConfigCodec, y: Sys, ids: seq<bytes>, now: int, refused: bool, aging: bool, purging: bool)
    requires Inv(y) && Open(y, now) && FitsInt64(now) && Expired(y.core.s, ids, now)
    requires (ids != [] ==> !G.Refuses(y.wal)) && (refused ==> G.Refuses(y.wal))
    ensures LegalSteps(y, TickRun(ids, now, refused, aging, purging))
    ensures var z := RunSteps(y, TickRun(ids, now, refused, aging, purging));
            && Inv(z) && z.phase.Serving? && z.failed == refused && !z.closed
            && z.core.s == Tidied(ExpireIds(Promote(y.core.s, now), J.Elements(ids), now), now, aging, purging)
            && Framed(j, z.wal) == G.Appended(Framed(j, y.wal), Q.ExpiryFrames(ids))
  {
    hide Inv, LegalSteps, RunSteps, ExpireIds, Framed, Q.ExpiryFrames, Promote, AllOverdue, ExpirySteps, Age, Purge,
      G.Refuses;
    QuietStep(y, J.EvPromote, now);
    var y1 := RunSteps(y, [Operate(J.EvPromote, now)]);
    ExpiryIsARun(j, y1, ids, now);
    RunsJoin(y, [Operate(J.EvPromote, now)], ExpirySteps(ids, now));
    var run2 := [Operate(J.EvPromote, now)] + ExpirySteps(ids, now);
    var y2 := RunSteps(y, run2);
    var run3 := run2 + if refused then [Refused] else [];
    if refused { RefusedStep(y2); } else { NoSteps(y2); }
    RunsJoin(y, run2, if refused then [Refused] else []);
    Tidying(y, run3, now, aging, purging);
  }

  lemma Tidying(y: Sys, run: seq<Step>, now: int, aging: bool, purging: bool)
    requires LegalSteps(y, run)
    requires var x := RunSteps(y, run); Inv(x) && x.phase.Serving? && !x.closed && x.core.now <= now
    ensures var all := run + (if aging then [Operate(J.EvAge, now)] else [])
                       + (if purging then [Operate(J.EvPurge, now)] else []);
            var x, z := RunSteps(y, run), RunSteps(y, all);
            && LegalSteps(y, all) && Inv(z) && z == x.(core := z.core)
            && z.core.s == Tidied(x.core.s, now, aging, purging)
  {
    hide Inv, LegalSteps, RunSteps, Age, Purge;
    var x := RunSteps(y, run);
    var age, purge := [Operate(J.EvAge, now)], [Operate(J.EvPurge, now)];
    if aging { QuietStep(x, J.EvAge, now); } else { NoSteps(x); }
    RunsJoin(y, run, if aging then age else []);
    var run' := run + if aging then age else [];
    var x' := RunSteps(y, run');
    if purging { QuietStep(x', J.EvPurge, now); } else { NoSteps(x'); }
    RunsJoin(y, run', if purging then purge else []);
  }
}
