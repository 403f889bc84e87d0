// wal/log.go as a protocol: appenders, one flusher, waiters and the closer, interleaved under one mutex.
module GroupCommit {
  import opened Seqs

  // Where the flusher goroutine is. `final` marks the drain that follows Close.
  datatype Flusher = Idle | Woken(final: bool) | Writing(final: bool) | Exited

  // batches is every batch taken for writing since Open, in order, so nextSeq is |batches| + 1. Those up to
  // `synced` reached the disk. base is what the file held when it was opened, or reopened after batch `from`; its
  // first `sure` records are on the disk. The rest may only be in the page cache, if the process before was killed
  // with records written but not synced: Open does not fsync a file it need not truncate. The next fsync covers them.
  datatype LogState<R> = LogState(
    base: seq<R>,
    sure: nat,
    from: nat,
    batches: seq<seq<R>>,
    buf: seq<R>,
    flushed: nat,
    synced: nat,
    fatal: bool,
    fatalSeq: nat,
    token: bool,
    closed: bool,
    done: bool,
    flusher: Flusher)
  {
    function NextSeq(): nat { |batches| + 1 }
  }

  function Opened<R>(base: seq<R>, sure: nat): LogState<R> {
    LogState(base, sure, 0, [], [], 0, 0, false, 0, false, false, false, Idle)
  }

  datatype Step<R> =
    | Append(r: R)               // Append, kick included
    | Kick                       // Sync waking the flusher
    | Wake                       // the flusher receives the token
    | WakeDone                   // the flusher sees done closed
    | Take                       // flushOnce up to its first unlock
    | Finish(ok: bool)           // the write and fsync, and flushOnce from its second lock on
    | Reopened(recs: seq<R>)     // Reopen, on a file that now holds recs
    | ReopenFailed
    | CloseBegins
    | DoneCloses

  // Sync and Reopen both wait for this.
  predicate Quiet<R>(l: LogState<R>) {
    |l.buf| == 0 && l.flushed + 1 == l.NextSeq()
  }

  predicate Enabled<R>(l: LogState<R>, s: Step<R>) {
    match s
    case Append(_) => !l.fatal && !l.closed
    case Kick => !l.fatal && |l.buf| > 0
    case Wake => l.flusher == Idle && l.token
    case WakeDone => l.flusher == Idle && l.done
    case Take => l.flusher.Woken?
    case Finish(_) => l.flusher.Writing?
    case Reopened(_) => !l.fatal && Quiet(l) && !l.closed
    case ReopenFailed => !l.fatal && Quiet(l) && !l.closed
    case CloseBegins => !l.closed
    case DoneCloses => l.closed && !l.done
  }

  // What every Append is answered with once the log has failed or is closed.
  predicate Refuses<R>(l: LogState<R>) {
    l.fatal || l.closed
  }

  lemma AppendEnabled<R>(l: LogState<R>, r: R)
    ensures Enabled(l, Append(r)) <==> !Refuses(l)
  {
  }

  function Do<R>(l: LogState<R>, s: Step<R>): LogState<R> {
    match s
    case Append(r) => l.(buf := l.buf + [r], token := true)
    case Kick => l.(token := true)
    case Wake => l.(token := false, flusher := Woken(false))
    case WakeDone => l.(flusher := Woken(true))
    case Take =>
      var final := l.flusher.Woken? && l.flusher.final;
      if |l.buf| == 0 || l.fatal then l.(flusher := if final then Exited else Idle)
      else l.(batches := l.batches + [l.buf], buf := [], flusher := Writing(final))
    case Finish(ok) =>
      var batch := |l.batches|;
      var l' := if ok then l.(synced := batch, sure := |l.base|) else l.(fatal := true, fatalSeq := batch);
      l'.(flushed := batch, flusher := if l.flusher.Writing? && l.flusher.final then Exited else Idle)
    case Reopened(recs) => l.(base := recs, sure := |recs|, from := |l.batches|)
    case ReopenFailed => l.(fatal := true, fatalSeq := 0)
    case CloseBegins => l.(closed := true)
    case DoneCloses => l.(done := true)
  }

  // Several records appended in a row.
  function Appended<R>(l: LogState<R>, rs: seq<R>): LogState<R> {
    if rs == [] then l else l.(buf := l.buf + rs, token := true)
  }

  lemma AppendedMore<R>(l: LogState<R>, rs: seq<R>, r: R)
    ensures Do(Appended(l, rs), Append(r)) == Appended(l, rs + [r])
    ensures Refuses(Appended(l, rs)) <==> Refuses(l)
  {
    assert l.buf + rs + [r] == l.buf + (rs + [r]);
  }

  function Flatten<R>(bs: seq<seq<R>>): seq<R> {
    if bs == [] then [] else Flatten(bs[..|bs| - 1]) + bs[|bs| - 1]
  }

  // What the file holds once no write is in progress: what Size counts.
  function Written<R>(l: LogState<R>): seq<R>
    requires l.from <= l.synced <= |l.batches|
  {
    l.base + Flatten(l.batches[l.from..l.synced])
  }

  // What the file is sure to hold after a crash.
  function Durable<R>(l: LogState<R>): seq<R>
    requires l.from <= l.synced <= |l.batches|
  {
    if l.sure < |l.base| then l.base[..l.sure] else Written(l)
  }

  // The batch being written, or the one whose write failed.
  function Unfinished<R>(l: LogState<R>): seq<R> {
    if l.synced < |l.batches| then l.batches[l.synced] else []
  }

  // Of this a crash may leave any part: recovered records not synced yet, and the unfinished write.
  function InDoubt<R>(l: LogState<R>): seq<R> {
    if l.sure < |l.base| then l.base[l.sure..] + Unfinished(l) else Unfinished(l)
  }

  // Everything accepted, in the order it was appended.
  function Accepted<R>(l: LogState<R>): seq<R>
    requires l.from <= |l.batches|
  {
    l.base + Flatten(l.batches[l.from..]) + l.buf
  }

  predicate Inv<R>(l: LogState<R>) {
    CountersInv(l) && FatalInv(l) && FlusherInv(l)
  }

  predicate CountersInv<R>(l: LogState<R>) {
    && l.from <= l.synced <= l.flushed <= |l.batches| <= l.flushed + 1
    && (l.flusher.Writing? <==> |l.batches| == l.flushed + 1)
    && (forall i :: 0 <= i < |l.batches| ==> l.batches[i] != [])
    // Any fsync makes what was recovered durable too.
    && l.sure <= |l.base| && (l.synced > 0 || l.from > 0 ==> l.sure == |l.base|)
  }

  predicate FatalInv<R>(l: LogState<R>) {
    && (!l.fatal ==> l.synced == l.flushed)
    && (l.fatal ==> |l.batches| == l.flushed && (l.fatalSeq == 0 || l.fatalSeq == l.flushed == l.synced + 1)
                    && (l.fatalSeq == 0 ==> l.synced == l.flushed))
  }

  predicate FlusherInv<R>(l: LogState<R>) {
    && (l.done ==> l.closed)
    // No stranded record: someone is still going to take the buffer.
    && (|l.buf| > 0 && !l.fatal ==> (l.token && l.flusher != Exited) || l.flusher.Woken?)
    // The final drain runs after the last Append, and leaves nothing behind.
    && (l.flusher == Woken(true) || l.flusher == Writing(true) || l.flusher == Exited ==> l.done)
    && (l.flusher == Writing(true) || l.flusher == Exited ==> |l.buf| == 0 || l.fatal)
  }

  lemma StepKeepsInv<R>(l: LogState<R>, s: Step<R>)
    requires Inv(l) && Enabled(l, s)
    ensures Inv(Do(l, s))
  {
    assert CountersInv(Do(l, s)) by { hide FlusherInv; }
    assert FatalInv(Do(l, s)) by { hide FlusherInv; }
    assert FlusherInv(Do(l, s)) by { hide CountersInv, FatalInv; }
    hide CountersInv, FatalInv, FlusherInv, Do, Enabled;
  }

  predicate Legal<R>(l: LogState<R>, run: seq<Step<R>>)
    decreases |run|
  {
    run == [] || (Enabled(l, run[0]) && Legal(Do(l, run[0]), run[1..]))
  }

  function Run<R>(l: LogState<R>, run: seq<Step<R>>): LogState<R>
    decreases |run|
  {
    if run == [] then l else Run(Do(l, run[0]), run[1..])
  }

  lemma {:induction false} RunKeepsInv<R>(l: LogState<R>, run: seq<Step<R>>)
    requires Inv(l) && Legal(l, run)
    ensures Inv(Run(l, run))
    decreases |run|
  {
    hide Inv, Enabled, Do;
    if run != [] {
      StepKeepsInv(l, run[0]);
      RunKeepsInv(Do(l, run[0]), run[1..]);
    }
  }

  // Wait's loop condition and answer: None while it blocks, then whether it returns nil.
  datatype Verdict = Blocked | Nil | Failed

  function Wait<R>(l: LogState<R>, batch: nat): Verdict {
    if l.flushed < batch && !l.fatal then Blocked
    else if l.fatal && l.fatalSeq <= batch then Failed
    else Nil
  }

  function Sync<R>(l: LogState<R>): Verdict {
    if l.fatal then Failed else if Quiet(l) then Nil else Blocked
  }

  // Appending adds one record at the end of what is accepted, and nothing but replacing the file changes the rest.
  lemma AcceptedInOrder<R>(l: LogState<R>, s: Step<R>)
    requires Inv(l) && Enabled(l, s)
    ensures Inv(Do(l, s))
    ensures Accepted(Do(l, s)) ==
            match s
            case Append(r) => Accepted(l) + [r]
            case Reopened(recs) => recs
            case _ => Accepted(l)
  {
    StepKeepsInv(l, s);
    BatchesInBounds(l);
    BatchesInBounds(Do(l, s));
    hide Inv, Flatten;
    match s
    case Append(r) => Associative(l.base + Flatten(l.batches[l.from..]), l.buf, [r]);
    case Take => TakeKeepsAccepted(l);
    case Reopened(recs) => NothingSince(recs, l.batches);
    case _ =>
  }

  lemma BatchesInBounds<R>(l: LogState<R>)
    requires Inv(l)
    ensures l.from <= l.synced <= |l.batches|
  {
  }

  lemma TakeKeepsAccepted<R>(l: LogState<R>)
    requires l.from <= |l.batches|
    ensures Accepted(Do(l, Take)) == Accepted(l)
  {
    hide Flatten;
    if |l.buf| > 0 && !l.fatal {
      assert (l.batches + [l.buf])[l.from..] == l.batches[l.from..] + [l.buf];
      FlattenSnoc(l.batches[l.from..], l.buf);
      Associative(l.base, Flatten(l.batches[l.from..]), l.buf);
      assert Accepted(l) + [] == Accepted(l);
    }
  }

  lemma NothingSince<R>(base: seq<R>, batches: seq<seq<R>>)
    ensures base + Flatten(batches[|batches|..]) == base
  {
    assert batches[|batches|..] == [];
  }

  lemma FlattenSnoc<R>(bs: seq<seq<R>>, b: seq<R>)
    ensures Flatten(bs + [b]) == Flatten(bs) + b
  {
    assert (bs + [b])[..|bs|] == bs;
  }

  lemma {:induction false} FlattenSplit<R>(bs: seq<seq<R>>, k: nat)
    requires k <= |bs|
    ensures Flatten(bs) == Flatten(bs[..k]) + Flatten(bs[k..])
    decreases |bs|
  {
    var n := |bs| - 1;
    if k == |bs| {
      assert bs[..k] == bs && bs[k..] == [];
    } else {
      FlattenSplit(bs[..n], k);
      assert bs[..n][..k] == bs[..k] && bs[..n][k..] == bs[k..][..n - k];
      assert bs[k..][|bs[k..]| - 1] == bs[n];
      Associative(Flatten(bs[..k]), Flatten(bs[k..][..n - k]), bs[n]);
    }
  }

  // How much of what is accepted belongs to batches up to b.
  function End<R>(l: LogState<R>, b: nat): nat
    requires l.from <= |l.batches|
  {
    if b <= l.from then |l.base|
    else if b <= |l.batches| then |l.base + Flatten(l.batches[l.from..b])|
    else |Accepted(l)|
  }

  // The first End(b) accepted records are the file's base and batches from+1..b, and the synced ones are durable.
  lemma EndIsPrefix<R>(l: LogState<R>, b: nat)
    requires l.from <= b <= |l.batches|
    ensures End(l, b) <= |Accepted(l)|
    ensures Accepted(l)[..End(l, b)] == l.base + Flatten(l.batches[l.from..b])
    ensures End(l, b) == |l.base + Flatten(l.batches[l.from..b])|
  {
    var bs := l.batches[l.from..];
    FlattenSplit(bs, b - l.from);
    assert bs[..b - l.from] == l.batches[l.from..b];
    var head := l.base + Flatten(l.batches[l.from..b]);
    var tail := Flatten(bs[b - l.from..]) + l.buf;
    assert Accepted(l) == head + tail;
    if b == l.from { assert l.batches[l.from..b] == []; }
  }

  lemma {:induction false} EndMonotone<R>(l: LogState<R>, a: nat, b: nat)
    requires l.from <= |l.batches| && a <= b
    ensures End(l, a) <= End(l, b) <= |Accepted(l)|
  {
    var x, y := if a < l.from then l.from else a, if b < l.from then l.from else b;
    if x <= |l.batches| { EndIsPrefix(l, x); }
    if y <= |l.batches| {
      EndIsPrefix(l, y);
      assert l.batches[l.from..y][..x - l.from] == l.batches[l.from..x];
      FlattenSplit(l.batches[l.from..y], x - l.from);
    }
    assert l.batches[l.from..l.from] == [];
  }

  // Group-commit safety. A Wait that returns nil is for a batch that was written and fsynced, and so were all before
  // it: the accepted records up to the end of that batch are durable, in the order they were appended. Batches are
  // numbered from 1.
  lemma NilMeansDurable<R>(l: LogState<R>, b: nat)
    requires Inv(l) && b >= 1 && Wait(l, b) == Nil
    ensures b <= l.synced
    ensures End(l, b) <= |Durable(l)| <= |Accepted(l)| && Durable(l)[..End(l, b)] == Accepted(l)[..End(l, b)]
  {
    assert b <= l.synced && l.sure == |l.base|;
    hide Inv, Wait, Accepted;
    EndIsPrefix(l, l.synced);
    EndMonotone(l, b, l.synced);
    hide Flatten, End;
    PrefixOfPrefix(Accepted(l), |Durable(l)|, End(l, b));
  }

  lemma PrefixOfPrefix<R>(a: seq<R>, n: nat, k: nat)
    requires k <= n <= |a|
    ensures a[..n][..k] == a[..k]
  {
  }

  // A write or fsync failure at batch F fails every Wait on F or later and no earlier one; after a failed Reopen
  // every Wait fails.
  lemma FailureIsExact<R>(l: LogState<R>, b: nat)
    requires Inv(l) && l.fatal
    ensures Wait(l, b) == Failed <==> b >= l.fatalSeq
    ensures Wait(l, b) != Failed ==> Wait(l, b) == Nil
    ensures l.fatalSeq > 0 ==> l.fatalSeq == l.synced + 1
  {
  }

  // Failure is sticky: nothing is appended, taken or finished again.
  lemma FatalIsSticky<R>(l: LogState<R>, s: Step<R>)
    requires Inv(l) && Enabled(l, s) && l.fatal
    ensures var l' := Do(l, s); l'.fatal && l'.fatalSeq == l.fatalSeq && l'.batches == l.batches && l'.buf == l.buf
                                && l'.synced == l.synced && l'.base == l.base && l'.sure == l.sure && !s.Append?
  {
    hide FlusherInv;
  }

  // Sync returning nil: nothing is buffered, nothing is being written, and everything accepted is in the file. It is
  // durable too, but for recovered records that no fsync has followed yet: Sync itself asks for none.
  lemma SyncMeansWritten<R>(l: LogState<R>)
    requires Inv(l) && Sync(l) == Nil
    ensures |l.buf| == 0 && !l.flusher.Writing? && Written(l) == Accepted(l) && Unfinished(l) == []
    ensures Durable(l) + InDoubt(l) == Accepted(l)
    ensures Durable(l) == Accepted(l) <==> l.sure == |l.base|
  {
    WrittenIsAccepted(l);
    if l.sure < |l.base| {
      assert l.batches == [] && Written(l) == l.base + [] == l.base;
      assert l.base[..l.sure] + (l.base[l.sure..] + []) == l.base;
    } else {
      assert Written(l) + [] == Written(l);
    }
  }

  lemma WrittenIsAccepted<R>(l: LogState<R>)
    requires l.from <= l.synced == |l.batches| && l.buf == []
    ensures Written(l) == Accepted(l)
  {
    assert l.batches[l.from..l.synced] == l.batches[l.from..];
    assert Accepted(l) == l.base + Flatten(l.batches[l.from..]);
  }

  // Close waits for the flusher to exit. By then every record accepted since the log was opened is durable, with what
  // was recovered before it, or the failure is on record.
  lemma CloseDrains<R>(l: LogState<R>)
    requires Inv(l) && l.flusher == Exited
    ensures l.closed && (l.fatal || Written(l) == Accepted(l))
    ensures l.fatal || Accepted(l) == l.base || Durable(l) == Accepted(l)
  {
    if !l.fatal {
      SyncMeansWritten(l);
      if l.sure < |l.base| { assert l.batches[l.from..l.synced] == []; }
    }
  }

  predicate OfFlusher<R>(s: Step<R>) {
    s.Wake? || s.Take? || s.Finish?
  }

  // What the flusher does next, left to itself: it finishes the write it is at, then wakes up to what was buffered
  // meanwhile, takes it and writes it. ok1 and ok2 say how the two writes go.
  function FlusherRun<R>(l: LogState<R>, ok1: bool, ok2: bool): (run: seq<Step<R>>)
    ensures |run| <= 4 && forall i :: 0 <= i < |run| ==> OfFlusher(run[i])
  {
    if l.flusher.Writing? then
      if !ok1 || l.buf == [] then [Finish(ok1)] else [Finish(ok1), Wake, Take, Finish(ok2)]
    else if l.buf == [] then []
    else if l.flusher.Woken? then [Take, Finish(ok2)]
    else [Wake, Take, Finish(ok2)]
  }

  // A run that puts all of `goal` into the file, or ends in failure.
  predicate Drains<R(==)>(l: LogState<R>, run: seq<Step<R>>, goal: seq<R>) {
    && Legal(l, run)
    && var z := Run(l, run);
       Inv(z) && Accepted(z) == goal && (z.fatal || Written(z) == goal)
  }

  lemma DrainsAfter<R>(l: LogState<R>, run: seq<Step<R>>)
    requires Inv(l) && run != [] && Enabled(l, run[0]) && l.from <= |l.batches|
    requires Drains(Do(l, run[0]), run[1..], Accepted(l))
    ensures Drains(l, run, Accepted(l))
  {
    hide Enabled, Do, Inv, Accepted, Written;
  }

  lemma FinishDrains<R>(l: LogState<R>, ok: bool)
    requires Inv(l) && l.flusher.Writing? && (!ok || l.buf == [])
    ensures Drains(l, [Finish(ok)], Accepted(l))
  {
    AcceptedInOrder(l, Finish(ok));
    var z := Do(l, Finish(ok));
    if !z.fatal { WrittenIsAccepted(z); }
    hide Inv, Accepted, Written, Enabled, Do;
    assert Drains(z, [], Accepted(l));
    EnabledWhenWriting(l, ok);
    DrainsAfter(l, [Finish(ok)]);
  }

  lemma EnabledWhenWriting<R>(l: LogState<R>, ok: bool)
    requires l.flusher.Writing?
    ensures Enabled(l, Finish(ok))
  {
  }

  lemma TakeDrains<R>(l: LogState<R>, ok: bool)
    requires Inv(l) && !l.fatal && l.flusher.Woken? && l.buf != []
    ensures Drains(l, [Take, Finish(ok)], Accepted(l))
  {
    AcceptedInOrder(l, Take);
    FinishDrains(Do(l, Take), ok);
    assert Enabled(l, Take) && l.from <= |l.batches|;
    hide Drains, Inv, Accepted, Do, Enabled;
    var run: seq<Step<R>> := [Take, Finish(ok)];
    assert run[1..] == [Finish(ok)];
    DrainsAfter(l, run);
  }

  lemma WakeDrains<R>(l: LogState<R>, ok: bool)
    requires Inv(l) && !l.fatal && l.flusher.Idle? && l.buf != []
    ensures Drains(l, [Wake, Take, Finish(ok)], Accepted(l))
  {
    assert Enabled(l, Wake) && l.from <= |l.batches|;
    AcceptedInOrder(l, Wake);
    TakeDrains(Do(l, Wake), ok);
    hide Drains, Inv, Accepted, Do, Enabled;
    var run: seq<Step<R>> := [Wake, Take, Finish(ok)];
    assert run[1..] == [Take, Finish(ok)];
    DrainsAfter(l, run);
  }

  lemma FinishAndWakeDrains<R>(l: LogState<R>, ok: bool)
    requires Inv(l) && !l.fatal && l.flusher.Writing? && l.buf != []
    ensures Drains(l, [Finish(true), Wake, Take, Finish(ok)], Accepted(l))
  {
    AcceptedInOrder(l, Finish(true));
    assert Do(l, Finish(true)).flusher.Idle? && Do(l, Finish(true)).buf != [] && l.from <= |l.batches|;
    WakeDrains(Do(l, Finish(true)), ok);
    EnabledWhenWriting(l, true);
    hide Drains, Inv, Accepted, Do, Enabled;
    var run: seq<Step<R>> := [Finish(true), Wake, Take, Finish(ok)];
    assert run[1..] == [Wake, Take, Finish(ok)];
    DrainsAfter(l, run);
  }

  lemma NothingToDrain<R>(l: LogState<R>)
    requires Inv(l) && !l.fatal && !l.flusher.Writing? && l.buf == []
    ensures Drains(l, [], Accepted(l))
  {
    WrittenIsAccepted(l);
  }

  // No stranded record. From any healthy state at most four steps of the flusher, each enabled in its turn and needing
  // no other goroutine, put everything accepted so far into the file and sync it, or leave the failure on record.
  lemma FlusherDrains<R>(l: LogState<R>, ok1: bool, ok2: bool)
    requires Inv(l) && !l.fatal
    ensures |FlusherRun(l, ok1, ok2)| <= 4
    ensures l.from <= |l.batches| && Drains(l, FlusherRun(l, ok1, ok2), Accepted(l))
  {
    hide Drains, Accepted;
    if l.flusher.Writing? {
      if !ok1 || l.buf == [] { FinishDrains(l, ok1); } else { FinishAndWakeDrains(l, ok2); }
    } else if l.buf == [] {
      NothingToDrain(l);
    } else if l.flusher.Woken? {
      TakeDrains(l, ok2);
    } else {
      WakeDrains(l, ok2);
    }
  }

  // Over whole runs from Open.
  lemma GroupCommitSafety<R>(base: seq<R>, sure: nat, run: seq<Step<R>>, b: nat)
    requires sure <= |base| && b >= 1 && Legal(Opened(base, sure), run)
    ensures var l := Run(Opened(base, sure), run);
            && Inv(l)
            && (Wait(l, b) == Nil ==>
                  End(l, b) <= |Durable(l)| <= |Accepted(l)| && Durable(l)[..End(l, b)] == Accepted(l)[..End(l, b)])
            && (Wait(l, b) == Failed ==> l.fatal && (l.fatalSeq == 0 || b > l.synced))
            && (Sync(l) == Nil ==> Written(l) == Accepted(l))
            && (l.flusher == Exited ==> l.fatal || Accepted(l) == l.base || Durable(l) == Accepted(l))
  {
    OpenedInv(base, sure);
    RunKeepsInv(Opened(base, sure), run);
    var l := Run(Opened(base, sure), run);
    BatchesInBounds(l);
    hide Inv, Run, Legal;
    if Wait(l, b) == Nil { NilMeansDurable(l, b); }
    if Wait(l, b) == Failed { FailureIsExact(l, b); }
    if Sync(l) == Nil { SyncMeansWritten(l); }
    if l.flusher == Exited { CloseDrains(l); }
  }

  lemma OpenedInv<R>(base: seq<R>, sure: nat)
    requires sure <= |base|
    ensures Inv(Opened(base, sure))
  {
  }
}
