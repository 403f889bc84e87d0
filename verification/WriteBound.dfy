// Compaction's write amplification, over the automatic compactions of one process.
module WriteBound {
  // size and floor are the log's size and the queue's compactFloor; snapshots the sizes of the snapshots installed;
  // appended the bytes flushed to the log since the first of them.
  datatype Books = Books(size: nat, floor: int, threshold: int, snapshots: seq<nat>, appended: nat)

  datatype Step =
    | Flush(bytes: nat)    // flushOnce: a batch reaches the disk
    | Compact(bytes: nat)  // tick found size at the threshold and the floor, and Compact succeeded
    | CompactFails         // before the rename; or for good, after it

  // tick reads the size before it lets go of the mutex, and nothing but Compact makes the log smaller.
  predicate Enabled(b: Books, s: Step) {
    s.Compact? ==> b.size >= b.threshold && b.size >= b.floor
  }

  function Do(b: Books, s: Step): Books {
    match s
    case Flush(n) => b.(size := b.size + n, appended := if b.snapshots == [] then 0 else b.appended + n)
    case Compact(n) => b.(size := n, floor := 2 * n, snapshots := b.snapshots + [n])
    case CompactFails => b
  }

  function Sum(a: seq<nat>): nat {
    if a == [] then 0 else Sum(a[..|a| - 1]) + a[|a| - 1]
  }

  // Each snapshot but the last has been paid for by the appends that doubled the log after it.
  predicate Inv(b: Books) {
    if b.snapshots == [] then b.appended == 0
    else
      var n := |b.snapshots| - 1;
      && b.floor == 2 * b.snapshots[n]
      && b.size >= b.snapshots[n]
      && b.appended >= Sum(b.snapshots[..n]) + (b.size - b.snapshots[n])
  }

  // A compaction that tick has asked for is still allowed when Compact gets to it, whatever was flushed in between.
  lemma AskedForStays(b: Books, s: Step, n: nat, m: nat)
    requires Enabled(b, Compact(n)) && !s.Compact?
    ensures Enabled(Do(b, s), Compact(m))
  {
  }

  lemma StepKeepsInv(b: Books, s: Step)
    requires Inv(b) && Enabled(b, s)
    ensures Inv(Do(b, s))
  {
    if s.Compact? {
      assert Do(b, s).snapshots[..|b.snapshots|] == b.snapshots;
    }
  }

  predicate Legal(b: Books, run: seq<Step>)
    decreases |run|
  {
    run == [] || (Enabled(b, run[0]) && Legal(Do(b, run[0]), run[1..]))
  }

  function Run(b: Books, run: seq<Step>): Books
    decreases |run|
  {
    if run == [] then b else Run(Do(b, run[0]), run[1..])
  }

  lemma {:induction false} RunKeepsInv(b: Books, run: seq<Step>)
    requires Inv(b) && Legal(b, run)
    ensures Inv(Run(b, run))
    decreases |run|
  {
    hide Inv, Enabled, Do;
    if run != [] {
      StepKeepsInv(b, run[0]);
      RunKeepsInv(Do(b, run[0]), run[1..]);
    }
  }

  // The bound: what all snapshots but the last cost is covered by what was appended since the first.
  lemma SnapshotsArePaidFor(size: nat, threshold: int, run: seq<Step>)
    requires Legal(Books(size, 0, threshold, [], 0), run)
    ensures var b := Run(Books(size, 0, threshold, [], 0), run);
            b.snapshots != [] ==> Sum(b.snapshots[..|b.snapshots| - 1]) <= b.appended
  {
    RunKeepsInv(Books(size, 0, threshold, [], 0), run);
  }
}
