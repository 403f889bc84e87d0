// Load: from the bytes of a log file to a queue.
module Loading {
  import opened Bytes
  import opened Seqs
  import opened Messages
  import opened Record
  import opened Replay
  import opened Recovery
  import opened QueueState
  import opened Images
  import opened Journal
  import opened Wire
  import opened Reordering

  datatype LoadResult =
    | Loaded(s: State, recs: seq<LogRec>, valid: nat) // the log is then opened at size `valid`
    | Incomplete                                      // ErrIncompleteQueue: no record at all
    | CorruptLog(offset: nat)
    | ApplyError

  function Decoded(j: ConfigCodec, fs: seq<Frame>): (r: Option<seq<LogRec>>)
    ensures r.Some? ==> |r.value| == |fs|
  {
    if fs == [] then Some([])
    else
      match (Decoded(j, fs[..|fs| - 1]), RecOf(j, fs[|fs| - 1]))
      case (Some(recs), Some(r)) => Some(recs + [r])
      case _ => None
  }

  // Whatever stops a prefix stops the whole.
  lemma {:induction false} DecodedPrefix(j: ConfigCodec, fs: seq<Frame>, k: nat)
    requires k <= |fs| && Decoded(j, fs).Some?
    ensures Decoded(j, fs[..k]) == Some(Decoded(j, fs).value[..k])
    decreases |fs|
  {
    hide RecOf;
    if k == |fs| {
      assert fs[..k] == fs && Decoded(j, fs).value[..k] == Decoded(j, fs).value;
    } else {
      var n := |fs| - 1;
      DecodedPrefix(j, fs[..n], k);
      assert fs[..n][..k] == fs[..k];
      assert Decoded(j, fs).value[..k] == Decoded(j, fs[..n]).value[..k];
    }
  }

  lemma {:induction false} ReplayedPrefix(recs: seq<LogRec>, clock: seq<int>, k: nat)
    requires k <= |recs| == |clock| && Replayed(recs, clock).Some?
    ensures Replayed(recs[..k], clock[..k]).Some?
    decreases |recs|
  {
    hide ApplyRec;
    if k == |recs| {
      assert recs[..k] == recs && clock[..k] == clock;
    } else {
      var n := |recs| - 1;
      ReplayedPrefix(recs[..n], clock[..n], k);
      assert recs[..n][..k] == recs[..k] && clock[..n][..k] == clock[..k];
    }
  }

  lemma NothingLoaded(j: ConfigCodec, frames: seq<Frame>, clock: seq<int>)
    requires |clock| == |frames|
    ensures frames[..0] == [] && clock[..0] == [] && Decoded(j, []) == Some([]) && Replayed([], []) == Some(NEW_QUEUE)
  {
  }

  // The next record decides whether replay goes on.
  lemma OneMoreLoaded(j: ConfigCodec, frames: seq<Frame>, clock: seq<int>, i: nat, s: State)
    requires i < |frames| == |clock| && Decoded(j, frames[..i]).Some?
    requires Replayed(Decoded(j, frames[..i]).value, clock[..i]) == Some(s)
    ensures match RecOf(j, frames[i])
            case None => Decoded(j, frames).None?
            case Some(r) =>
              && Decoded(j, frames[..i + 1]).Some?
              && Replayed(Decoded(j, frames[..i + 1]).value, clock[..i + 1]) == ApplyRec(s, r, clock[i])
              && (ApplyRec(s, r, clock[i]).None? ==>
                    Decoded(j, frames).None? || Replayed(Decoded(j, frames).value, clock).None?)
  {
    hide RecOf, ApplyRec, Decoded, Replayed;
    DecodedNext(j, frames, i);
    if Decoded(j, frames).Some? {
      DecodedPrefix(j, frames, i + 1);
      if Replayed(Decoded(j, frames).value, clock).Some? {
        ReplayedPrefix(Decoded(j, frames).value, clock, i + 1);
      }
    }
    if RecOf(j, frames[i]).Some? {
      ReplayedNext(Decoded(j, frames[..i]).value, RecOf(j, frames[i]).value, clock, i);
    }
  }

  lemma DecodedNext(j: ConfigCodec, frames: seq<Frame>, i: nat)
    requires i < |frames|
    ensures Decoded(j, frames[..i + 1]) ==
            match (Decoded(j, frames[..i]), RecOf(j, frames[i]))
            case (Some(recs), Some(r)) => Some(recs + [r])
            case _ => None
  {
    hide RecOf;
    assert frames[..i + 1][..i] == frames[..i];
  }

  lemma ReplayedNext(recs: seq<LogRec>, r: LogRec, clock: seq<int>, i: nat)
    requires i == |recs| < |clock|
    ensures Replayed(recs + [r], clock[..i + 1]) ==
            if Replayed(recs, clock[..i]).None? then None else ApplyRec(Replayed(recs, clock[..i]).value, r, clock[i])
  {
    hide ApplyRec;
    assert (recs + [r])[..i] == recs && clock[..i + 1][..i] == clock[..i];
  }

  // If record i is META, taking it over cannot put the ready heap out of order: at most one message is in it by then,
  // or the comparator stays the same.
  ghost predicate HarmlessMeta(j: ConfigCodec, frames: seq<Frame>, clock: seq<int>, i: nat)
    requires i < |frames| == |clock|
  {
    match (Decoded(j, frames[..i]), RecOf(j, frames[i]))
    case (Some(recs), Some(MetaRec(c))) =>
      (match (Replayed(recs, clock[..i]), Validate(c))
       case (Some(s), Some(v)) => |ReadyIds(s)| <= 1 || SameComparator(s.cfg, v)
       case _ => true)
    case _ => true
  }

  // Only the first record of a log the program writes is META, and that one is always harmless.
  lemma FirstMetaIsHarmless(j: ConfigCodec, frames: seq<Frame>, clock: seq<int>)
    requires |frames| == |clock| && forall i :: 0 < i < |frames| ==> frames[i].typ != TYPE_META
    ensures forall i :: 0 <= i < |frames| ==> HarmlessMeta(j, frames, clock, i)
  {
    hide Validate, SameComparator;
    NothingLoaded(j, frames, clock);
    assert ReadyIds(NEW_QUEUE) == {};
  }

  // Records are applied in the order Replay delivers them, record i at time clock[i]; an error stops the scan, so it
  // is reported ahead of any corruption further on.
  function Load(j: ConfigCodec, file: bytes, clock: seq<int>): LoadResult
    requires |clock| == |ScanAll(file).frames|
  {
    var scan := ScanAll(file);
    match Decoded(j, scan.frames)
    case None => ApplyError
    case Some(recs) =>
      if |recs| > 0 && !recs[0].MetaRec? then ApplyError
      else
        match Replayed(recs, clock)
        case None => ApplyError
        case Some(s) =>
          if scan.ending.Corrupt? then CorruptLog(scan.valid)
          else if |recs| == 0 then Incomplete
          else Loaded(s, recs, scan.valid)
  }

  lemma {:induction false} DecodedFrames(j: ConfigCodec, recs: seq<LogRec>, now: int)
    requires Faithful(j) && forall i :: 0 <= i < |recs| ==> RecFits(recs[i], now)
    ensures AllWritable(FramesOf(j, recs)) && Decoded(j, FramesOf(j, recs)) == Some(recs)
    decreases |recs|
  {
    hide RecFits, FrameOf, RecOf, Faithful, Writable;
    if recs != [] {
      var n := |recs| - 1;
      DecodedFrames(j, recs[..n], now);
      FrameRoundTrip(j, recs[n], now);
      assert FramesOf(j, recs)[..n] == FramesOf(j, recs[..n]);
      assert recs == recs[..n] + [recs[n]];
      forall i | 0 <= i < |recs| ensures Writable(FramesOf(j, recs)[i]) {
        if i < n { assert FramesOf(j, recs)[i] == FramesOf(j, recs[..n])[i]; }
      }
    }
  }

  // What a crash leaves of a log: all the durable records, and any byte-prefix of those in doubt.
  ghost predicate CrashCut(j: ConfigCodec, durable: seq<LogRec>, inDoubt: seq<LogRec>, file: bytes) {
    exists cut :: 0 <= cut <= |EncodedAll(FramesOf(j, inDoubt))|
      && file == EncodedAll(FramesOf(j, durable)) + EncodedAll(FramesOf(j, inDoubt))[..cut]
  }

  lemma {:induction false} EncodedMonotone(fs: seq<Frame>, a: nat, b: nat)
    requires a <= b <= |fs|
    ensures |EncodedAll(fs[..a])| <= |EncodedAll(fs[..b])|
  {
    hide EncodedAll;
    assert fs[..b] == fs[..a] + fs[a..b];
    EncodedAllAppend(fs[..a], fs[a..b]);
  }

  // Such a file replays to the durable records and some of those in doubt, and is never called corrupt.
  lemma CrashCutReplays(j: ConfigCodec, durable: seq<LogRec>, inDoubt: seq<LogRec>, file: bytes, now: int)
    returns (k: nat)
    requires Faithful(j) && CrashCut(j, durable, inDoubt, file)
    requires forall i :: 0 <= i < |durable + inDoubt| ==> RecFits((durable + inDoubt)[i], now)
    ensures |durable| <= k <= |durable + inDoubt|
    ensures var scan := ScanAll(file);
            && scan.frames == FramesOf(j, (durable + inDoubt)[..k])
            && !scan.ending.Corrupt?
            && Decoded(j, scan.frames) == Some((durable + inDoubt)[..k])
  {
    hide RecFits, Faithful, EncodedAll, FrameOf, RecOf, ScanAll, Decoded, WholeBefore, AllWritable, Writable;
    var all := durable + inDoubt;
    var fs, ds, us := FramesOf(j, all), FramesOf(j, durable), FramesOf(j, inDoubt);
    assert fs == ds + us;
    EncodedAllAppend(ds, us);
    var cut: nat :| cut <= |EncodedAll(us)| && file == EncodedAll(ds) + EncodedAll(us)[..cut];
    var n := |EncodedAll(ds)|;
    TakeIntoSecond(EncodedAll(ds), EncodedAll(us), cut);
    DecodedFrames(j, all, now);
    PrefixRecovery(fs, n + cut);
    k := WholeBefore(fs, n + cut);
    WholeBeforeIsMaximal(fs, n + cut);
    assert fs[..|ds|] == ds;
    if k < |ds| { EncodedMonotone(fs, k + 1, |ds|); }
    assert FramesOf(j, all[..k]) == fs[..k];
    assert forall i :: 0 <= i < k ==> all[..k][i] == all[i];
    DecodedFrames(j, all[..k], now);
  }

  // What Create finds under the name it is given.
  datatype CreateResult =
    | BadConfig
    | UnreadableLog(offset: nat)
    | AlreadyExists
    | NameFree(cfg: Config) // the log is opened at size 0 and its META record made durable

  function Create(cfg: Config, file: Option<bytes>): CreateResult {
    match (Validate(cfg), file)
    case (None, _) => BadConfig
    case (Some(c), None) => NameFree(c)
    case (Some(c), Some(b)) =>
      var scan := ScanAll(b);
      if scan.ending.Corrupt? then UnreadableLog(scan.valid)
      else if |scan.frames| > 0 then AlreadyExists
      else NameFree(c)
  }

  // Create and Load ask the same question: a name is free for a new queue exactly when loading calls the file there
  // incomplete, so no committed record is ever overwritten and no name is lost to an interrupted creation.
  lemma CreateAndLoadAgree(j: ConfigCodec, cfg: Config, file: bytes, clock: seq<int>)
    requires Validate(cfg).Some? && |clock| == |ScanAll(file).frames|
    ensures Create(cfg, Some(file)).NameFree? <==> Load(j, file, clock) == Incomplete
    ensures Create(cfg, Some(file)).NameFree? ==> ScanAll(file).frames == []
    ensures Load(j, file, clock).Loaded? ==> Create(cfg, Some(file)) == AlreadyExists
    ensures Load(j, file, clock).CorruptLog? ==> Create(cfg, Some(file)) == UnreadableLog(Load(j, file, clock).offset)
  {
    hide ScanAll, Validate, ApplyRec, RecOf;
  }

  // Create turns down the settings nobody may ask for, whatever is on disk, and otherwise makes the queue with what was
  // asked for and the defaults.
  lemma CreateFillsIn(cfg: Config, file: Option<bytes>)
    ensures Create(cfg, file).BadConfig? <==> !Permissible(cfg)
    ensures Create(cfg, file).NameFree? ==> FilledIn(cfg, Create(cfg, file).cfg)
    ensures Permissible(cfg) && file.None? ==> Create(cfg, file).NameFree?
  {
    hide ScanAll, Validate, Permissible, FilledIn, Validated;
    ValidateNormalises(cfg);
  }

  // A queue whose creation was cut short holds no record: Load calls it incomplete, and Create starts it over.
  lemma InterruptedCreateIsIncomplete(j: ConfigCodec, cfg: Config, cut: nat)
    requires Faithful(j) && Validated(cfg) && WithinWidths(cfg) && cut < |EncodedAll(FramesOf(j, [MetaRec(cfg)]))|
    ensures var file := EncodedAll(FramesOf(j, [MetaRec(cfg)]))[..cut];
            ScanAll(file).frames == [] && Load(j, file, []) == Incomplete
  {
    hide Faithful, EncodedAll, FrameOf, ScanAll, WholeBefore, AllWritable, Writable, Validated, RecOf;
    var recs := [MetaRec(cfg)];
    assert RecFits(recs[0], 0);
    DecodedFrames(j, recs, 0);
    var fs := FramesOf(j, recs);
    PrefixRecovery(fs, cut);
    WholeBeforeIsMaximal(fs, cut);
    assert fs[..1] == fs;
  }
}
