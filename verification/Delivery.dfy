// The order of delivery across a restart, for queues without aging.
module Delivery {
  import opened Bytes
  import opened Messages
  import opened QueueState
  import opened Images
  import opened Invariants
  import opened Restarts
  import J = Journal
  import Runs

  predicate AgingOff(cfg: Config) {
    cfg.agingIntervalMS == 0
  }

  // Without aging a ready message's effective priority is its own.
  predicate Plain(s: State) {
    forall id :: id in s.live && s.live[id].status.Ready? ==> s.live[id].status.eff == s.live[id].m.priority
  }

  // The queue with every lease given up.
  function Unleased(s: State): State {
    s.(live := map id | id in s.live ::
      if s.live[id].status.InFlight? then s.live[id].(status := Ready(s.live[id].m.priority)) else s.live[id])
  }

  lemma PlainKept(s: State, e: J.Event, now: int)
    requires AgingOff(s.cfg) && Plain(s)
    ensures Plain(J.After(s, e, now)) && J.After(s, e, now).cfg == s.cfg
  {
  }

  lemma {:induction false} ReplayedPlain(recs: seq<LogRec>, clock: seq<int>)
    requires |clock| == |recs| && Replayed(recs, clock).Some?
    requires forall i :: 0 <= i < |recs| && recs[i].MetaRec? ==> AgingOff(recs[i].cfg)
    ensures AgingOff(Replayed(recs, clock).value.cfg) && Plain(Replayed(recs, clock).value)
    decreases |recs|
  {
    if recs != [] {
      var n := |recs| - 1;
      ReplayedPlain(recs[..n], clock[..n]);
      PlainRecord(Replayed(recs[..n], clock[..n]).value, recs[n], clock[n]);
    }
  }

  lemma PlainRecord(s: State, r: LogRec, now: int)
    requires AgingOff(s.cfg) && Plain(s) && ApplyRec(s, r, now).Some? && (r.MetaRec? ==> AgingOff(r.cfg))
    ensures AgingOff(ApplyRec(s, r, now).value.cfg) && Plain(ApplyRec(s, r, now).value)
  {
  }

  // The settings a log starts with are the queue's.
  lemma {:induction false} MetaSettingsKept(log: seq<LogRec>, v: Image)
    requires |log| > 0 && log[0].MetaRec? && Validated(log[0].cfg) && IFold(log) == Some(v)
    requires forall i :: 0 < i < |log| ==> !log[i].MetaRec?
    ensures v.cfg == Settings(log[0].cfg)
    decreases |log|
  {
    hide Validate, Validated, Norm, StoredAttempt;
    var n := |log| - 1;
    if n == 0 {
      ValidateNormalises(log[0].cfg);
    } else {
      MetaSettingsKept(log[..n], IFold(log[..n]).value);
    }
  }

  lemma LogAgingOff(c: J.Core)
    requires J.Inv(c) && AgingOff(c.s.cfg)
    ensures forall i :: 0 <= i < |c.log| && c.log[i].MetaRec? ==> AgingOff(c.log[i].cfg)
  {
    assert Validated(c.log[0].cfg) by { assert J.RecFits(c.log[0], c.now); }
    hide J.RecFits, IFold, Good, Validated;
    MetaSettingsKept(c.log, IFold(c.log).value);
  }

  predicate SameLine(s: State, t: State) {
    && Settings(s.cfg) == Settings(t.cfg)
    && ReadyIds(s) == ReadyIds(t)
    && forall id :: id in ReadyIds(s) ==> RankOf(s, id) == RankOf(t, id)
  }

  lemma SameLineSorted(s: State, t: State)
    requires SameLine(s, t) && DistinctSeqs(s) && DistinctSeqs(t)
    ensures SortedReady(s) == SortedReady(t)
  {
    SortedIsASort(s, ReadyIds(s));
    SameLineSort(s, t, SortedReady(s));
    hide DistinctSeqs, IsSortOf;
    SortIsUnique(t, ReadyIds(t), SortedReady(s));
  }

  lemma SameLineSort(s: State, t: State, q: seq<bytes>)
    requires SameLine(s, t) && IsSortOf(s, ReadyIds(s), q)
    ensures IsSortOf(t, ReadyIds(t), q)
  {
    forall i, j | 0 <= i < j < |q|
      ensures q[i] in ReadyIds(t) && q[j] in ReadyIds(t) && q[i] != q[j] && IdBefore(t, q[i], q[j])
    {
      assert IdBefore(s, q[i], q[j]);
    }
  }

  // The line of ready messages is the same once leases are given up and everything due is promoted.
  lemma LinesAgree(s: State, r: State, T: int)
    requires Standings(Promote(r, T)) == Standings(Promote(s, T)) && MsgsOf(r.live) == MsgsOf(s.live)
    requires Settings(r.cfg) == Settings(s.cfg) && AgingOff(s.cfg) && Plain(s) && Plain(r)
    requires forall id :: id in r.live ==> !r.live[id].status.InFlight?
    ensures SameLine(Promote(r, T), Unleased(Promote(s, T)))
  {
    assert AgingOff(r.cfg) by { assert Settings(r.cfg).agingIntervalMS == Settings(s.cfg).agingIntervalMS; }
    hide Promote, Unleased, Standings, MsgsOf, Plain, Settings, AgingOff;
    var p, u := Promote(r, T), Unleased(Promote(s, T));
    forall id ensures id in ReadyIds(p) <==> id in ReadyIds(u)
              ensures id in ReadyIds(p) && id in ReadyIds(u) ==> RankOf(p, id) == RankOf(u, id)
    {
      OneInLine(s, r, T, id);
    }
    SettingsStay(s, r, T);
  }

  lemma SettingsStay(s: State, r: State, T: int)
    ensures Promote(r, T).cfg == r.cfg && Unleased(Promote(s, T)).cfg == s.cfg
  {
  }

  lemma OneInLine(s: State, r: State, T: int, id: bytes)
    requires Standings(Promote(r, T)) == Standings(Promote(s, T)) && MsgsOf(r.live) == MsgsOf(s.live)
    requires AgingOff(s.cfg) && AgingOff(r.cfg) && Plain(s) && Plain(r)
    requires forall id :: id in r.live ==> !r.live[id].status.InFlight?
    ensures var p, u := Promote(r, T), Unleased(Promote(s, T));
            && (id in ReadyIds(p) <==> id in ReadyIds(u))
            && (id in ReadyIds(p) && id in ReadyIds(u) ==> RankOf(p, id) == RankOf(u, id))
  {
    StandOf(s, r, T, id);
    assert id in r.live ==> MsgsOf(r.live)[id] == StoredOf(r.live[id]) == MsgsOf(s.live)[id] == StoredOf(s.live[id]);
    hide Standings, MsgsOf;
  }

  lemma StandOf(s: State, r: State, T: int, id: bytes)
    requires Standings(Promote(r, T)) == Standings(Promote(s, T)) && MsgsOf(r.live) == MsgsOf(s.live)
    ensures id in r.live <==> id in s.live
    ensures id in r.live ==> StandingOf(Promote(r, T).live[id]) == StandingOf(Promote(s, T).live[id])
  {
    assert id in MsgsOf(r.live) <==> id in MsgsOf(s.live);
    hide EffectivePriority;
    if id in r.live {
      assert Standings(Promote(r, T))[id] == StandingOf(Promote(r, T).live[id]);
      assert Standings(Promote(s, T))[id] == StandingOf(Promote(s, T).live[id]);
    }
  }

  // A restart does not reorder deliveries: without aging, what the recovered queue would hand out next, and in which
  // order, is what the running one would have once its leases were given up.
  lemma RestartKeepsOrder(c: J.Core, clock: seq<int>, T: int)
    requires J.Inv(c) && |clock| == |c.log| && ClockWithin(clock, c.now, T) && c.now <= T
    requires AgingOff(c.s.cfg) && Plain(c.s)
    ensures Replayed(c.log, clock).Some?
    ensures var r := Promote(Replayed(c.log, clock).value, T);
            var s := Unleased(Promote(c.s, T));
            DistinctSeqs(r) && DistinctSeqs(s) && SortedReady(r) == SortedReady(s)
  {
    assert c.log[..|c.log|] == c.log;
    ReplayRefinesLive(c, clock, T);
    RestartKeepsInv(c, |c.log|, |c.log|, clock, T);
    LogAgingOff(c);
    J.ReachableIsOrderly(c);
    hide J.Inv, Replayed, IFold, MsgsOf, Standings, Promote, Unleased, ClockWithin, Plain, SameLine;
    var r := Replayed(c.log, clock).value;
    ReplayedPlain(c.log, clock);
    Runs.ReplayedUnleased(c.log, clock);
    J.ReachableIsOrderly(J.Core(r, T, c.log, |c.log|, c.used));
    SeqsStayDistinct(c.s, T);
    SeqsStayDistinct(r, T);
    LinesAgree(c.s, r, T);
    SameLineSorted(Promote(r, T), Unleased(Promote(c.s, T)));
  }

  lemma SeqsStayDistinct(s: State, T: int)
    requires DistinctSeqs(s)
    ensures DistinctSeqs(Promote(s, T)) && DistinctSeqs(Unleased(Promote(s, T)))
  {
    hide EffectivePriority;
  }

  // Over whole runs: the condition on stored priorities never has to be checked.
  lemma {:induction false} RunIsPlain(w: Runs.World, run: seq<Runs.Move>)
    requires Runs.Inv(w) && Runs.Legal(w, run) && AgingOff(w.core.s.cfg) && Plain(w.core.s)
    ensures var z := Runs.Run(w, run); Runs.Inv(z) && AgingOff(z.core.s.cfg) && Plain(z.core.s)
    decreases |run|
  {
    hide Runs.Inv, Runs.Enabled, Plain, Runs.Do;
    if run != [] {
      MoveIsPlain(w, run[0]);
      RunIsPlain(Runs.Do(w, run[0]), run[1..]);
    }
  }

  lemma MoveIsPlain(w: Runs.World, mv: Runs.Move)
    requires Runs.Inv(w) && Runs.Enabled(w, mv) && AgingOff(w.core.s.cfg) && Plain(w.core.s)
    ensures var z := Runs.Do(w, mv); Runs.Inv(z) && AgingOff(z.core.s.cfg) && Plain(z.core.s)
  {
    hide J.Inv, Plain, Runs.Answers, Runs.Spaced, Runs.Balanced, Replayed, J.After;
    match mv
    case Operation(e, now) =>
      Runs.OperationKeepsInv(w, e, now);
      PlainKept(w.core.s, e, now);
    case Compaction(recs, now) => Runs.CompactionKeepsInv(w, recs, now);
    case CleanRestart(clock, now) =>
      Runs.RestartKeepsBooks(w, clock, now);
      LogAgingOff(w.core);
      if Replayed(w.core.log, clock).Some? { ReplayedPlain(w.core.log, clock); }
  }

  lemma DeliveryOrderSurvives(cfg: Config, start: int, run: seq<Runs.Move>, clock: seq<int>, T: int)
    requires Validated(cfg) && WithinWidths(cfg) && AgingOff(cfg) && Runs.Legal(Runs.Begun(cfg, start), run)
    requires var c := Runs.Run(Runs.Begun(cfg, start), run).core;
             |clock| == |c.log| && ClockWithin(clock, c.now, T) && c.now <= T
    ensures var c := Runs.Run(Runs.Begun(cfg, start), run).core;
            && Replayed(c.log, clock).Some?
            && var r := Promote(Replayed(c.log, clock).value, T);
               var s := Unleased(Promote(c.s, T));
               DistinctSeqs(r) && DistinctSeqs(s) && SortedReady(r) == SortedReady(s)
  {
    Runs.BegunInv(cfg, start);
    RunIsPlain(Runs.Begun(cfg, start), run);
    hide Runs.Run, Runs.Legal, J.Inv, Plain, Runs.Answers, Runs.Spaced, Runs.Balanced, Replayed, ClockWithin;
    RestartKeepsOrder(Runs.Run(Runs.Begun(cfg, start), run).core, clock, T);
  }
}
