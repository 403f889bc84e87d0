// The background timer: what keeps it from sleeping through an event.
module Timer {
  import opened Bytes
  import opened Messages
  import opened QueueState
  import opened QueueLoops
  import J = Journal

  const HOUR: int := 3_600_000 * MILLISECOND

  // Where the run loop is: about to tick, with the tick's answer in hand, or asleep until a time.
  datatype Loop = Awake | ToArm(next: Option<int>) | Asleep(armedAt: int, until: int)

  // owing counts operations that have changed the state and have yet to signal, or to fail the queue.
  datatype Clockwork = Clockwork(
    s: State,
    lastAge: int,
    lastPurge: int,
    interval: int,
    now: int,
    loop: Loop,
    token: bool,
    owing: nat,
    failed: bool)

  datatype Step =
    | Operate(e: J.Event, now: int)  // an operation's hold of the mutex
    | Signal                         // its call of signal, its record durable
    | OperationFails                 // its wait failed, and with it the queue
    | Tick(now: int, lastAge: int, next: Option<int>, ok: bool) // ok: no append failed during it
    | Arm(now: int)
    | TakeToken
    | Fire(now: int)

  // Operations that make something new to wait for signal afterwards. A Dequeue that leased nothing does not.
  predicate Signals(e: J.Event) {
    e.EvEnqueue? || e.EvNack? || (e.EvDequeue? && e.ids != [])
  }

  // The four calls a client can make; a Dequeue that came back empty found nothing ready.
  ghost predicate Call(s: State, e: J.Event, now: int) {
    match e
    case EvEnqueue(m) => m.id !in s.live
    case EvDequeue(ids, deadline) =>
      && DistinctSeqs(Promote(s, now)) && ids <= SortedReady(Promote(s, now))
      && (ids == [] ==> SortedReady(Promote(s, now)) == [])
    case EvAck(id) => id in s.live
    case EvNack(id) => id in s.live
    case _ => false
  }

  ghost predicate Enabled(c: Clockwork, step: Step) {
    match step
    case Operate(e, now) => !c.failed && c.now <= now && Call(c.s, e, now)
    case Signal => c.owing > 0
    case OperationFails => c.owing > 0
    case Tick(now, lastAge, next, ok) =>
      && c.loop.Awake? && c.now <= now
      && (c.failed ==> next == None)
      && (!c.failed && ok ==> IsNext(TickedState(c, now), lastAge, TickedPurge(c, now), c.interval, next))
    case Arm(now) => c.loop.ToArm? && c.now <= now
    case TakeToken => c.loop.Asleep? && c.token
    case Fire(now) => c.loop.Asleep? && c.now <= now && c.loop.until <= now
  }

  function TickedState(c: Clockwork, now: int): State {
    QueueLoops.Ticked(c.s, now, c.s.cfg.agingIntervalMS > 0 && now - c.lastAge >= c.s.cfg.agingIntervalMS * 1_000_000,
                      now - c.lastPurge >= c.interval)
  }

  function TickedPurge(c: Clockwork, now: int): int {
    if now - c.lastPurge >= c.interval then now else c.lastPurge
  }

  function Later(a: int, b: int): int {
    if a < b then b else a
  }

  // When the timer is set to go off: at the next event, but never sooner than a millisecond from now.
  function Until(next: Option<int>, now: int): int {
    match next
    case None => now + HOUR
    case Some(t) => now + Later(t - now, MILLISECOND)
  }

  function Do(c: Clockwork, step: Step): Clockwork {
    match step
    case Operate(e, now) =>
      c.(s := J.After(c.s, e, now), now := now, owing := c.owing + if Signals(e) then 1 else 0)
    case Signal => c.(owing := if c.owing > 0 then c.owing - 1 else 0, token := true)
    case OperationFails => c.(owing := if c.owing > 0 then c.owing - 1 else 0, failed := true)
    case Tick(now, lastAge, next, ok) =>
      if c.failed then c.(now := now, loop := ToArm(next))
      else c.(s := TickedState(c, now), lastAge := lastAge, lastPurge := TickedPurge(c, now), now := now,
              loop := ToArm(next), failed := !ok)
    case Arm(now) =>
      if c.loop.ToArm? then c.(now := now, loop := Asleep(now, Until(c.loop.next, now))) else c
    case TakeToken => c.(token := false, loop := Awake)
    case Fire(now) => c.(now := now, loop := Awake)
  }

  predicate Awaited(c: Clockwork, t: int) {
    Pending(c.s, c.lastAge, c.lastPurge, c.interval, t)
  }

  // Nothing is slept through: an event before the timer has a token pending, or an operation still to signal.
  ghost predicate Inv(c: Clockwork) {
    c.failed || c.token || c.owing > 0 ||
    match c.loop
    case Awake => true
    case ToArm(next) => forall t :: Awaited(c, t) ==> NoLater(next, t)
    case Asleep(at, until) => forall t :: Awaited(c, t) ==> until <= Later(t, at + MILLISECOND)
  }

  // An operation that does not signal leaves nothing new to wait for.
  lemma NothingNew(s: State, e: J.Event, now: int, lastAge: int, lastPurge: int, interval: int, t: int)
    requires Call(s, e, now) && !Signals(e)
    requires Pending(J.After(s, e, now), lastAge, lastPurge, interval, t)
    ensures Pending(s, lastAge, lastPurge, interval, t)
  {
    hide EffectivePriority, SortedReady;
    if e.EvDequeue? {
      NoneReadyThen(Promote(s, now));
      assert J.Elements(e.ids) == {};
      assert Lease(Promote(s, now), {}, e.deadline) == Promote(s, now);
      PromoteAddsOnlyReady(s, now, lastAge, lastPurge, interval, t);
    } else {
      AckRemoves(s, e.id, now, lastAge, lastPurge, interval, t);
    }
  }

  lemma NoneReadyThen(s: State)
    requires DistinctSeqs(s) && SortedReady(s) == []
    ensures ReadyIds(s) == {}
  {
    assert |ReadyIds(s)| == 0;
  }

  lemma PromoteAddsOnlyReady(s: State, now: int, lastAge: int, lastPurge: int, interval: int, t: int)
    requires ReadyIds(Promote(s, now)) == {} && Pending(Promote(s, now), lastAge, lastPurge, interval, t)
    ensures Pending(s, lastAge, lastPurge, interval, t)
  {
    hide EffectivePriority;
    forall id | id in s.live ensures id in Promote(s, now).live {}
  }

  lemma AckRemoves(s: State, id: bytes, now: int, lastAge: int, lastPurge: int, interval: int, t: int)
    requires id in s.live && Pending(J.After(s, J.EvAck(id), now), lastAge, lastPurge, interval, t)
    ensures Pending(s, lastAge, lastPurge, interval, t)
  {
    var u := J.After(s, J.EvAck(id), now);
    assert ReadyIds(u) <= ReadyIds(s);
  }

  lemma StepKeepsInv(c: Clockwork, step: Step)
    requires Inv(c) && Enabled(c, step)
    ensures Inv(Do(c, step))
  {
    hide Pending, J.After, QueueLoops.Ticked, SortedReady, DistinctSeqs;
    if step.Operate? && !Signals(step.e) {
      var d := Do(c, step);
      forall t | Awaited(d, t) ensures Awaited(c, t) {
        NothingNew(c.s, step.e, step.now, c.lastAge, c.lastPurge, c.interval, t);
      }
    }
    if step.Arm? {
      forall t | Awaited(Do(c, step), t) ensures Awaited(c, t) {}
    }
  }

  ghost predicate Legal(c: Clockwork, run: seq<Step>)
    decreases |run|
  {
    run == [] || (Enabled(c, run[0]) && Legal(Do(c, run[0]), run[1..]))
  }

  function Run(c: Clockwork, run: seq<Step>): Clockwork
    decreases |run|
  {
    if run == [] then c else Run(Do(c, run[0]), run[1..])
  }

  lemma {:induction false} RunKeepsInv(c: Clockwork, run: seq<Step>)
    requires Inv(c) && Legal(c, run)
    ensures Inv(Run(c, run))
    decreases |run|
  {
    hide Inv, Enabled, Do;
    if run != [] {
      StepKeepsInv(c, run[0]);
      RunKeepsInv(Do(c, run[0]), run[1..]);
    }
  }

  // start: the loop is about to tick.
  function Started(s: State, interval: int, now: int): Clockwork {
    Clockwork(s, now, now, interval, now, Awake, false, 0, false)
  }

  // Timer soundness over whole runs. While the loop sleeps, with no token pending and no operation still to signal,
  // the timer goes off by the time of every event, or within a millisecond of having been set.
  lemma NeverOversleeps(s: State, interval: int, now: int, run: seq<Step>, t: int)
    requires Legal(Started(s, interval, now), run)
    ensures var c := Run(Started(s, interval, now), run);
            !c.failed && c.loop.Asleep? && !c.token && c.owing == 0 && Awaited(c, t) ==>
              c.loop.until <= Later(t, c.loop.armedAt + 1_000_000)
  {
    RunKeepsInv(Started(s, interval, now), run);
    hide Run, Legal;
  }

  // It is not quite "no later than the next event": with under a millisecond to go the timer is late, and only then.
  lemma LateByTheClamp(next: int, now: int)
    ensures Until(Some(next), now) > next <==> next < now + 1_000_000
    ensures Until(Some(next), now) <= Later(next, now + 1_000_000)
    ensures Until(None, now) == now + 3_600_000_000_000
  {
  }
}
