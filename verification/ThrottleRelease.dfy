/** A blocked reader is released after a bounded number of fetched ticks, and after a bounded
    number of steps of the throttle thread. */
module ThrottleRelease {
  import opened Integers
  import opened ThrottleMachine
  import opened ThrottleWakeUp

  // The reader is held in the waiting loop of `wait`.
  predicate Blocked(s: State) {
    (s.reader.LoopTest? || s.reader.CvTest? || s.reader.CvParked?) && !Released(s)
  }

  // Every state of the run, the last one included, holds the reader.
  predicate StaysBlocked(s: State, es: seq<Event>)
    requires Valid(s) && IsRun(s, es)
    decreases |es|
  {
    Blocked(s) && (es == [] || StaysBlocked(Next(s, es[0]), es[1..]))
  }

  predicate IsTick(s: State, e: Event) {
    e.LoopRuns? && s.loop.Sleep?
  }

  function Ticks(s: State, es: seq<Event>): nat
    requires Valid(s) && IsRun(s, es)
    decreases |es|
  {
    if es == [] then 0 else (if IsTick(s, es[0]) then 1 else 0) + Ticks(Next(s, es[0]), es[1..])
  }

  function IdleAfterTick(c: Counters): nat {
    (c.idle + 1) % UINT16_COUNT
  }

  // Ticks that the idle counter still allows once the last position is known to stand still.
  function IdleLeft(idle: nat): nat {
    if idle <= IDLE_LIMIT_COUNT then IDLE_LIMIT_COUNT + 1 - idle else 0
  }

  // Ticks that can still come before the idle counter stops the loop.
  function IdleRank(m: Memory, c: Counters, l: Loop): nat {
    var still := m.lastPos == c.lastPosIdle;
    match l
    case Outer | StartTest | StartParked => IDLE_LIMIT_COUNT + 2
    case TickNotify | IdleCount => if still then IdleLeft(IdleAfterTick(c)) else IDLE_LIMIT_COUNT + 1
    case IdleKeepPosition => IdleLeft(c.idle)
    case IdleTest => if still || c.idle > IDLE_LIMIT_COUNT then IdleLeft(c.idle) else IDLE_LIMIT_COUNT + 2
    case IdleStop => 0
    case _ => if still then 1 + IdleLeft(IdleAfterTick(c)) else IDLE_LIMIT_COUNT + 2
  }

  function TickRank(m: Memory, c: Counters, l: Loop): nat
    requires m.index <= m.pos
  {
    if m.pos - m.index <= IdleRank(m, c, l) then m.pos - m.index else IdleRank(m, c, l)
  }

  predicate LowersRanks(s: State, t: State, ticks: nat) {
    && t.mem.pos - t.mem.index + ticks <= s.mem.pos - s.mem.index
    && IdleRank(t.mem, t.count, t.loop) + ticks <= IdleRank(s.mem, s.count, s.loop)
  }

  lemma LoopLowersRanks(s: State)
    requires Valid(s) && Blocked(s) && Blocked(LoopStep(s))
    ensures LowersRanks(s, LoopStep(s), if s.loop.Sleep? then 1 else 0)
  {
    match s.loop {
      case Sleep(_) =>
      case IdleCount =>
      case IdleTest =>
      case _ =>
    }
  }

  lemma StepLowersRanks(s: State, e: Event)
    requires Valid(s) && Enabled(s, e) && Blocked(s) && Blocked(Next(s, e))
    ensures LowersRanks(s, Next(s, e), if IsTick(s, e) then 1 else 0)
  {
    match e {
      case LoopRuns => LoopLowersRanks(s);
      case ReaderRuns => assert ReaderStep(s).loop == s.loop || s.reader.StartNotify?;
      case Push(lap) =>
      case _ =>
    }
  }

  /** While the reader stays blocked, at most pos - index and at most IDLE_LIMIT_COUNT + 2 ticks
      are fetched, whatever the producer does meanwhile; so it is released by one of the next
      min(pos - index + 1, IDLE_LIMIT_COUNT + 2) ticks. */
  lemma {:induction false} ReleasedWithinTicks(s: State, es: seq<Event>)
    requires Valid(s) && IsRun(s, es) && StaysBlocked(s, es)
    ensures Ticks(s, es) <= TickRank(s.mem, s.count, s.loop)
    ensures Ticks(s, es) <= s.mem.pos - s.mem.index && Ticks(s, es) <= IDLE_LIMIT_COUNT + 2
    decreases |es|
  {
    if es != [] {
      StepLowersRanks(s, es[0]);
      ReleasedWithinTicks(Next(s, es[0]), es[1..]);
    }
  }

  // How far the throttle thread is from its next fetch, stop or tick.
  function Phase(data: bool, l: Loop): nat {
    match l
    case Outer => 15
    case StartTest => 14
    case StartParked => 14
    case TickNotify | TimeoutNotify | IdleNotify => 13
    case PeriodParked => if data then 13 else 6
    case PeriodTest => if data then 12 else 7
    case IdleCount => 12
    case IdleKeepPosition => 11
    case IdleTest => 10
    case Inner => 9
    case Fetch => 8
    case Sleep(_) => 7
    case TimeoutStop | IdleStop => 5
  }

  function Rank(m: Memory, c: Counters, l: Loop, periodFlag: bool): nat
    requires m.index <= m.pos
  {
    var data := m.index < |m.periods|;
    40 * TickRank(m, c, l) + (if periodFlag then 20 else 0) + (if data then 0 else 20) + Phase(data, l)
  }

  // Bounds the steps that the throttle thread can still make while the reader stays blocked.
  function StepRank(s: State): nat
    requires Blocked(s)
  {
    Rank(s.mem, s.count, s.loop, s.flag.period)
  }

  function LoopStepsOf(e: Event): nat {
    if e.LoopRuns? || e.LoopTimesOut? then 1 else 0
  }

  function LoopSteps(es: seq<Event>): nat {
    if es == [] then 0 else LoopStepsOf(es[0]) + LoopSteps(es[1..])
  }

  // What steps of others can add to the work of the throttle thread.
  function DisturbancesOf(e: Event): nat {
    if e.PushNotify? then 21 else if e.LoopWakes? then 1 else 0
  }

  function Disturbances(es: seq<Event>): nat {
    if es == [] then 0 else DisturbancesOf(es[0]) + Disturbances(es[1..])
  }

  // One tick pays for the way to the next one.
  lemma TickLowersStepRank(s: State)
    requires Valid(s) && Blocked(s) && Blocked(LoopStep(s)) && s.loop.Sleep?
    ensures StepRank(LoopStep(s)) < StepRank(s)
  {
    LoopLowersRanks(s);
  }

  predicate IsWaiting(l: Loop) {
    l.Outer? || l.StartTest? || l.Inner? || l.Fetch? || l.PeriodTest?
  }

  lemma WaitingLowersStepRank(s: State)
    requires Valid(s) && NoLostWakeUp(s) && Blocked(s) && Blocked(LoopStep(s)) && IsWaiting(s.loop)
    ensures StepRank(LoopStep(s)) < StepRank(s)
  {
    LoopLowersRanks(s);
  }

  predicate IsNotifying(l: Loop) {
    l.TickNotify? || l.TimeoutNotify? || l.IdleNotify?
  }

  lemma NotifyingLowersStepRank(s: State)
    requires Valid(s) && Blocked(s) && Blocked(LoopStep(s)) && IsNotifying(s.loop)
    ensures StepRank(LoopStep(s)) < StepRank(s)
  {
    LoopLowersRanks(s);
  }

  predicate IsCounting(l: Loop) {
    l.IdleCount? || l.IdleKeepPosition? || l.IdleTest?
  }

  lemma CountingLowersStepRank(s: State)
    requires Valid(s) && Blocked(s) && Blocked(LoopStep(s)) && IsCounting(s.loop)
    ensures StepRank(LoopStep(s)) < StepRank(s)
  {
    LoopLowersRanks(s);
  }

  // Both stops release the reader.
  lemma LoopLowersStepRank(s: State)
    requires Valid(s) && NoLostWakeUp(s) && Enabled(s, LoopRuns) && Blocked(s) && Blocked(LoopStep(s))
    ensures StepRank(LoopStep(s)) < StepRank(s)
  {
    if s.loop.Sleep? {
      TickLowersStepRank(s);
    } else if IsWaiting(s.loop) {
      WaitingLowersStepRank(s);
    } else if IsNotifying(s.loop) {
      NotifyingLowersStepRank(s);
    } else {
      CountingLowersStepRank(s);
    }
  }

  lemma PushLowersStepRank(s: State, lap: nat)
    requires Valid(s) && Blocked(s) && Blocked(Register(s, lap)) && Enabled(s, Push(lap))
    ensures StepRank(Register(s, lap)) <= StepRank(s)
  {
    StepLowersRanks(s, Push(lap));
  }

  lemma ReaderKeepsStepRank(s: State)
    requires Valid(s) && Blocked(s) && Blocked(ReaderStep(s))
    ensures StepRank(ReaderStep(s)) == StepRank(s)
  {
    var t := ReaderStep(s);
    assert t.mem == s.mem && t.count == s.count && t.loop == s.loop && t.flag.period == s.flag.period;
  }

  lemma OtherLowersStepRank(s: State, e: Event)
    requires Valid(s) && Enabled(s, e) && NoLostWakeUp(s) && Blocked(s) && Blocked(Next(s, e))
    requires !e.LoopRuns? && !e.Push? && !e.ReaderRuns?
    ensures StepRank(Next(s, e)) + LoopStepsOf(e) <= StepRank(s) + DisturbancesOf(e)
  {
    StepLowersRanks(s, e);
  }

  lemma StepLowersStepRank(s: State, e: Event)
    requires Valid(s) && Enabled(s, e) && NoLostWakeUp(s) && Blocked(s) && Blocked(Next(s, e))
    ensures StepRank(Next(s, e)) + LoopStepsOf(e) <= StepRank(s) + DisturbancesOf(e)
  {
    match e {
      case LoopRuns => LoopLowersStepRank(s);
      case Push(lap) => PushLowersStepRank(s, lap);
      case ReaderRuns => ReaderKeepsStepRank(s);
      case _ => OtherLowersStepRank(s, e);
    }
  }

  /** The throttle thread cannot run for ever without releasing a blocked reader: its steps are
      bounded by the ticks that are left, plus 21 for every push that is announced to it and one
      for every spurious wake-up. */
  lemma {:induction false} ReleasedWithinSteps(s: State, es: seq<Event>)
    requires Valid(s) && NoLostWakeUp(s) && IsRun(s, es) && StaysBlocked(s, es)
    ensures LoopSteps(es) <= StepRank(s) + Disturbances(es)
    decreases |es|
  {
    if es != [] {
      var t := Next(s, es[0]);
      StepKeepsNoLostWakeUp(s, es[0]);
      StepLowersStepRank(s, es[0]);
      ReleasedWithinSteps(t, es[1..]);
    }
  }

  /** Which is never more than a fixed number of steps and what the disturbances add. */
  lemma StepRankIsBounded(s: State)
    requires Blocked(s)
    ensures StepRank(s) <= 40 * (IDLE_LIMIT_COUNT + 2) + 55
  {
  }

  /** And it can always make a step while a reader is blocked, so no state of any run is stuck
      with a blocked reader. */
  lemma BlockedReaderIsNeverStuck(capacity: nat, es: seq<Event>)
    requires 0 < capacity && IsRun(Initial(capacity), es) && Blocked(After(Initial(capacity), es))
    ensures var s := After(Initial(capacity), es);
            Enabled(s, LoopRuns) || Enabled(s, LoopTimesOut)
  {
    RunKeepsNoLostWakeUp(Initial(capacity), es);
  }
}
