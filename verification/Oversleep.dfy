/** A run in which the throttle thread oversleeps: it has caught up with the live position and sleeps
    for a new period, when the reader jumps back and stores an index of old ones. */
module Oversleep {
  import opened ThrottleMachine
  import opened ThrottleWakeUp

  const CAPACITY: nat := 12

  ghost predicate Reachable(s: State) {
    exists es :: IsRun(Initial(CAPACITY), es) && After(Initial(CAPACITY), es) == s
  }

  lemma {:induction false} RunsOn(s: State, es: seq<Event>, e: Event)
    requires Valid(s) && IsRun(s, es) && Enabled(After(s, es), e)
    ensures IsRun(s, es + [e]) && After(s, es + [e]) == Next(After(s, es), e)
    decreases |es|
  {
    if es == [] {
      assert [e][1..] == [] && es + [e] == [e];
      assert After(s, [e]) == After(Next(s, e), [e][1..]);
    } else {
      assert (es + [e])[1..] == es[1..] + [e];
      RunsOn(Next(s, es[0]), es[1..], e);
    }
  }

  lemma Step(s: State, e: Event) returns (t: State)
    requires Valid(s) && Reachable(s) && Enabled(s, e)
    ensures t == Next(s, e) && Valid(t) && Reachable(t)
  {
    var es :| IsRun(Initial(CAPACITY), es) && After(Initial(CAPACITY), es) == s;
    RunsOn(Initial(CAPACITY), es, e);
    t := Next(s, e);
  }

  // n chunks have been pushed without delay.
  function Pushed(n: nat): State {
    var s := Initial(CAPACITY);
    s.(mem := s.mem.(periods := seq(n, _ => 0)), flag := Flags(false, false, n > 0))
  }

  lemma {:induction false} PushesAreReachable(n: nat)
    requires n <= CAPACITY
    ensures Reachable(Pushed(n))
  {
    if n == 0 {
      assert IsRun(Initial(CAPACITY), []) && After(Initial(CAPACITY), []) == Pushed(0);
    } else {
      PushesAreReachable(n - 1);
      var s := Step(Pushed(n - 1), Push(0));
      assert s.mem.periods == Pushed(n).mem.periods;
      s := Step(s, PushNotify);
      assert s == Pushed(n);
    }
  }

  // Up to where `wait` consults the budget.
  lemma EligibleCall(s: State) returns (t: State)
    requires Valid(s) && Reachable(s) && s.reader.Outside? && !IsLive(s)
    ensures t == s.(reader := CountAhead) && Valid(t) && Reachable(t)
  {
    t := Step(s, CallWait);
    t := Step(t, ReaderRuns);
  }

  lemma FreeCall(s: State) returns (t: State)
    requires Valid(s) && Reachable(s) && s.reader.Outside? && !IsLive(s) && s.count.readAhead + 1 < READ_AHEAD_COUNT
    ensures t == s.(mem := s.mem.(lastPos := s.mem.pos), count := s.count.(readAhead := s.count.readAhead + 1))
    ensures Valid(t) && Reachable(t)
  {
    t := EligibleCall(s);
    t := Step(t, ReaderRuns);
    t := Step(t, ReaderRuns);
  }

  // The first chunk has been read n times, without throttling.
  function ReadAhead(n: nat): State {
    var s := Pushed(CAPACITY);
    s.(count := s.count.(readAhead := n))
  }

  lemma {:induction false} ReadsAheadAreReachable(n: nat)
    requires n < READ_AHEAD_COUNT
    ensures Reachable(ReadAhead(n))
  {
    if n == 0 {
      PushesAreReachable(CAPACITY);
    } else {
      ReadsAheadAreReachable(n - 1);
      var s := FreeCall(ReadAhead(n - 1));
      assert s == ReadAhead(n);
    }
  }

  // The last read of the budget.
  lemma BudgetIsSpent()
    ensures Reachable(ReadAhead(READ_AHEAD_COUNT + 1))
  {
    ReadsAheadAreReachable(READ_AHEAD_COUNT - 1);
    var s := EligibleCall(ReadAhead(READ_AHEAD_COUNT - 1));
    s := Step(s, ReaderRuns);
    s := Step(s, ReaderRuns);
    s := Step(s, ReaderRuns);
    assert s == ReadAhead(READ_AHEAD_COUNT + 1);
  }

  // The next read has started the throttle thread, which has slept n periods.
  function Slept(n: nat): State {
    var s := ReadAhead(READ_AHEAD_COUNT + 1);
    State(s.mem.(index := n, running := true), s.count.(idle := n), Flags(true, n > 0, true), LoopTest, Fetch, Ready)
  }

  // A call after the budget, up to where it finds the throttle stopped.
  lemma StoppedCall(s: State) returns (t: State)
    requires Valid(s) && Reachable(s) && s.reader.Outside? && !IsLive(s)
    requires s.count.readAhead == READ_AHEAD_COUNT + 1 && !s.mem.running
    ensures t == s.(reader := StartIndex) && Valid(t) && Reachable(t)
  {
    t := EligibleCall(s);
    t := Step(t, ReaderRuns);
    t := Step(t, ReaderRuns);
  }

  lemma StartThrottle(s: State) returns (t: State)
    requires Valid(s) && Reachable(s) && s.reader.StartIndex? && s.loop.Outer?
    ensures t == s.(mem := s.mem.(index := s.mem.pos, running := true),
                    flag := s.flag.(start := true),
                    reader := LoopTest)
    ensures Valid(t) && Reachable(t)
  {
    t := Step(s, ReaderRuns);
    t := Step(t, ReaderRuns);
    t := Step(t, ReaderRuns);
  }

  lemma ThrottleIsStarted()
    ensures Reachable(Slept(0))
  {
    BudgetIsSpent();
    var s := StoppedCall(ReadAhead(READ_AHEAD_COUNT + 1));
    s := StartThrottle(s);
    s := Step(s, LoopRuns);
    s := Step(s, LoopRuns);
    assert s == Slept(0);
  }

  // The end of a turn of the throttle loop.
  lemma NextTurn(s: State) returns (t: State)
    requires Valid(s) && Reachable(s) && s.loop.IdleKeepPosition? && s.mem.running && s.count.idle <= IDLE_LIMIT_COUNT
    ensures t == s.(count := s.count.(lastPosIdle := s.mem.lastPos), loop := Fetch) && Valid(t) && Reachable(t)
  {
    t := Step(s, LoopRuns);
    t := Step(t, LoopRuns);
    t := Step(t, LoopRuns);
  }

  lemma Tick(s: State) returns (t: State)
    requires Valid(s) && Reachable(s) && s.loop.Fetch? && s.mem.index < |s.mem.periods| && !s.reader.CvParked?
    ensures t == s.(mem := s.mem.(index := s.mem.index + 1), flag := s.flag.(changed := true), loop := IdleCount)
    ensures Valid(t) && Reachable(t)
  {
    t := Step(s, LoopRuns);
    t := Step(t, LoopRuns);
    t := Step(t, LoopRuns);
  }

  lemma {:induction false} TicksAreReachable(n: nat)
    requires n <= CAPACITY
    ensures Reachable(Slept(n))
  {
    if n == 0 {
      ThrottleIsStarted();
    } else {
      TicksAreReachable(n - 1);
      var s := Tick(Slept(n - 1));
      s := Step(s, LoopRuns);
      s := NextTurn(s);
      assert s == Slept(n);
    }
  }

  // All periods are slept, and the throttle thread sleeps for a new one. The reader has left.
  function CaughtUp(): State {
    var s := Slept(CAPACITY);
    s.(flag := Flags(true, true, false), reader := Outside, loop := PeriodParked)
  }

  // The flag of a period announced before ends the first such wait at once.
  lemma FindNothing(s: State) returns (t: State)
    requires Valid(s) && Reachable(s) && s.loop.Fetch? && s.mem.index == |s.mem.periods|
    ensures t == s.(flag := s.flag.(period := false),
                    loop := if s.flag.period then IdleKeepPosition else PeriodParked)
    ensures Valid(t) && Reachable(t)
  {
    t := Step(s, LoopRuns);
    t := Step(t, LoopRuns);
  }

  lemma CaughtUpIsReachable()
    ensures Reachable(CaughtUp())
  {
    TicksAreReachable(CAPACITY);
    var s := FindNothing(Slept(CAPACITY));
    s := NextTurn(s);
    s := FindNothing(s);
    s := Step(s, ReaderRuns);
    s := Step(s, ReaderRuns);
    assert s == CaughtUp();
  }

  // The reader has read at the live position, which stops the throttle.
  function AtLivePosition(): State {
    var s := CaughtUp();
    s.(mem := s.mem.(pos := CAPACITY - 1, lastPos := CAPACITY - 1, running := false))
  }

  lemma LivePositionIsReachable()
    ensures Reachable(AtLivePosition())
  {
    CaughtUpIsReachable();
    var s := Step(CaughtUp(), SetPosition(CAPACITY - 1));
    s := Step(s, CallWait);
    s := Step(s, ReaderRuns);
    s := Step(s, ReaderRuns);
    s := Step(s, ReaderRuns);
    assert s == AtLivePosition();
  }

  /** A jump back to the first chunk then leaves the throttle thread asleep although there is a
      period to fetch, and nobody about to tell it. */
  lemma OversleepIsReachable()
    ensures exists s :: Reachable(s) && SleepsOnData(s)
  {
    LivePositionIsReachable();
    var s := Step(AtLivePosition(), SetPosition(0));
    s := StoppedCall(s);
    s := Step(s, ReaderRuns);
    assert SleepsOnData(s);
  }
}
