/** What a call of `wait` does in the source's own terms: where it leads when nothing interferes, what
    ends its loop, what stops throttling, and that each of its three condition variables is used as
    one. */
module ThrottleCall {
  import opened Integers
  import opened ThrottleMachine
  import Cv = ConditionVariable

  /* ---- the loop ---- */

  predicate InLoop(s: State) {
    s.reader.LoopTest? || s.reader.CvTest? || s.reader.CvParked?
  }

  /** Nothing takes the reader out of the waiting loop unless the throttle index has passed its
      position or throttling has stopped. */
  lemma LeavesLoopOnlyReleased(s: State, e: Event)
    requires Valid(s) && Enabled(s, e) && InLoop(s) && !InLoop(Next(s, e))
    ensures e.ReaderRuns? && (s.mem.pos < s.mem.index || !s.mem.running)
  {
  }

  // The reader's next step takes it out of the loop.
  predicate Leaves(s: State)
    requires Valid(s)
  {
    Enabled(s, ReaderRuns) && InLoop(s) && !InLoop(Next(s, ReaderRuns))
  }

  /* ---- a call that nothing interrupts ---- */

  // n steps of the reader.
  function ReaderRunsOn(s: State, n: nat): State
    decreases n
  {
    if n == 0 then s else ReaderRunsOn(ReaderStep(s), n - 1)
  }

  // The call finds throttling disabled, or the read position within 10 chunks of the newest; the
  // difference of the two is unsigned.
  predicate FindsLive(s: State) {
    || !s.count.enabled
    || (s.mem.pos <= |s.mem.periods| <= s.mem.pos + 10)
    || |s.mem.periods| + 0x1_0000_0000_0000_0000 <= s.mem.pos + 10
  }

  /** Such a call keeps its position, stops throttling, and returns. */
  lemma LiveCall(s: State)
    requires Valid(s) && s.reader.LiveTest? && FindsLive(s)
    ensures ReaderRunsOn(s, 3) == s.(mem := s.mem.(lastPos := s.mem.pos, running := false), reader := Outside)
  {
    var a := ReaderStep(s);
    var b := ReaderStep(a);
    assert ReaderRunsOn(s, 3) == ReaderRunsOn(a, 2) == ReaderRunsOn(b, 1) == ReaderRunsOn(ReaderStep(b), 0);
  }

  // Every other call comes to the read-ahead budget.
  lemma EligibleCall(s: State)
    requires Valid(s) && s.reader.LiveTest? && !FindsLive(s)
    ensures ReaderStep(s) == s.(reader := CountAhead)
  {
  }

  /** The first 30 of them only count, and keep their position; the 30th sets the throttle index too. */
  lemma CallWithinBudget(s: State)
    requires Valid(s) && s.reader.LiveTest? && !FindsLive(s) && s.count.readAhead < 29
    ensures ReaderRunsOn(s, 3)
         == s.(mem := s.mem.(lastPos := s.mem.pos),
               count := s.count.(readAhead := s.count.readAhead + 1),
               reader := Outside)
  {
    EligibleCall(s);
    var a := ReaderStep(ReaderStep(s));
    assert a == s.(count := s.count.(readAhead := s.count.readAhead + 1), reader := Finish);
    assert ReaderRunsOn(s, 3) == ReaderRunsOn(ReaderStep(s), 2) == ReaderRunsOn(a, 1) == ReaderRunsOn(ReaderStep(a), 0);
  }

  lemma LastCallOfBudget(s: State)
    requires Valid(s) && s.reader.LiveTest? && !FindsLive(s) && s.count.readAhead == 29
    ensures ReaderRunsOn(s, 4)
         == s.(mem := s.mem.(index := s.mem.pos, lastPos := s.mem.pos),
               count := s.count.(readAhead := 31),
               reader := Outside)
  {
    EligibleCall(s);
    var a := ReaderStep(ReaderStep(s));
    assert a == s.(count := s.count.(readAhead := 30), reader := EndAhead);
    var b := ReaderStep(a);
    assert ReaderRunsOn(s, 4) == ReaderRunsOn(ReaderStep(s), 3) == ReaderRunsOn(a, 2);
    assert ReaderRunsOn(a, 2) == ReaderRunsOn(b, 1) == ReaderRunsOn(ReaderStep(b), 0);
  }

  /** With the budget spent and throttling stopped, a call starts it at its own position and enters
      the loop. */
  lemma StartingCall(s: State)
    requires Valid(s) && s.reader.LiveTest? && !FindsLive(s) && s.count.readAhead == 31 && !s.mem.running
    ensures var t := ReaderRunsOn(s, 6);
            && t.mem == s.mem.(index := s.mem.pos, running := true) && t.count == s.count
            && t.flag == s.flag.(start := true) && t.reader == LoopTest
  {
    EligibleCall(s);
    var a := ReaderStep(ReaderStep(s));
    var b := ReaderStep(ReaderStep(a));
    assert a == s.(reader := Decide);
    assert b == s.(mem := s.mem.(index := s.mem.pos), reader := StartRunning);
    assert ReaderRunsOn(s, 6) == ReaderRunsOn(ReaderStep(s), 5) == ReaderRunsOn(a, 4);
    assert ReaderRunsOn(a, 4) == ReaderRunsOn(ReaderStep(a), 3) == ReaderRunsOn(b, 2);
    assert ReaderRunsOn(b, 2) == ReaderRunsOn(ReaderStep(b), 1) == ReaderRunsOn(ReaderStep(ReaderStep(b)), 0);
  }

  // The position is more than 10 chunks away from the one of the last call.
  predicate IsFar(m: Memory) {
    m.lastPos + 10 < m.pos || m.pos + 10 < m.lastPos
  }

  /** With throttling running, a call far from the last one moves the index to its position and
      starts the budget anew, and a near one leaves both; each then enters the loop. */
  lemma RunningCall(s: State)
    requires Valid(s) && s.reader.LiveTest? && !FindsLive(s) && s.count.readAhead == 31 && s.mem.running
    ensures if IsFar(s.mem) then
              ReaderRunsOn(s, 4)
                == s.(mem := s.mem.(index := s.mem.pos), count := s.count.(readAhead := 0), reader := LoopTest)
            else
              ReaderRunsOn(s, 3) == s.(reader := LoopTest)
  {
    EligibleCall(s);
    var a := ReaderStep(ReaderStep(s));
    assert a == s.(reader := Decide);
    assert ReaderRunsOn(s, 3) == ReaderRunsOn(ReaderStep(s), 2) == ReaderRunsOn(a, 1) == ReaderRunsOn(ReaderStep(a), 0);
    assert ReaderRunsOn(s, 4) == ReaderRunsOn(ReaderStep(s), 3) == ReaderRunsOn(a, 2)
        == ReaderRunsOn(ReaderStep(a), 1) == ReaderRunsOn(ReaderStep(ReaderStep(a)), 0);
  }

  /* ---- what starts and stops throttling ---- */

  predicate IsLiveStop(s: State, e: Event) {
    e.ReaderRuns? && s.reader.LiveStop?
  }

  // The throttle thread gives up: a period is overdue, or the reader stands still.
  predicate GivesUp(s: State, e: Event) {
    e.LoopRuns? && (s.loop.TimeoutStop? || s.loop.IdleStop?)
  }

  /** Throttling is stopped by a clear, a truncation, a live call or the throttle thread giving up,
      and by nothing else; and it is started by a call of `wait` only. */
  lemma RunningChangesExactly(s: State, e: Event)
    requires Valid(s) && Enabled(s, e)
    ensures s.mem.running ==>
              (!Next(s, e).mem.running
               <==> e.Clear? || (e.ClearToLastRead? && s.mem.periods != []) || IsLiveStop(s, e) || GivesUp(s, e))
    ensures !s.mem.running ==> (Next(s, e).mem.running <==> e.ReaderRuns? && s.reader.StartRunning?)
  {
    match e {
      case ReaderRuns =>
      case LoopRuns =>
      case _ =>
    }
  }

  /** The throttle thread waits for a period in vain only if the timed wait ends with no period at
      the index and none announced. */
  lemma TimesOutExactly(s: State, e: Event)
    requires Valid(s) && Enabled(s, e) && !s.loop.TimeoutStop?
    ensures Next(s, e).loop.TimeoutStop?
      <==> e.LoopTimesOut? && !s.flag.period && |s.mem.periods| <= s.mem.index
  {
    match e {
      case ReaderRuns => assert ReaderStep(s).loop == s.loop || s.reader.StartNotify?;
      case _ =>
    }
  }

  /* ---- when the reader counts as standing still ---- */

  // A run with the read position sampled at the end of the last turn of the throttle loop, and the
  // number of ticks since the last that found another position, or since the loop last went out.
  datatype Watched = Watched(s: State, sampled: nat, still: nat)

  function Watch(w: Watched, e: Event): Watched
    requires Valid(w.s) && Enabled(w.s, e)
  {
    var t := Next(w.s, e);
    if !e.LoopRuns? then w.(s := t)
    else
      match w.s.loop
      case Outer => w.(s := t, still := 0)
      case IdleCount => w.(s := t, still := if w.s.mem.lastPos == w.sampled then w.still + 1 else 0)
      case IdleKeepPosition => w.(s := t, sampled := w.s.mem.lastPos)
      case _ => w.(s := t)
  }

  function WatchAll(w: Watched, es: seq<Event>): (v: Watched)
    requires Valid(w.s) && IsRun(w.s, es)
    ensures v.s == After(w.s, es)
    decreases |es|
  {
    if es == [] then w else WatchAll(Watch(w, es[0]), es[1..])
  }

  // mIdleCount has 16 bits.
  predicate CountsStill(w: Watched) {
    w.s.count.lastPosIdle == w.sampled && w.s.count.idle == w.still % UINT16_COUNT
  }

  lemma StepCountsStill(w: Watched, e: Event)
    requires Valid(w.s) && Enabled(w.s, e) && CountsStill(w)
    ensures CountsStill(Watch(w, e))
  {
    match e {
      case LoopRuns => LoopCountsStill(w);
      case ReaderRuns => assert ReaderStep(w.s).count == w.s.count.(readAhead := ReaderStep(w.s).count.readAhead);
      case _ =>
    }
  }

  lemma LoopCountsStill(w: Watched)
    requires Valid(w.s) && Enabled(w.s, LoopRuns) && CountsStill(w)
    ensures CountsStill(Watch(w, LoopRuns))
  {
    StillWraps(w.still);
  }

  lemma StillWraps(still: nat)
    ensures (still % UINT16_COUNT + 1) % UINT16_COUNT == (still + 1) % UINT16_COUNT
  {
  }

  lemma {:induction false} RunCountsStill(w: Watched, es: seq<Event>)
    requires Valid(w.s) && IsRun(w.s, es) && CountsStill(w)
    ensures CountsStill(WatchAll(w, es))
    decreases |es|
  {
    if es != [] {
      StepCountsStill(w, es[0]);
      RunCountsStill(Watch(w, es[0]), es[1..]);
    }
  }

  /** In every run: the throttle thread stops an idle throttling at the end of a turn if and only if
      more than 100 ticks in a row, counted in 16 bits, found the position of the turn before. */
  lemma StopsIdleExactly(capacity: nat, es: seq<Event>)
    requires 0 < capacity && IsRun(Initial(capacity), es) && After(Initial(capacity), es).loop.IdleTest?
    ensures var w := WatchAll(Watched(Initial(capacity), 0, 0), es);
            Next(w.s, LoopRuns).loop.IdleStop? <==> w.still % 0x1_0000 > 100
  {
    RunCountsStill(Watched(Initial(capacity), 0, 0), es);
  }

  /** A clear leaves the memory of a new throttle and a fresh budget. A truncation stops throttling
      and resets the index and the budget, but keeps the positions; on an empty ring it does nothing. */
  lemma ClearsStartOver(s: State)
    requires Valid(s) && s.reader.Outside?
    ensures Next(s, Clear) == s.(mem := Initial(s.mem.capacity).mem, count := s.count.(readAhead := 0))
    ensures var t := Next(s, ClearToLastRead);
            if s.mem.periods == [] then t == s
            else
              && t == s.(mem := t.mem, count := s.count.(readAhead := 0))
              && t.mem == s.mem.(periods := t.mem.periods, index := 0, running := false)
              && t.mem.periods <= s.mem.periods
              && (s.mem.lastPos < |s.mem.periods| ==> |t.mem.periods| == s.mem.lastPos + 1)
              && (s.mem.lastPos >= |s.mem.periods| ==> t.mem.periods == s.mem.periods)
  {
  }

  /** What is registered for a chunk: nothing for a lap below 500 microseconds, and else the lap
      without them. */
  lemma NewestPeriod(s: State, lap: nat)
    requires Valid(s) && Enabled(s, Push(lap))
    ensures var periods := Next(s, Push(lap)).mem.periods;
            && periods != []
            && if lap < 500 then periods[|periods| - 1] == 0 else periods[|periods| - 1] + 500 == lap
  {
  }

  /* ---- the condition variables ---- */

  function WaiterOf(mode: Cv.Mode, tests: bool, parked: bool): Cv.Waiter {
    if tests then Cv.Testing(mode) else if parked then Cv.Parked(mode) else Cv.Away
  }

  // mCvThrottleChanged, mCvStartThrottle and mCvTimePeriodRegistered.
  function Changed(s: State): Cv.Cv {
    Cv.Cv(s.flag.changed, 0, WaiterOf(Cv.WithPredicate, s.reader.CvTest?, s.reader.CvParked?))
  }

  function Start(s: State): Cv.Cv {
    Cv.Cv(s.flag.start, 0, WaiterOf(Cv.WithPredicate, s.loop.StartTest?, s.loop.StartParked?))
  }

  function Period(s: State): Cv.Cv {
    Cv.Cv(s.flag.period, 0, WaiterOf(Cv.Timed, s.loop.PeriodTest?, s.loop.PeriodParked?))
  }

  // What a step does with mCvThrottleChanged.
  function OnChanged(s: State, e: Event): seq<Cv.AtomicEvent> {
    if e.ReaderRuns? && s.reader.LoopTest? && s.mem.pos >= s.mem.index && s.mem.running then
      [Cv.Other(Cv.Call(Cv.WithPredicate))]
    else if e.ReaderRuns? && s.reader.CvTest? then
      [Cv.Other(Cv.Test(s.mem.pos < s.mem.index || !s.mem.running))]
    else if e.ReaderWakes? then [Cv.Other(Cv.SpuriousWake)]
    else if e.LoopRuns? && (s.loop.TickNotify? || s.loop.TimeoutNotify? || s.loop.IdleNotify?) then [Cv.Notify]
    else []
  }

  // The predicate of mCvStartThrottle is the exit flag, which is never up.
  function OnStart(s: State, e: Event): seq<Cv.AtomicEvent> {
    if e.LoopRuns? && s.loop.Outer? && !s.mem.running then [Cv.Other(Cv.Call(Cv.WithPredicate))]
    else if e.LoopRuns? && s.loop.StartTest? then [Cv.Other(Cv.Test(false))]
    else if e.LoopWakes? && s.loop.StartParked? then [Cv.Other(Cv.SpuriousWake)]
    else if e.ReaderRuns? && s.reader.StartNotify? then [Cv.Notify]
    else []
  }

  function OnPeriod(s: State, e: Event): seq<Cv.AtomicEvent> {
    var data := s.mem.index < |s.mem.periods|;
    if e.LoopRuns? && s.loop.Fetch? && !data then [Cv.Other(Cv.Call(Cv.Timed))]
    else if e.LoopRuns? && s.loop.PeriodTest? then [Cv.Other(Cv.Test(data))]
    else if e.LoopWakes? && s.loop.PeriodParked? then [Cv.Other(Cv.SpuriousWake)]
    else if e.LoopTimesOut? then [Cv.Other(Cv.Timeout(data))]
    else if e.PushNotify? then [Cv.Notify]
    else []
  }

  // The acts, none or one, lead from c to d.
  predicate Leads(c: Cv.Cv, acts: seq<Cv.AtomicEvent>, d: Cv.Cv) {
    if acts == [] then d == c
    else |acts| == 1 && Cv.AtomicEnabled(c, acts[0]) && d == Cv.AtomicNext(c, acts[0])
  }

  /** Every step of the machine is, on each condition variable, a step of the helper or none. */
  lemma StepsUseConditionVariables(s: State, e: Event)
    requires Valid(s) && Enabled(s, e)
    ensures Leads(Changed(s), OnChanged(s, e), Changed(Next(s, e)))
    ensures Leads(Start(s), OnStart(s, e), Start(Next(s, e)))
    ensures Leads(Period(s), OnPeriod(s, e), Period(Next(s, e)))
  {
    StepUsesChanged(s, e);
    StepUsesStart(s, e);
    StepUsesPeriod(s, e);
  }

  lemma StepUsesChanged(s: State, e: Event)
    requires Valid(s) && Enabled(s, e)
    ensures Leads(Changed(s), OnChanged(s, e), Changed(Next(s, e)))
  {
    match e {
      case ReaderRuns => ReaderUsesChanged(s);
      case LoopRuns => LoopUsesChanged(s);
      case _ =>
    }
  }

  lemma ReaderUsesChanged(s: State)
    requires Enabled(s, ReaderRuns)
    ensures Leads(Changed(s), OnChanged(s, ReaderRuns), Changed(ReaderStep(s)))
  {
  }

  lemma LoopUsesChanged(s: State)
    requires Enabled(s, LoopRuns)
    ensures Leads(Changed(s), OnChanged(s, LoopRuns), Changed(LoopStep(s)))
  {
  }

  lemma StepUsesStart(s: State, e: Event)
    requires Valid(s) && Enabled(s, e)
    ensures Leads(Start(s), OnStart(s, e), Start(Next(s, e)))
  {
    match e {
      case ReaderRuns => ReaderUsesStart(s);
      case LoopRuns => LoopUsesStart(s);
      case _ =>
    }
  }

  lemma ReaderUsesStart(s: State)
    requires Enabled(s, ReaderRuns)
    ensures Leads(Start(s), OnStart(s, ReaderRuns), Start(ReaderStep(s)))
  {
  }

  lemma LoopUsesStart(s: State)
    requires Enabled(s, LoopRuns)
    ensures Leads(Start(s), OnStart(s, LoopRuns), Start(LoopStep(s)))
  {
  }

  lemma StepUsesPeriod(s: State, e: Event)
    requires Valid(s) && Enabled(s, e)
    ensures Leads(Period(s), OnPeriod(s, e), Period(Next(s, e)))
  {
    match e {
      case ReaderRuns => ReaderUsesPeriod(s);
      case LoopRuns => LoopUsesPeriod(s);
      case LoopTimesOut => TimeoutUsesPeriod(s);
      case _ =>
    }
  }

  lemma ReaderUsesPeriod(s: State)
    requires Enabled(s, ReaderRuns)
    ensures Leads(Period(s), OnPeriod(s, ReaderRuns), Period(ReaderStep(s)))
  {
    assert ReaderStep(s).flag.period == s.flag.period;
  }

  lemma LoopUsesPeriod(s: State)
    requires Enabled(s, LoopRuns)
    ensures Leads(Period(s), OnPeriod(s, LoopRuns), Period(LoopStep(s)))
  {
  }

  lemma TimeoutUsesPeriod(s: State)
    requires Enabled(s, LoopTimesOut)
    ensures Leads(Period(s), OnPeriod(s, LoopTimesOut), Period(LoopTimeout(s)))
  {
  }
}
