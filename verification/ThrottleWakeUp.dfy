/** No wake-up between the reader and the throttle thread is lost. */
module ThrottleWakeUp {
  import opened ThrottleMachine

  // The throttle thread is one step away from notifying mCvThrottleChanged.
  predicate AboutToNotifyReader(s: State) {
    s.loop.TickNotify? || s.loop.TimeoutNotify? || s.loop.IdleNotify?
  }

  predicate AboutToNotifyLoop(s: State) {
    s.reader.StartNotify?
  }

  predicate NoLostWakeUp(s: State) {
    && (s.reader.CvParked? ==> !s.flag.changed && (Released(s) ==> AboutToNotifyReader(s)))
    && (s.loop.StartTest? || s.loop.StartParked? ==> (s.mem.running ==> s.flag.start || AboutToNotifyLoop(s)))
    && (s.loop.StartParked? ==> !s.flag.start)
  }

  lemma LoopKeepsNoLostWakeUp(s: State)
    requires Valid(s) && NoLostWakeUp(s)
    ensures NoLostWakeUp(LoopStep(s))
  {
    match s.loop {
      case Outer =>
      case StartTest =>
      case Sleep(_) =>
      case TimeoutStop | IdleStop =>
      case TickNotify | TimeoutNotify | IdleNotify =>
      case _ =>
    }
  }

  lemma ReaderKeepsNoLostWakeUp(s: State)
    requires Valid(s) && NoLostWakeUp(s)
    ensures NoLostWakeUp(ReaderStep(s))
  {
    match s.reader {
      case StartRunning =>
      case StartNotify =>
      case CvTest =>
      case _ =>
    }
  }

  lemma StepKeepsNoLostWakeUp(s: State, e: Event)
    requires Valid(s) && NoLostWakeUp(s) && Enabled(s, e)
    ensures NoLostWakeUp(Next(s, e))
  {
    match e {
      case LoopRuns => LoopKeepsNoLostWakeUp(s);
      case ReaderRuns => ReaderKeepsNoLostWakeUp(s);
      case Push(lap) =>
      case _ =>
    }
  }

  lemma {:induction false} RunKeepsNoLostWakeUp(s: State, es: seq<Event>)
    requires Valid(s) && NoLostWakeUp(s) && IsRun(s, es)
    ensures NoLostWakeUp(After(s, es))
    decreases |es|
  {
    if es != [] {
      StepKeepsNoLostWakeUp(s, es[0]);
      RunKeepsNoLostWakeUp(Next(s, es[0]), es[1..]);
    }
  }

  /** In every state of every interleaving: a reader asleep although it may go on is about to
      be notified, and while it sleeps for a reason the throttle thread is not asleep on
      mCvStartThrottle. */
  lemma SleepingReaderIsServed(capacity: nat, es: seq<Event>)
    requires 0 < capacity && IsRun(Initial(capacity), es)
    ensures var s := After(Initial(capacity), es);
            s.reader.CvParked? ==>
              (Released(s) ==> AboutToNotifyReader(s)) && (!Released(s) ==> !s.loop.StartParked?)
  {
    RunKeepsNoLostWakeUp(Initial(capacity), es);
  }

  /** A push never releases a reader, so it owes it no notification. */
  lemma PushNeverReleases(s: State, lap: nat)
    requires Valid(s) && !Released(s)
    ensures !Released(Register(s, lap))
  {
  }

  /** A push can undo a release, and exactly when: it rotates the ring while the reader stands
      on the oldest chunk and the throttle index is just past it. */
  lemma PushUndoesReleaseExactly(s: State, lap: nat)
    requires Valid(s) && Released(s)
    ensures !Released(Register(s, lap)) <==> Full(s) && s.mem.running && s.mem.pos == 0 && s.mem.index == 1
  {
  }

  /** The reader of a released state needs the throttle thread's notification and two steps of
      its own to leave the waiting loop. */
  lemma ReleasedReaderLeaves(s: State)
    requires Valid(s) && NoLostWakeUp(s) && Released(s) && s.reader.CvParked?
    ensures var woken := Next(s, LoopRuns);
            && woken.reader.CvTest?
            && Next(Next(woken, ReaderRuns), ReaderRuns).reader.Finish?
  {
  }

  // A throttle thread asleep for a new period although there is one to fetch, with nobody about to tell it.
  predicate SleepsOnData(s: State) {
    s.loop.PeriodParked? && s.mem.index < |s.mem.periods| && s.producer.Ready?
  }

  // The step stores an index that points into the periods.
  predicate LowersIndexIntoData(s: State, e: Event) {
    || (e.ReaderRuns? && (s.reader.StartIndex? || s.reader.Seek? || s.reader.EndAhead?) && s.mem.pos < |s.mem.periods|)
    || (e.ClearToLastRead? && s.mem.periods != [])
  }

  /** mCvTimePeriodRegistered has no such guarantee: the reader moves the index without
      notifying it. A sleeping throttle thread starts to oversleep exactly at such a store. */
  lemma OversleepsExactly(s: State, e: Event)
    requires Valid(s) && Enabled(s, e) && s.loop.PeriodParked? && !s.flag.period
    requires !SleepsOnData(s)
    ensures SleepsOnData(Next(s, e)) <==> s.producer.Ready? && LowersIndexIntoData(s, e)
  {
    match e {
      case ReaderRuns => ReaderOversleepsExactly(s);
      case ClearToLastRead =>
      case _ =>
    }
  }

  lemma ReaderOversleepsExactly(s: State)
    requires Valid(s) && s.loop.PeriodParked? && !SleepsOnData(s)
    ensures SleepsOnData(ReaderStep(s)) <==> s.producer.Ready? && LowersIndexIntoData(s, ReaderRuns)
  {
    match s.reader {
      case StartIndex | Seek | EndAhead =>
      case _ =>
    }
  }

  predicate PeriodInvariant(s: State) {
    s.loop.PeriodParked? ==> !s.flag.period && !SleepsOnData(s)
  }

  // The step that makes the throttle thread oversleep.
  predicate StoresBehindSleep(s: State, e: Event) {
    s.loop.PeriodParked? && s.producer.Ready? && LowersIndexIntoData(s, e)
  }

  lemma StepKeepsPeriodInvariantExactly(s: State, e: Event)
    requires Valid(s) && PeriodInvariant(s) && Enabled(s, e)
    ensures PeriodInvariant(Next(s, e)) <==> !StoresBehindSleep(s, e)
    ensures SleepsOnData(Next(s, e)) <==> StoresBehindSleep(s, e)
  {
    if s.loop.PeriodParked? {
      OversleepsExactly(s, e);
      PeriodFlagStays(s, e);
    } else {
      FallsAsleepWithoutData(s, e);
    }
  }

  lemma PeriodFlagStays(s: State, e: Event)
    requires Valid(s) && Enabled(s, e) && s.loop.PeriodParked? && !s.flag.period
    ensures Next(s, e).loop.PeriodParked? ==> !Next(s, e).flag.period
  {
    match e {
      case ReaderRuns => assert ReaderStep(s).flag.period == s.flag.period;
      case _ =>
    }
  }

  lemma FallsAsleepWithoutData(s: State, e: Event)
    requires Valid(s) && Enabled(s, e) && !s.loop.PeriodParked?
    ensures var t := Next(s, e);
            t.loop.PeriodParked? ==> !t.flag.period && t.mem.index >= |t.mem.periods|
  {
    match e {
      case LoopRuns => assert s.loop.PeriodTest? || !LoopStep(s).loop.PeriodParked?;
      case _ =>
    }
  }

  // Somewhere along the run.
  predicate EverSleepsOnData(s: State, es: seq<Event>)
    requires Valid(s) && IsRun(s, es)
    decreases |es|
  {
    SleepsOnData(s) || (es != [] && EverSleepsOnData(Next(s, es[0]), es[1..]))
  }

  predicate EverStoresBehindSleep(s: State, es: seq<Event>)
    requires Valid(s) && IsRun(s, es)
    decreases |es|
  {
    es != [] && (StoresBehindSleep(s, es[0]) || EverStoresBehindSleep(Next(s, es[0]), es[1..]))
  }

  /** The throttle thread oversleeps somewhere along a run if and only if somewhere along it an index
      into the periods is stored behind its sleep, while no push is about to notify it. */
  lemma {:induction false} RunOversleepsExactly(s: State, es: seq<Event>)
    requires Valid(s) && PeriodInvariant(s) && IsRun(s, es)
    ensures EverSleepsOnData(s, es) <==> EverStoresBehindSleep(s, es)
    decreases |es|
  {
    if es != [] {
      StepKeepsPeriodInvariantExactly(s, es[0]);
      if !StoresBehindSleep(s, es[0]) {
        RunOversleepsExactly(Next(s, es[0]), es[1..]);
      }
    }
  }
}
