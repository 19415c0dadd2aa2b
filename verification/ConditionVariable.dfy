/** The sticky-flag condition variable that carries every hand-off of the throttle.
    `notifyOne` is two steps: the flag is set under the mutex, the signal is sent after it
    has been given up. One thread waits; any number of threads may be between their two steps. */
module ConditionVariable {

  datatype Mode = Untimed | WithPredicate | Timed

  // Testing: the waiter owns the mutex and is about to evaluate its condition.
  datatype Waiter = Away | Testing(mode: Mode) | Parked(mode: Mode)

  datatype Cv = Cv(notified: bool, signals: nat, waiter: Waiter)

  const FRESH := Cv(false, 0, Away)

  datatype Event =
    | SetFlag
    | Signal
    | Call(mode: Mode)
    | Test(predicateHolds: bool)
    | SpuriousWake
    | Timeout(predicateHolds: bool)

  predicate Enabled(s: Cv, e: Event) {
    match e
    case SetFlag => true
    case Signal => s.signals > 0
    case Call(_) => s.waiter.Away?
    case Test(_) => s.waiter.Testing?
    case SpuriousWake => s.waiter.Parked?
    case Timeout(_) => s.waiter.Parked? && s.waiter.mode.Timed?
  }

  // The value of the condition that the waiter hands to the underlying wait.
  predicate Passes(s: Cv, predicateHolds: bool)
    requires !s.waiter.Away?
  {
    s.notified || (!s.waiter.mode.Untimed? && predicateHolds)
  }

  function Next(s: Cv, e: Event): Cv
    requires Enabled(s, e)
  {
    match e
    case SetFlag => s.(notified := true, signals := s.signals + 1)
    case Signal =>
      s.(signals := s.signals - 1,
         waiter := if s.waiter.Parked? then Testing(s.waiter.mode) else s.waiter)
    case Call(mode) => s.(waiter := Testing(mode))
    case Test(holds) =>
      if Passes(s, holds) then s.(notified := false, waiter := Away) else s.(waiter := Parked(s.waiter.mode))
    case SpuriousWake => s.(waiter := Testing(s.waiter.mode))
    case Timeout(_) => s.(notified := false, waiter := Away)
  }

  predicate Returns(s: Cv, e: Event)
    requires Enabled(s, e)
  {
    !s.waiter.Away? && Next(s, e).waiter.Away?
  }

  predicate IsRun(es: seq<Event>)
    decreases |es|, 0
  {
    es == [] || (IsRun(es[..|es| - 1]) && Enabled(After(es[..|es| - 1]), es[|es| - 1]))
  }

  function After(es: seq<Event>): Cv
    requires IsRun(es)
    decreases |es|, 1
  {
    if es == [] then FRESH else Next(After(es[..|es| - 1]), es[|es| - 1])
  }

  // How many notifications were sent since the wait last returned.
  function SentSinceReturn(es: seq<Event>): nat
    requires IsRun(es)
  {
    if es == [] then 0
    else
      var before, e := es[..|es| - 1], es[|es| - 1];
      if Returns(After(before), e) then 0
      else SentSinceReturn(before) + (if e.SetFlag? then 1 else 0)
  }

  /** The flag is exactly "a notification was sent since the last return", and a waiter is
      never asleep on a set flag unless a signal is still on its way. */
  lemma {:induction false} FlagRemembersNotifications(es: seq<Event>)
    requires IsRun(es)
    ensures After(es).notified <==> SentSinceReturn(es) > 0
    ensures After(es).waiter.Parked? && After(es).notified ==> After(es).signals > 0
  {
    if es != [] {
      FlagRemembersNotifications(es[..|es| - 1]);
    }
  }

  function FlagsSet(es: seq<Event>): nat {
    if es == [] then 0 else FlagsSet(es[..|es| - 1]) + if es[|es| - 1].SetFlag? then 1 else 0
  }

  function SignalsSent(es: seq<Event>): nat {
    if es == [] then 0 else SignalsSent(es[..|es| - 1]) + if es[|es| - 1].Signal? then 1 else 0
  }

  /** A notification may be sent at any time, sets the flag, and leaves one signal to be sent. */
  lemma {:induction false} SignalsAreOwed(es: seq<Event>)
    requires IsRun(es)
    ensures After(es).signals == FlagsSet(es) - SignalsSent(es)
    ensures Enabled(After(es), SetFlag) && Next(After(es), SetFlag).notified
  {
    if es != [] {
      SignalsAreOwed(es[..|es| - 1]);
    }
  }

  /** A wait without predicate returns if and only if a notification was sent since its
      previous return; a timed wait whose predicate is false reports success under the same
      condition. So spurious wake-ups are never taken for notifications. */
  lemma ReturnMeansNotified(es: seq<Event>, predicateHolds: bool)
    requires IsRun(es) && !After(es).waiter.Away?
    requires After(es).waiter.mode.Untimed? || !predicateHolds
    ensures Passes(After(es), predicateHolds) <==> SentSinceReturn(es) > 0
  {
    FlagRemembersNotifications(es);
  }

  /** A waiter that tests its condition returns, and otherwise sleeps, if and only if a notification
      was sent since it last returned or its wait has a predicate and that holds. */
  lemma TestReturnsExactly(es: seq<Event>, e: Event)
    requires IsRun(es) && Enabled(After(es), e) && e.Test?
    ensures var s, t := After(es), Next(After(es), e);
            if SentSinceReturn(es) > 0 || (!s.waiter.mode.Untimed? && e.predicateHolds) then
              t.waiter.Away? && !t.notified
            else
              t.waiter == Parked(s.waiter.mode) && !t.notified
  {
    FlagRemembersNotifications(es);
  }

  // The result of a timed wait.
  predicate Succeeds(s: Cv, e: Event)
    requires Enabled(s, e) && Returns(s, e)
  {
    Passes(s, e.predicateHolds)
  }

  /** A timed wait reports a success, even when its time is over, if and only if a notification was
      sent since it last returned or its predicate holds. */
  lemma TimedWaitSucceedsExactly(es: seq<Event>, e: Event)
    requires IsRun(es) && Enabled(After(es), e) && Returns(After(es), e) && After(es).waiter.mode.Timed?
    ensures Succeeds(After(es), e) <==> SentSinceReturn(es) > 0 || e.predicateHolds
  {
    FlagRemembersNotifications(es);
  }

  /** A notification sent before or during a wait is never lost: a waiter that has not
      returned since then passes its very next test, and if it is asleep a signal that wakes
      it is outstanding. */
  lemma NotificationIsNeverLost(es: seq<Event>, predicateHolds: bool)
    requires IsRun(es) && SentSinceReturn(es) > 0 && !After(es).waiter.Away?
    ensures var s := After(es);
            match s.waiter
            case Testing(_) => Next(s, Test(predicateHolds)).waiter.Away?
            case Parked(_) => Enabled(s, Signal) && Next(Next(s, Signal), Test(predicateHolds)).waiter.Away?
  {
    FlagRemembersNotifications(es);
  }

  // The simpler machine in which notifyOne is one step. The throttle is modelled over it.
  datatype AtomicEvent = Notify | Other(e: Event)

  predicate AtomicEnabled(s: Cv, a: AtomicEvent) {
    a.Notify? || (!a.e.SetFlag? && !a.e.Signal? && Enabled(s, a.e))
  }

  function AtomicNext(s: Cv, a: AtomicEvent): Cv
    requires AtomicEnabled(s, a)
  {
    match a
    case Notify => s.(notified := true, waiter := if s.waiter.Parked? then Testing(s.waiter.mode) else s.waiter)
    case Other(e) => Next(s, e)
  }

  // A sleeper whose flag is set counts as already woken; signals are forgotten.
  function Abstract(s: Cv): Cv {
    Cv(s.notified, 0, if s.waiter.Parked? && s.notified then Testing(s.waiter.mode) else s.waiter)
  }

  // The atomic steps that one step of the real helper stands for.
  function Matching(s: Cv, e: Event): seq<AtomicEvent>
    requires Enabled(s, e)
  {
    match e
    case SetFlag => [Notify]
    case Signal => if s.waiter.Parked? && !s.notified then [Other(SpuriousWake)] else []
    case SpuriousWake => if s.notified then [] else [Other(e)]
    case Timeout(_) => if s.notified then [Other(Test(true))] else [Other(e)]
    case _ => [Other(e)]
  }

  predicate AtomicRunFrom(s: Cv, acts: seq<AtomicEvent>)
    decreases |acts|
  {
    acts == [] || (AtomicEnabled(s, acts[0]) && AtomicRunFrom(AtomicNext(s, acts[0]), acts[1..]))
  }

  function AtomicAfter(s: Cv, acts: seq<AtomicEvent>): Cv
    requires AtomicRunFrom(s, acts)
    decreases |acts|
  {
    if acts == [] then s else AtomicAfter(AtomicNext(s, acts[0]), acts[1..])
  }

  function MatchingRun(es: seq<Event>): seq<AtomicEvent>
    requires IsRun(es)
  {
    if es == [] then []
    else MatchingRun(es[..|es| - 1]) + Matching(After(es[..|es| - 1]), es[|es| - 1])
  }

  lemma {:induction false} AtomicRunsCompose(s: Cv, a: seq<AtomicEvent>, b: seq<AtomicEvent>)
    requires AtomicRunFrom(s, a) && AtomicRunFrom(AtomicAfter(s, a), b)
    ensures AtomicRunFrom(s, a + b) && AtomicAfter(s, a + b) == AtomicAfter(AtomicAfter(s, a), b)
    decreases |a|
  {
    if a == [] {
      assert a + b == b;
    } else {
      assert (a + b)[1..] == a[1..] + b;
      AtomicRunsCompose(AtomicNext(s, a[0]), a[1..], b);
    }
  }

  lemma StepRefines(s: Cv, e: Event)
    requires Enabled(s, e)
    ensures AtomicRunFrom(Abstract(s), Matching(s, e))
    ensures AtomicAfter(Abstract(s), Matching(s, e)) == Abstract(Next(s, e))
  {
    var step := Matching(s, e);
    if step != [] {
      assert step == [step[0]] && step[1..] == [];
      var target := AtomicNext(Abstract(s), step[0]);
      assert AtomicAfter(Abstract(s), step) == AtomicAfter(target, []) == target;
    }
  }

  /** Every run of the two-step helper is, seen through `Abstract`, a run of the machine in
      which notifyOne is a single step. */
  lemma {:induction false} RefinesAtomicNotify(es: seq<Event>)
    requires IsRun(es)
    ensures AtomicRunFrom(FRESH, MatchingRun(es))
    ensures AtomicAfter(FRESH, MatchingRun(es)) == Abstract(After(es))
  {
    if es != [] {
      var before, e := es[..|es| - 1], es[|es| - 1];
      RefinesAtomicNotify(before);
      var s := After(before);
      var step := Matching(s, e);
      StepRefines(s, e);
      AtomicRunsCompose(FRESH, MatchingRun(before), step);
    }
  }
}
