/** The read-ahead budget: how many reads pass without throttling after a start or a seek. */
module ThrottleBudget {
  import opened ThrottleMachine

  // A run with the number of throttle-eligible `wait` calls since the counter was last reset.
  datatype Counted = Counted(s: State, eligible: nat)

  predicate ResetsBudget(s: State, e: Event) {
    e.Clear? || (e.ClearToLastRead? && s.mem.periods != []) || (e.ReaderRuns? && s.reader.Seek?)
  }

  // The call turns out to be neither live nor unthrottled.
  predicate IsEligibleCall(s: State, e: Event) {
    e.ReaderRuns? && s.reader.CountAhead?
  }

  function Count(c: Counted, e: Event): Counted
    requires Valid(c.s) && Enabled(c.s, e)
  {
    Counted(Next(c.s, e),
            if ResetsBudget(c.s, e) then 0
            else if IsEligibleCall(c.s, e) then c.eligible + 1
            else c.eligible)
  }

  function CountAll(c: Counted, es: seq<Event>): (d: Counted)
    requires Valid(c.s) && IsRun(c.s, es)
    ensures d.s == After(c.s, es)
    decreases |es|
  {
    if es == [] then c else CountAll(Count(c, es[0]), es[1..])
  }

  // The part of `wait` that can block.
  predicate MayBlock(s: State) {
    s.reader.LoopTest? || s.reader.CvTest? || s.reader.CvParked?
  }

  predicate OnTheWayToBlock(s: State) {
    s.reader.Decide? || s.reader.StartIndex? || s.reader.StartRunning? || s.reader.StartNotify? || s.reader.Seek?
  }

  predicate Budgeted(c: Counted) {
    && (c.s.reader.EndAhead? ==> c.s.count.readAhead == c.eligible == READ_AHEAD_COUNT)
    && (!c.s.reader.EndAhead? ==>
          c.s.count.readAhead == if c.eligible < READ_AHEAD_COUNT then c.eligible else READ_AHEAD_COUNT + 1)
    && (OnTheWayToBlock(c.s) ==> c.eligible > READ_AHEAD_COUNT)
    && (MayBlock(c.s) ==> c.eligible == 0 || c.eligible > READ_AHEAD_COUNT)
  }

  lemma StepKeepsBudget(c: Counted, e: Event)
    requires Valid(c.s) && Enabled(c.s, e) && Budgeted(c)
    ensures Budgeted(Count(c, e))
  {
    match e {
      case ReaderRuns =>
      case LoopRuns =>
        assert LoopStep(c.s).count.readAhead == c.s.count.readAhead;
        assert LoopStep(c.s).reader == c.s.reader || (c.s.reader.CvParked? && LoopStep(c.s).reader.CvTest?);
      case _ =>
    }
  }

  lemma {:induction false} RunKeepsBudget(c: Counted, es: seq<Event>)
    requires Valid(c.s) && IsRun(c.s, es) && Budgeted(c)
    ensures Budgeted(CountAll(c, es))
    decreases |es|
  {
    if es != [] {
      StepKeepsBudget(c, es[0]);
      RunKeepsBudget(Count(c, es[0]), es[1..]);
    }
  }

  /** The counter never exceeds READ_AHEAD_COUNT + 1. Since the last reset, calls one to
      READ_AHEAD_COUNT never reach the part of `wait` that can block; only the call whose own
      seek reset the counter does. */
  lemma FirstReadsNeverBlock(capacity: nat, es: seq<Event>)
    requires 0 < capacity && IsRun(Initial(capacity), es)
    ensures var c := CountAll(Counted(Initial(capacity), 0), es);
            && c.s.count.readAhead <= READ_AHEAD_COUNT + 1
            && (1 <= c.eligible <= READ_AHEAD_COUNT ==> !MayBlock(c.s) && !OnTheWayToBlock(c.s))
  {
    RunKeepsBudget(Counted(Initial(capacity), 0), es);
  }

  /** And an eligible call heads for the blocking part if and only if READ_AHEAD_COUNT eligible
      calls have gone before it, however many live calls came between them. */
  lemma NextReadMayBlock(capacity: nat, es: seq<Event>)
    requires 0 < capacity && IsRun(Initial(capacity), es) && After(Initial(capacity), es).reader.CountAhead?
    ensures var c := CountAll(Counted(Initial(capacity), 0), es);
            Next(c.s, ReaderRuns).reader.Decide? <==> c.eligible >= READ_AHEAD_COUNT
  {
    RunKeepsBudget(Counted(Initial(capacity), 0), es);
  }
}
