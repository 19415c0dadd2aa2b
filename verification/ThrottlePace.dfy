/** What the throttle thread sleeps, measured against the periods that were registered. */
module ThrottlePace {
  import opened ThrottleCall
  import opened ThrottleMachine

  /** A state with its history: every period registered since the last clear; the time slept; the
      time of the periods that the index passed over because the ring rotated while it stood at 0
      (the oldest period when no tick is in flight, and otherwise the one behind it); the absolute
      position fetched last; and the absolute positions that were slept, in order. */
  datatype Recorded = Recorded(
    s: State,
    all: seq<nat>,
    slept: nat,
    skipped: nat,
    fetchedAt: nat,
    marks: seq<nat>)

  predicate Windowed(r: Recorded) {
    && Valid(r.s)
    && |r.s.mem.periods| <= |r.all|
    && r.s.mem.periods == r.all[Base(r)..]
  }

  function Base(r: Recorded): nat
    requires |r.s.mem.periods| <= |r.all|
  {
    |r.all| - |r.s.mem.periods|
  }

  // The throttle index counted from the first registered period.
  function Absolute(r: Recorded): nat
    requires |r.s.mem.periods| <= |r.all|
  {
    Base(r) + r.s.mem.index
  }

  // The first period that is neither slept, nor being slept, nor skipped.
  function Reach(r: Recorded): nat
    requires |r.s.mem.periods| <= |r.all|
  {
    Absolute(r) + if r.s.loop.Sleep? then 1 else 0
  }

  function Outstanding(r: Recorded): nat {
    if r.s.loop.Sleep? then r.s.loop.time else 0
  }

  predicate RotatesAtZero(s: State, e: Event) {
    e.Push? && Full(s) && s.mem.index == 0
  }

  // The step gives the throttle index a new value instead of advancing it.
  predicate RestoresIndex(s: State, e: Event) {
    e.Clear? || e.ClearToLastRead? || (e.ReaderRuns? && (s.reader.StartIndex? || s.reader.Seek? || s.reader.EndAhead?))
  }

  predicate MayRecord(r: Recorded, e: Event) {
    Enabled(r.s, e) && !RestoresIndex(r.s, e)
  }

  lemma OnlyPushMovesPeriods(s: State, e: Event)
    requires Valid(s) && Enabled(s, e) && !RestoresIndex(s, e) && !e.Push?
    ensures Next(s, e).mem.periods == s.mem.periods
  {
  }

  function Record(r: Recorded, e: Event): (t: Recorded)
    requires Windowed(r) && MayRecord(r, e)
    ensures Windowed(t)
  {
    var t := Next(r.s, e);
    match e
    case Push(lap) =>
      var all := r.all + [Registered(lap)];
      r.(s := t, all := all, skipped := r.skipped + if RotatesAtZero(r.s, e) then At(all, Reach(r)) else 0)
    case LoopRuns =>
      OnlyPushMovesPeriods(r.s, e);
      if r.s.loop.Sleep? then
        r.(s := t, slept := r.slept + r.s.loop.time, marks := r.marks + [r.fetchedAt])
      else
        r.(s := t, fetchedAt := if t.loop.Sleep? then Absolute(r) else r.fetchedAt)
    case _ =>
      OnlyPushMovesPeriods(r.s, e);
      r.(s := t)
  }

  function At(all: seq<nat>, i: nat): nat {
    if i < |all| then all[i] else 0
  }

  function Total(all: seq<nat>, from: nat, till: nat): nat
    decreases till
  {
    if till <= from then 0 else Total(all, from, till - 1) + At(all, till - 1)
  }

  lemma {:induction false} TotalOfLonger(all: seq<nat>, x: nat, from: nat, till: nat)
    requires till <= |all| || till <= from
    ensures Total(all + [x], from, till) == Total(all, from, till)
    decreases till
  {
    if from < till {
      TotalOfLonger(all, x, from, till - 1);
    }
  }

  lemma {:induction false} TotalSplits(all: seq<nat>, from: nat, mid: nat, till: nat)
    requires from <= mid <= till
    ensures Total(all, from, till) == Total(all, from, mid) + Total(all, mid, till)
    decreases till
  {
    if mid < till {
      TotalSplits(all, from, mid, till - 1);
    }
  }

  // Time is conserved since the reach stood at from, with due as the time accounted for before.
  predicate Conserved(r: Recorded, from: nat, due: nat) {
    && Windowed(r)
    && from <= Reach(r)
    && (from == Reach(r) || Reach(r) <= |r.all|)
    && r.slept + Outstanding(r) + r.skipped == due + Total(r.all, from, Reach(r))
  }

  lemma PushFrame(r: Recorded, lap: nat)
    requires Windowed(r) && MayRecord(r, Push(lap))
    ensures Base(Record(r, Push(lap))) == Base(r) + if Full(r.s) then 1 else 0
  {
  }

  lemma LoopFrame(r: Recorded)
    requires Windowed(r) && MayRecord(r, LoopRuns)
    ensures var t := Record(r, LoopRuns);
            && Base(t) == Base(r)
            && t.all == r.all && t.skipped == r.skipped
            && t.s.mem.index == r.s.mem.index + (if r.s.loop.Sleep? then 1 else 0)
            && t.slept == r.slept + Outstanding(r)
            && (t.s.loop.Sleep? <==> r.s.loop.Fetch? && r.s.mem.index < |r.s.mem.periods|)
            && (t.s.loop.Sleep? ==> t.s.loop.time == r.s.mem.periods[r.s.mem.index])
  {
  }

  lemma OtherFrame(r: Recorded, e: Event)
    requires Windowed(r) && MayRecord(r, e) && !e.Push? && !e.LoopRuns?
    ensures var t := Record(r, e);
            && t == r.(s := t.s)
            && t.s.mem.periods == r.s.mem.periods && t.s.mem.index == r.s.mem.index
            && (t.s.loop.Sleep? || r.s.loop.Sleep? ==> t.s.loop == r.s.loop)
  {
    match e {
      case ReaderRuns => assert r.s.reader.StartNotify? || ReaderStep(r.s).loop == r.s.loop;
      case _ =>
    }
  }

  lemma PushConserves(r: Recorded, lap: nat, from: nat, due: nat)
    requires Windowed(r) && MayRecord(r, Push(lap)) && Conserved(r, from, due)
    ensures Conserved(Record(r, Push(lap)), from, due)
  {
    PushFrame(r, lap);
    TotalOfLonger(r.all, Registered(lap), from, Reach(r));
  }

  lemma LoopConserves(r: Recorded, from: nat, due: nat)
    requires Windowed(r) && MayRecord(r, LoopRuns) && Conserved(r, from, due)
    ensures Conserved(Record(r, LoopRuns), from, due)
  {
    LoopFrame(r);
  }

  lemma StepConserves(r: Recorded, e: Event, from: nat, due: nat)
    requires Windowed(r) && MayRecord(r, e) && Conserved(r, from, due)
    ensures Conserved(Record(r, e), from, due)
  {
    match e {
      case Push(lap) => PushConserves(r, lap, from, due);
      case LoopRuns => LoopConserves(r, from, due);
      case _ => OtherFrame(r, e);
    }
  }

  predicate IsRecording(r: Recorded, es: seq<Event>)
    requires Windowed(r)
    decreases |es|
  {
    es == [] || (MayRecord(r, es[0]) && IsRecording(Record(r, es[0]), es[1..]))
  }

  function Recording(r: Recorded, es: seq<Event>): (t: Recorded)
    requires Windowed(r) && IsRecording(r, es)
    ensures Windowed(t)
    decreases |es|
  {
    if es == [] then r else Recording(Record(r, es[0]), es[1..])
  }

  lemma {:induction false} RunConserves(r: Recorded, es: seq<Event>, from: nat, due: nat)
    requires Windowed(r) && IsRecording(r, es) && Conserved(r, from, due)
    ensures Conserved(Recording(r, es), from, due)
    decreases |es|
  {
    if es != [] {
      StepConserves(r, es[0], from, due);
      RunConserves(Record(r, es[0]), es[1..], from, due);
    }
  }

  /** From any state, along any run in which the index is not stored anew, the time slept and the
      time skipped add up to the tick in flight at the start, if any, and the registered periods
      from there to where the throttle index is, in absolute positions. */
  lemma TimeIsConserved(r: Recorded, es: seq<Event>)
    requires Windowed(r) && IsRecording(r, es)
    ensures var t := Recording(r, es);
            t.slept + Outstanding(t) + t.skipped
              == r.slept + Outstanding(r) + r.skipped + Total(t.all, Reach(r), Reach(t))
  {
    RunConserves(r, es, Reach(r), r.slept + Outstanding(r) + r.skipped);
  }

  predicate NeverRotatesAtZero(r: Recorded, es: seq<Event>)
    requires Windowed(r) && IsRecording(r, es)
    decreases |es|
  {
    es == [] || (!RotatesAtZero(r.s, es[0]) && NeverRotatesAtZero(Record(r, es[0]), es[1..]))
  }

  // The index has not fallen behind start. The tick in flight is the one of the period at the index,
  // unless the segment began there with a tick in flight and that is the one.
  predicate InFlightIsNext(r: Recorded, start: nat, early: bool) {
    && Windowed(r)
    && start <= Absolute(r)
    && (r.s.loop.Sleep? ==>
          || (early && Absolute(r) == start)
          || (r.s.mem.index < |r.s.mem.periods| && r.s.loop.time == At(r.all, Absolute(r))))
  }

  lemma StepSkipsNothing(r: Recorded, e: Event, start: nat, early: bool)
    requires Windowed(r) && MayRecord(r, e) && InFlightIsNext(r, start, early) && !RotatesAtZero(r.s, e)
    ensures InFlightIsNext(Record(r, e), start, early) && Record(r, e).skipped == r.skipped
  {
    match e {
      case Push(lap) => PushFrame(r, lap);
      case LoopRuns => LoopFrame(r);
      case _ => OtherFrame(r, e);
    }
  }

  lemma {:induction false} RunSkipsNothing(r: Recorded, es: seq<Event>, start: nat, early: bool)
    requires Windowed(r) && IsRecording(r, es) && NeverRotatesAtZero(r, es) && InFlightIsNext(r, start, early)
    ensures InFlightIsNext(Recording(r, es), start, early) && Recording(r, es).skipped == r.skipped
    decreases |es|
  {
    if es != [] {
      StepSkipsNothing(r, es[0], start, early);
      RunSkipsNothing(Record(r, es[0]), es[1..], start, early);
    }
  }

  // No time is skipped, and what is in flight now is known.
  predicate Paced(r: Recorded, t: Recorded)
    requires Windowed(r) && Windowed(t)
  {
    && t.slept + Outstanding(t) == r.slept + Outstanding(r) + Total(t.all, Reach(r), Reach(t))
    && InFlightIsNext(t, Absolute(r), r.s.loop.Sleep?)
  }

  lemma RunIsPaced(r: Recorded, es: seq<Event>, t: Recorded)
    requires Windowed(r) && IsRecording(r, es) && NeverRotatesAtZero(r, es) && t == Recording(r, es)
    ensures Paced(r, t)
  {
    RunSkipsNothing(r, es, Absolute(r), r.s.loop.Sleep?);
    RunConserves(r, es, Reach(r), r.slept + Outstanding(r) + r.skipped);
  }

  lemma NothingInFlightCounts(r: Recorded, t: Recorded)
    requires Windowed(r) && Windowed(t) && Paced(r, t)
    requires !r.s.loop.Sleep? || Absolute(r) < Absolute(t)
    ensures t.slept == r.slept + Outstanding(r) + Total(t.all, Reach(r), Absolute(t))
  {
  }

  /** If moreover the ring never rotates while the index stands at 0, nothing is skipped: from a
      state between two ticks the time slept is the sum of the registered periods from the starting
      chunk up to the absolute throttle index. */
  lemma PaceIsKept(r: Recorded, es: seq<Event>)
    requires Windowed(r) && !r.s.loop.Sleep? && IsRecording(r, es) && NeverRotatesAtZero(r, es)
    ensures Recording(r, es).slept == r.slept + Total(Recording(r, es).all, Absolute(r), Absolute(Recording(r, es)))
  {
    RunIsPaced(r, es, Recording(r, es));
    NothingInFlightCounts(r, Recording(r, es));
  }

  /** So a reader that leaves the waiting loop while throttling runs on has waited for every period
      from the start of the segment through the chunk it read; when the segment started with a tick
      in flight, that tick took the place of the first period. */
  lemma WaitSleepsThroughTheChunkRead(r: Recorded, es: seq<Event>, t: Recorded)
    requires Windowed(r) && IsRecording(r, es) && NeverRotatesAtZero(r, es)
    requires t == Recording(r, es) && Leaves(t.s) && t.s.mem.running
    ensures var read := Base(t) + t.s.mem.pos;
            Absolute(r) <= read ==>
              r.slept + Outstanding(r) + Total(t.all, Reach(r), read + 1) <= t.slept
  {
    LeavesLoopOnlyReleased(t.s, ReaderRuns);
    RunIsPaced(r, es, t);
    ReleasedSleptItsChunk(r, t);
  }

  lemma ReleasedSleptItsChunk(r: Recorded, t: Recorded)
    requires Windowed(r) && Windowed(t) && Paced(r, t) && t.s.mem.running && Released(t.s)
    ensures var read := Base(t) + t.s.mem.pos;
            Absolute(r) <= read ==>
              r.slept + Outstanding(r) + Total(t.all, Reach(r), read + 1) <= t.slept
  {
    if Absolute(r) <= Base(t) + t.s.mem.pos {
      NothingInFlightCounts(r, t);
      CoversRead(t, Reach(r));
    }
  }

  lemma CoversRead(t: Recorded, from: nat)
    requires Windowed(t) && t.s.mem.running && Released(t.s)
    ensures var read := Base(t) + t.s.mem.pos;
            from <= read + 1 ==> Total(t.all, from, read + 1) <= Total(t.all, from, Absolute(t))
  {
    var read := Base(t) + t.s.mem.pos;
    if from <= read + 1 {
      TotalSplits(t.all, from, read + 1, Absolute(t));
    }
  }

  predicate KeepsPosition(es: seq<Event>) {
    forall e | e in es :: !e.SetPosition?
  }

  // The chunk at the read position only moves forward, when it is overwritten.
  lemma {:induction false} ChunkReadAdvances(r: Recorded, es: seq<Event>)
    requires Windowed(r) && IsRecording(r, es) && KeepsPosition(es)
    ensures Base(r) + r.s.mem.pos <= Base(Recording(r, es)) + Recording(r, es).s.mem.pos
    decreases |es|
  {
    if es != [] {
      StepKeepsChunkRead(r, es[0]);
      ChunkReadAdvances(Record(r, es[0]), es[1..]);
    }
  }

  lemma StepKeepsChunkRead(r: Recorded, e: Event)
    requires Windowed(r) && MayRecord(r, e) && !e.SetPosition?
    ensures Base(r) + r.s.mem.pos <= Base(Record(r, e)) + Record(r, e).s.mem.pos
  {
    match e {
      case Push(lap) => PushFrame(r, lap);
      case LoopRuns => LoopFrame(r);
      case _ => OtherFrame(r, e);
    }
  }

  /** A segment that the reader starts begins with the chunk it reads. */
  lemma ReaderStartsAtItsChunk(s: State)
    requires Valid(s) && Enabled(s, ReaderRuns) && RestoresIndex(s, ReaderRuns)
    ensures var t := Next(s, ReaderRuns);
            t.mem == s.mem.(index := s.mem.pos) && t.loop == s.loop
  {
  }

  lemma WaitFromItsChunk(r: Recorded, es: seq<Event>, t: Recorded)
    requires Windowed(r) && r.s.mem.index == r.s.mem.pos && IsRecording(r, es)
    requires NeverRotatesAtZero(r, es) && KeepsPosition(es)
    requires t == Recording(r, es) && Leaves(t.s) && t.s.mem.running
    ensures r.slept + Outstanding(r) + Total(t.all, Reach(r), Base(t) + t.s.mem.pos + 1) <= t.slept
    ensures Base(r) + r.s.mem.pos <= Base(t) + t.s.mem.pos
  {
    LeavesLoopOnlyReleased(t.s, ReaderRuns);
    RunIsPaced(r, es, t);
    ChunkReadAdvances(r, es);
    ReleasedSleptItsChunk(r, t);
  }

  // The step with which the reader starts the segment that r records.
  predicate Starts(s: State, r: Recorded) {
    && Valid(s) && Enabled(s, ReaderRuns) && RestoresIndex(s, ReaderRuns)
    && r.s == Next(s, ReaderRuns)
  }

  /** The call of `wait` that starts throttling, or moves it after a seek, and blocks: when it goes
      on with throttling still running, every period from its own chunk on has been slept, however
      many chunks were pushed meanwhile; or, with a tick in flight when it stored the index, that
      tick and every period from the chunk behind its own on. */
  lemma StartingWaitSleepsItsChunk(s: State, r: Recorded, es: seq<Event>, t: Recorded)
    requires Starts(s, r)
    requires Windowed(r) && IsRecording(r, es) && NeverRotatesAtZero(r, es) && KeepsPosition(es)
    requires t == Recording(r, es) && Leaves(t.s) && t.s.mem.running
    ensures r.slept + TickOf(s) + Total(t.all, Base(r) + FirstSlept(s), Base(t) + t.s.mem.pos + 1) <= t.slept
    ensures Base(r) + s.mem.pos <= Base(t) + t.s.mem.pos
  {
    StartedAtItsChunk(s, r);
    WaitFromItsChunk(r, es, t);
  }

  // The position of the first period that is slept in full after the reader stores the index in s.
  function FirstSlept(s: State): nat {
    if s.loop.Sleep? then s.mem.pos + 1 else s.mem.pos
  }

  function TickOf(s: State): nat {
    if s.loop.Sleep? then s.loop.time else 0
  }

  lemma StartedAtItsChunk(s: State, r: Recorded)
    requires Starts(s, r) && Windowed(r)
    ensures r.s.mem.index == r.s.mem.pos == s.mem.pos
    ensures Reach(r) == Base(r) + FirstSlept(s) && Outstanding(r) == TickOf(s)
  {
    ReaderStartsAtItsChunk(s);
  }

  /** No more is promised with a tick in flight: after a seek, the end of that tick alone releases the
      reader, and the period of its own chunk is never slept. */
  lemma TickInFlightReleasesSeek(s: State)
    requires Valid(s) && s.reader.Seek? && s.loop.Sleep? && s.mem.running
    ensures var t := Next(Next(s, ReaderRuns), LoopRuns);
            Released(t) && t.mem.index == t.mem.pos + 1 && t.mem.pos == s.mem.pos
  {
  }

  predicate Increasing(marks: seq<nat>) {
    forall i, j :: 0 <= i < j < |marks| ==> marks[i] < marks[j]
  }

  // The positions slept so far, increasing, and all behind the one that comes next.
  predicate InOrder(r: Recorded, from: nat) {
    && Windowed(r)
    && Increasing(r.marks)
    && (forall m :: m in r.marks ==> from <= m < Absolute(r))
    && (r.s.loop.Sleep? ==>
          && from <= r.fetchedAt <= Absolute(r)
          && forall m :: m in r.marks ==> m < r.fetchedAt)
    && from <= Absolute(r)
  }

  lemma IncreasingGrows(marks: seq<nat>, x: nat)
    requires Increasing(marks) && forall m :: m in marks ==> m < x
    ensures Increasing(marks + [x])
  {
    forall i | 0 <= i < |marks| ensures marks[i] < x {
      assert marks[i] in marks;
    }
  }

  lemma StepKeepsOrder(r: Recorded, e: Event, from: nat)
    requires Windowed(r) && MayRecord(r, e) && InOrder(r, from)
    ensures InOrder(Record(r, e), from)
  {
    match e {
      case Push(lap) => PushFrame(r, lap);
      case LoopRuns =>
        LoopFrame(r);
        if r.s.loop.Sleep? {
          IncreasingGrows(r.marks, r.fetchedAt);
        }
      case _ => OtherFrame(r, e);
    }
  }

  /** Within a segment no period is slept twice and none out of order, even when the ring rotates
      underneath a throttle index that stands at 0. */
  lemma {:induction false} SleptInOrder(r: Recorded, es: seq<Event>, from: nat)
    requires Windowed(r) && IsRecording(r, es) && InOrder(r, from)
    ensures InOrder(Recording(r, es), from)
    decreases |es|
  {
    if es != [] {
      StepKeepsOrder(r, es[0], from);
      SleptInOrder(Record(r, es[0]), es[1..], from);
    }
  }
}
