/** The read throttle as a machine of three threads: the reader inside `wait`, the thread of
    `throttleLoop`, and the producer inside `registerTimePeriod`. Every read-modify-write of a
    shared field, every test and every notifyOne is a step of its own; steps of different
    threads interleave freely. A notifyOne is one step, which `ConditionVariable` justifies. */
module ThrottleMachine {
  import opened CircularBuffer
  import opened Integers

  const IDLE_LIMIT_COUNT: nat := 100
  const READ_AHEAD_COUNT: nat := 30
  const TIME_PERIOD_TRUNCATION_THRESHOLD_US: nat := 500
  const LIVE_POSITION_THRESHOLD_INDEX: nat := 10
  const SEEK_DISTANCE: nat := 10

  // Where the reader is inside `wait`.
  datatype Reader =
    | Outside
    | LiveTest | LiveKeepPosition | LiveStop
    | CountAhead | EndAhead
    | Decide | StartIndex | StartRunning | StartNotify | Seek
    | LoopTest | CvTest | CvParked
    | Finish

  // Where the throttle thread is inside `throttleLoop`.
  datatype Loop =
    | Outer | StartTest | StartParked
    | Inner | Fetch
    | PeriodTest | PeriodParked | TimeoutStop | TimeoutNotify
    | Sleep(time: nat) | TickNotify | IdleCount
    | IdleKeepPosition | IdleTest | IdleStop | IdleNotify

  datatype Producer = Ready | MustNotify

  // What the threads share.
  datatype Memory = Memory(
    capacity: nat,
    periods: seq<nat>,   // mTimePeriodBuffer
    index: nat,          // mThrottleIndex
    pos: nat,            // mPos
    lastPos: nat,        // mLastPos
    running: bool)       // mThrottleRunning

  datatype Counters = Counters(
    enabled: bool,       // mEnableThrottling
    readAhead: nat,      // mReadAheadCount
    idle: nat,           // mIdleCount
    lastPosIdle: nat)    // mLastPosIdle

  // mNotified of mCvStartThrottle, mCvThrottleChanged and mCvTimePeriodRegistered.
  datatype Flags = Flags(start: bool, changed: bool, period: bool)

  datatype State = State(mem: Memory, count: Counters, flag: Flags, reader: Reader, loop: Loop, producer: Producer)

  function Initial(capacity: nat): State {
    State(Memory(capacity, [], 0, 0, 0, false), Counters(true, 0, 0, 0), Flags(false, false, false),
          Outside, Outer, Ready)
  }

  predicate Valid(s: State) {
    0 < s.mem.capacity && |s.mem.periods| <= s.mem.capacity
  }

  predicate Full(s: State) {
    |s.mem.periods| == s.mem.capacity
  }

  // The predicate on which `wait` blocks.
  predicate Released(s: State) {
    s.mem.pos < s.mem.index || !s.mem.running
  }

  // Subtraction of unsigned 64-bit numbers.
  function Minus64(a: nat, b: nat): int {
    if b <= a then a - b else a - b + UINT64_COUNT
  }

  function Distance(a: nat, b: nat): nat {
    if a <= b then b - a else a - b
  }

  predicate IsLive(s: State) {
    !s.count.enabled || Minus64(|s.mem.periods|, s.mem.pos) <= LIVE_POSITION_THRESHOLD_INDEX
  }

  // The lap time as it is registered.
  function Registered(lap: nat): nat {
    if lap < TIME_PERIOD_TRUNCATION_THRESHOLD_US then 0 else lap - TIME_PERIOD_TRUNCATION_THRESHOLD_US
  }

  function Lowered(n: nat): nat {
    if n > 0 then n - 1 else 0
  }

  // The three notifyOne calls.
  function NotifyStart(s: State): State {
    s.(flag := s.flag.(start := true), loop := if s.loop.StartParked? then StartTest else s.loop)
  }

  function NotifyChanged(s: State): State {
    s.(flag := s.flag.(changed := true), reader := if s.reader.CvParked? then CvTest else s.reader)
  }

  function NotifyPeriod(s: State): State {
    s.(flag := s.flag.(period := true), loop := if s.loop.PeriodParked? then PeriodTest else s.loop)
  }

  // What the sections under mMutexTimePeriodBuffer do to the shared memory.
  function Registering(m: Memory, period: nat): (n: Memory)
    requires 0 < m.capacity && |m.periods| <= m.capacity
    ensures n.capacity == m.capacity && |n.periods| <= n.capacity
  {
    var full := |m.periods| == m.capacity;
    m.(periods := PushedBack(m.periods, m.capacity, period),
       index := if full then Lowered(m.index) else m.index,
       pos := if full then Lowered(m.pos) else m.pos)
  }

  function Clearing(m: Memory): Memory {
    Memory(m.capacity, [], 0, 0, 0, false)
  }

  function Truncating(m: Memory): Memory {
    if m.periods == [] then m
    else
      var kept := if m.lastPos < |m.periods| then m.lastPos + 1 else |m.periods|;
      m.(periods := m.periods[..kept], index := 0, running := false)
  }

  // registerTimePeriod up to its notification.
  function Register(s: State, lap: nat): State
    requires Valid(s)
  {
    s.(mem := Registering(s.mem, Registered(lap)), producer := MustNotify)
  }

  function Cleared(s: State): State {
    s.(mem := Clearing(s.mem), count := s.count.(readAhead := 0))
  }

  function Truncated(s: State): State {
    if s.mem.periods == [] then s else s.(mem := Truncating(s.mem), count := s.count.(readAhead := 0))
  }

  function ReaderStep(s: State): State {
    match s.reader
    case Outside => s
    case LiveTest => s.(reader := if IsLive(s) then LiveKeepPosition else CountAhead)
    case LiveKeepPosition => s.(mem := s.mem.(lastPos := s.mem.pos), reader := LiveStop)
    case LiveStop => s.(mem := s.mem.(running := false), reader := Outside)
    case CountAhead =>
      var n := if s.count.readAhead < READ_AHEAD_COUNT then s.count.readAhead + 1 else s.count.readAhead;
      s.(count := s.count.(readAhead := n),
         reader := if n > READ_AHEAD_COUNT then Decide
                   else if n == READ_AHEAD_COUNT then EndAhead
                   else Finish)
    case EndAhead =>
      s.(count := s.count.(readAhead := s.count.readAhead + 1), mem := s.mem.(index := s.mem.pos), reader := Finish)
    case Decide =>
      s.(reader := if !s.mem.running then StartIndex
                   else if Distance(s.mem.pos, s.mem.lastPos) > SEEK_DISTANCE then Seek
                   else LoopTest)
    case StartIndex => s.(mem := s.mem.(index := s.mem.pos), reader := StartRunning)
    case StartRunning => s.(mem := s.mem.(running := true), reader := StartNotify)
    case StartNotify => NotifyStart(s).(reader := LoopTest)
    case Seek => s.(count := s.count.(readAhead := 0), mem := s.mem.(index := s.mem.pos), reader := LoopTest)
    case LoopTest => s.(reader := if Released(s) then Finish else CvTest)
    case CvTest =>
      if s.flag.changed || Released(s) then s.(flag := s.flag.(changed := false), reader := LoopTest)
      else s.(reader := CvParked)
    case CvParked => s
    case Finish => s.(mem := s.mem.(lastPos := s.mem.pos), reader := Outside)
  }

  function LoopStep(s: State): State {
    match s.loop
    case Outer => s.(count := s.count.(idle := 0), loop := if s.mem.running then Inner else StartTest)
    case StartTest =>
      if s.flag.start then s.(flag := s.flag.(start := false), loop := Inner) else s.(loop := StartParked)
    case StartParked => s
    case Inner => s.(loop := if s.mem.running then Fetch else Outer)
    case Fetch =>
      s.(loop := if s.mem.index < |s.mem.periods| then Sleep(s.mem.periods[s.mem.index]) else PeriodTest)
    case PeriodTest =>
      if s.flag.period || s.mem.index < |s.mem.periods| then
        s.(flag := s.flag.(period := false), loop := IdleKeepPosition)
      else
        s.(loop := PeriodParked)
    case PeriodParked => s
    case TimeoutStop => s.(mem := s.mem.(running := false), loop := TimeoutNotify)
    case TimeoutNotify => NotifyChanged(s).(loop := IdleKeepPosition)
    case Sleep(_) => s.(mem := s.mem.(index := s.mem.index + 1), loop := TickNotify)
    case TickNotify => NotifyChanged(s).(loop := IdleCount)
    case IdleCount =>
      var idle := if s.mem.lastPos == s.count.lastPosIdle then (s.count.idle + 1) % UINT16_COUNT else 0;
      s.(count := s.count.(idle := idle), loop := IdleKeepPosition)
    case IdleKeepPosition => s.(count := s.count.(lastPosIdle := s.mem.lastPos), loop := IdleTest)
    case IdleTest => s.(loop := if s.count.idle > IDLE_LIMIT_COUNT then IdleStop else Inner)
    case IdleStop => s.(mem := s.mem.(running := false), loop := IdleNotify)
    case IdleNotify => NotifyChanged(s).(loop := Inner)
  }

  // The timed wait gives up: the condition is evaluated once more.
  function LoopTimeout(s: State): State {
    s.(flag := s.flag.(period := false),
       loop := if s.flag.period || s.mem.index < |s.mem.periods| then IdleKeepPosition else TimeoutStop)
  }

  datatype Event =
    | Push(lap: nat)         // the producer, inside registerTimePeriod
    | PushNotify
    | SetPosition(at: nat)   // the reader, outside `wait`
    | CallWait
    | Clear
    | ClearToLastRead
    | ReaderRuns
    | ReaderWakes            // spuriously
    | LoopRuns
    | LoopWakes              // spuriously
    | LoopTimesOut
    | Enable(on: bool)

  // `clear` and `clearToLastRead` are calls of the reading thread, so never inside its `wait`.
  predicate Enabled(s: State, e: Event) {
    match e
    case Push(_) => s.producer.Ready?
    case PushNotify => s.producer.MustNotify?
    case SetPosition(_) => s.reader.Outside?
    case CallWait => s.reader.Outside?
    case Clear => s.reader.Outside?
    case ClearToLastRead => s.reader.Outside?
    case ReaderRuns => !s.reader.Outside? && !s.reader.CvParked?
    case ReaderWakes => s.reader.CvParked?
    case LoopRuns => !s.loop.StartParked? && !s.loop.PeriodParked?
    case LoopWakes => s.loop.StartParked? || s.loop.PeriodParked?
    case LoopTimesOut => s.loop.PeriodParked?
    case Enable(_) => true
  }

  function Next(s: State, e: Event): (t: State)
    requires Valid(s) && Enabled(s, e)
    ensures Valid(t) && t.mem.capacity == s.mem.capacity
  {
    match e
    case Push(lap) => Register(s, lap)
    case PushNotify => NotifyPeriod(s).(producer := Ready)
    case SetPosition(at) => s.(mem := s.mem.(pos := at))
    case CallWait => s.(reader := LiveTest)
    case Clear => Cleared(s)
    case ClearToLastRead => Truncated(s)
    case ReaderRuns => ReaderStep(s)
    case ReaderWakes => s.(reader := CvTest)
    case LoopRuns => LoopStep(s)
    case LoopWakes => s.(loop := if s.loop.StartParked? then StartTest else PeriodTest)
    case LoopTimesOut => LoopTimeout(s)
    case Enable(on) => s.(count := s.count.(enabled := on))
  }

  // A run of the machine from s.
  predicate IsRun(s: State, es: seq<Event>)
    requires Valid(s)
    decreases |es|
  {
    es == [] || (Enabled(s, es[0]) && IsRun(Next(s, es[0]), es[1..]))
  }

  function After(s: State, es: seq<Event>): (t: State)
    requires Valid(s) && IsRun(s, es)
    ensures Valid(t) && t.mem.capacity == s.mem.capacity
    decreases |es|
  {
    if es == [] then s else After(Next(s, es[0]), es[1..])
  }
}
