/** The memory of the throttle as an object: the ring of time periods and the positions that
    point into it, changed in place by the sections that hold mMutexTimePeriodBuffer. */
module BufferPoolThrottle {
  import opened CircularBuffer
  import opened ThrottleMachine

  class BufferPoolThrottle {
    const timePeriodBuffer: Ring<nat>
    var throttleIndex: nat
    var pos: nat
    var lastPos: nat
    var running: bool
    var readAheadCount: nat
    var resetTimer: bool   // of the stop watch

    ghost const Repr: set<object>

    ghost predicate Valid()
      reads this, Repr
      ensures Valid() ==> this in Repr
    {
      && Repr == {this, timePeriodBuffer, timePeriodBuffer.data}
      && timePeriodBuffer.Valid() && 0 < timePeriodBuffer.data.Length
    }

    ghost function Memory(): (m: Memory)
      requires Valid()
      reads this, Repr
      ensures 0 < m.capacity && |m.periods| <= m.capacity
    {
      ThrottleMachine.Memory(timePeriodBuffer.data.Length, timePeriodBuffer.contents,
                             throttleIndex, pos, lastPos, running)
    }

    constructor (preAllocBufSize: nat)
      requires 0 < preAllocBufSize
      ensures Valid() && fresh(Repr)
      ensures Memory() == Initial(preAllocBufSize).mem && readAheadCount == 0 && resetTimer
    {
      var r := new Ring<nat>(preAllocBufSize);
      timePeriodBuffer := r;
      throttleIndex, pos, lastPos, readAheadCount := 0, 0, 0, 0;
      running, resetTimer := false, true;
      Repr := {this, r, r.data};
    }

    /** Registers the time since the previous call, or 0 for the first call ever and the first
        after a clear. When the ring rotates, the positions move with their chunks. */
    method RegisterTimePeriod(elapsed: nat)
      requires Valid()
      modifies Repr
      ensures Valid() && !resetTimer && readAheadCount == old(readAheadCount)
      ensures Memory() == Registering(old(Memory()), if old(resetTimer) then 0 else Registered(elapsed))
      ensures var periods := Memory().periods;
              && periods != []
              && if old(resetTimer) || elapsed < 500 then periods[|periods| - 1] == 0
                 else periods[|periods| - 1] + 500 == elapsed
    {
      var time := if resetTimer then 0 else elapsed;
      resetTimer := false;
      if time < TIME_PERIOD_TRUNCATION_THRESHOLD_US {
        time := 0;
      } else {
        time := time - TIME_PERIOD_TRUNCATION_THRESHOLD_US;
      }
      if timePeriodBuffer.count == timePeriodBuffer.data.Length {
        if throttleIndex > 0 { throttleIndex := throttleIndex - 1; }
        if pos > 0 { pos := pos - 1; }
      }
      timePeriodBuffer.PushBack(time);
    }

    method SetReadPosition(at: nat)
      requires Valid()
      modifies this`pos
      ensures Valid() && Memory() == old(Memory()).(pos := at)
    {
      pos := at;
    }

    method Clear()
      requires Valid()
      modifies Repr
      ensures Valid() && resetTimer && readAheadCount == 0
      ensures Memory() == Clearing(old(Memory()))
    {
      timePeriodBuffer.Clear();
      resetTimer := true;
      readAheadCount, throttleIndex, pos, lastPos := 0, 0, 0, 0;
      running := false;
    }

    // On an empty ring the call returns before it resets anything.
    method ClearToLastRead()
      requires Valid()
      modifies Repr
      ensures Valid() && Memory() == Truncating(old(Memory()))
      ensures readAheadCount == (if old(Memory()).periods == [] then old(readAheadCount) else 0)
      ensures resetTimer == (old(resetTimer) || old(Memory()).periods != [])
    {
      if timePeriodBuffer.count == 0 {
        return;
      }
      var numElements := timePeriodBuffer.count;
      if lastPos < numElements {
        timePeriodBuffer.EraseEnd(numElements - lastPos - 1);
      }
      resetTimer := true;
      readAheadCount := 0;
      throttleIndex := 0;
      running := false;
    }

    // The section of `throttleLoop` that fetches the period at the throttle index.
    method Fetch() returns (found: bool, time: nat)
      requires Valid()
      ensures found <==> Memory().index < |Memory().periods|
      ensures found ==> time == Memory().periods[Memory().index]
    {
      found, time := throttleIndex < timePeriodBuffer.count, 0;
      if found {
        time := timePeriodBuffer.At(throttleIndex);
      }
    }
  }
}
