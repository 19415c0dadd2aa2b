/** boost::circular_buffer as the pool and the throttle use it: a fixed array in which
    push_back on a full buffer overwrites the oldest element. */
module CircularBuffer {

  /** What push_back leaves: a full window slides by one. */
  function PushedBack<T>(s: seq<T>, capacity: nat, x: T): seq<T>
    requires 0 < capacity && |s| <= capacity
  {
    if |s| == capacity then s[1..] + [x] else s + [x]
  }

  class Ring<T(0)> {
    const data: array<T>
    var head: nat
    var count: nat
    ghost var contents: seq<T>   // the elements, oldest first

    ghost predicate Valid()
      reads this, data
    {
      && head < data.Length && count <= data.Length
      && |contents| == count
      && forall i: nat | i < count :: contents[i] == data[Slot(i)]
    }

    // The array slot of the i-th oldest element.
    function Slot(i: nat): (slot: nat)
      requires head < data.Length && i < data.Length
      reads this
      ensures slot < data.Length
    {
      if head + i < data.Length then head + i else head + i - data.Length
    }

    constructor (capacity: nat)
      requires 0 < capacity
      ensures Valid() && fresh(data) && data.Length == capacity && contents == []
    {
      data := new T[capacity];
      head, count := 0, 0;
      contents := [];
    }

    method PushBack(x: T)
      requires Valid()
      modifies this, data
      ensures Valid() && contents == PushedBack(old(contents), data.Length, x)
    {
      if count == data.Length {
        Overwrite(x);
      } else {
        Append(x);
      }
    }

    method Overwrite(x: T)
      requires Valid() && count == data.Length
      modifies this, data
      ensures Valid() && contents == old(contents)[1..] + [x]
    {
      contents := contents[1..] + [x];
      data[head] := x;
      head := if head + 1 == data.Length then 0 else head + 1;
    }

    method Append(x: T)
      requires Valid() && count < data.Length
      modifies this, data
      ensures Valid() && contents == old(contents) + [x]
    {
      contents := contents + [x];
      data[Slot(count)] := x;
      count := count + 1;
    }

    method At(i: nat) returns (x: T)
      requires Valid() && i < count
      ensures x == contents[i]
    {
      x := data[Slot(i)];
    }

    // erase_end
    method EraseEnd(n: nat)
      requires Valid() && n <= count
      modifies this
      ensures Valid() && contents == old(contents)[..old(count) - n]
    {
      count := count - n;
      contents := contents[..count];
    }

    method Clear()
      requires Valid()
      modifies this
      ensures Valid() && contents == []
    {
      head, count := 0, 0;
      contents := [];
    }
  }
}
