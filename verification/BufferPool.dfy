/** The buffer pool over its ring array. Each method is proved against the window of
    `PoolWindow`; a read is proved to copy out the bytes of the stream it asks for. */
module BufferPool {
  import opened Chunks
  import opened CircularBuffer
  import opened PoolWindow

  // The ring holds the stream from base on. Said of the elements, since contents == stream[base..]
  // sends the verifier round in circles when the two are the same sequence.
  predicate IsWindow(contents: seq<Chunk>, stream: seq<Chunk>, base: nat) {
    && base + |contents| == |stream|
    && forall i | 0 <= i < |contents| :: contents[i] == stream[base + i]
  }

  // The window slides with the ring.
  lemma WindowSlides(contents: seq<Chunk>, p: Pool, x: Chunk, last: bool, lastSize: nat)
    requires PoolWindow.Valid(p) && IsWindow(contents, p.stream, p.base)
    ensures IsWindow(PushedBack(contents, p.capacity, x), p.stream + [x], Pushed(p, x, last, lastSize).base)
  {
  }

  class BufferPool {
    const ring: Ring<Chunk>
    var totalBufCount: nat
    var gotLastBuffer: bool
    var lastBufferSize: nat
    var lastReadLocation: nat
    var aborting: bool
    ghost var stream: seq<Chunk>

    ghost const Repr: set<object>

    ghost predicate Valid()
      reads this, Repr
      ensures Valid() ==> this in Repr
    {
      && Repr == {this, ring, ring.data}
      && ring.Valid() && 0 < ring.data.Length
      && totalBufCount == |stream| && ring.count <= totalBufCount
      && IsWindow(ring.contents, stream, totalBufCount - ring.count)
    }

    ghost function Abstract(): (p: Pool)
      requires Valid()
      reads this, Repr
      ensures PoolWindow.Valid(p)
    {
      Pool(ring.data.Length, stream, totalBufCount - ring.count,
           gotLastBuffer, lastBufferSize, lastReadLocation, aborting)
    }

    // The pool is p, up to the last read location.
    ghost predicate Reading(p: Pool)
      reads this, Repr
    {
      && Valid()
      && p.capacity == ring.data.Length && p.stream == stream && p.base == totalBufCount - ring.count
      && p.gotLast == gotLastBuffer && p.lastSize == lastBufferSize && p.aborting == aborting
    }

    // The consumer is handed the oldest resident chunk, which a ring of capacity 0 does not have.
    constructor (preAllocBufSize: nat)
      requires 0 < preAllocBufSize
      ensures Valid() && fresh(Repr) && Abstract() == Initial(preAllocBufSize)
      ensures stream == [] && !gotLastBuffer
    {
      var r := new Ring<Chunk>(preAllocBufSize);
      ring := r;
      totalBufCount, lastReadLocation, lastBufferSize := 0, 0, 0;
      gotLastBuffer, aborting := false, false;
      stream := [];
      Repr := {this, r, r.data};
    }

    method PushBuffer(buffer: Chunk, lastBuffer: bool, lastSize: nat) returns (available: Chunk)
      requires Valid()
      modifies Repr
      ensures Valid() && Abstract() == Pushed(old(Abstract()), buffer, lastBuffer, lastSize)
      ensures available == stream[Abstract().base]
    {
      ghost var p := Abstract();
      WindowSlides(ring.contents, p, buffer, lastBuffer, lastSize);
      ring.PushBack(buffer);
      totalBufCount := totalBufCount + 1;
      stream := stream + [buffer];
      if lastBuffer {
        gotLastBuffer := true;
        lastBufferSize := lastSize;
      }
      assert Size(Pushed(p, buffer, lastBuffer, lastSize)) == ring.count;
      available := ring.At(0);
    }

    method Clear()
      requires Valid()
      modifies Repr
      ensures Valid() && Abstract() == Cleared(old(Abstract()))
    {
      gotLastBuffer := false;
      totalBufCount := 0;
      lastBufferSize := 0;
      ring.Clear();
      stream := [];
    }

    method ClearToLastRead()
      requires Valid()
      modifies Repr
      ensures Valid() && Abstract() == Truncated(old(Abstract()))
    {
      if ring.count == 0 {
        return;
      }
      var numElements := ring.count;
      if numElements > lastReadLocation {
        var eraseCount := numElements - lastReadLocation - 1;
        ring.EraseEnd(eraseCount);
        stream := stream[..totalBufCount - eraseCount];
        totalBufCount := totalBufCount - eraseCount;
      }
      aborting := false;
    }

    method AbortAllOperations()
      requires Valid()
      modifies Repr
      ensures Valid() && Abstract() == old(Abstract()).(aborting := true)
    {
      aborting := true;
    }

    // What the other threads do while the reader does not hold the write mutex.
    method Deliver(arrivals: seq<Arrival>)
      requires Valid()
      modifies Repr
      ensures Valid() && Abstract() == AllArrived(old(Abstract()), arrivals)
    {
      for i := 0 to |arrivals|
        invariant Valid() && Abstract() == AllArrived(old(Abstract()), arrivals[..i])
      {
        match arrivals[i] {
          case PushedChunk(chunk, last, lastSize) => var _ := PushBuffer(chunk, last, lastSize);
          case Abort => AbortAllOperations();
        }
        ArrivedMore(old(Abstract()), arrivals[..i], arrivals[i]);
        assert arrivals[..i + 1] == arrivals[..i] + [arrivals[i]];
      }
      assert arrivals[..|arrivals|] == arrivals;
    }

    // Where chunk i of a read lies in the ring, and which of its bytes are copied. The read
    // started on p, and only the last read location has changed since.
    method Locate(ghost p: Pool, q: Request, i: nat)
      returns (defined: bool, pos: nat, skip: nat, size: nat)
      requires Reading(p)
      requires i < q.length && Padded(q)
      ensures defined <==> ItemDefined(p, q, i)
      ensures defined ==>
                && pos == q.offset + i - p.base && pos < ring.count && skip + size <= BUFFER_CHUNK_SIZE
                && ring.contents[pos][skip..skip + size] == Item(p, q, i)
    {
      pos, skip := 0, LeftSkip(q, i);
      size := Unpadded(skip, RightSkip(q, i));
      if gotLastBuffer && i + 1 == totalBufCount {
        size := Min(lastBufferSize, size);
      }
      assert size == ItemSize(p, q, i);
      var startPos: int := ring.count - (totalBufCount - q.offset) + i;
      defined := 0 <= startPos < ring.count && skip + size <= BUFFER_CHUNK_SIZE;
      if defined {
        pos := startPos;
        assert ring.contents[pos] == p.stream[q.offset + i];
      }
    }

    // One memcpy of `read`, of the bytes item.
    method CopyPiece(ghost p: Pool, ghost item: seq<Byte>, dst: array<Byte>, off: nat, pos: nat, skip: nat, size: nat)
      requires Reading(p) && pos < ring.count && skip + size <= BUFFER_CHUNK_SIZE
      requires item == ring.contents[pos][skip..skip + size]
      requires dst !in Repr && off + size <= dst.Length
      modifies this`lastReadLocation, dst
      ensures Reading(p) && lastReadLocation == pos
      ensures dst[..] == Overlaid(old(dst[..]), off, item)
    {
      lastReadLocation := pos;
      var chunk := ring.At(pos);
      forall j | 0 <= j < size {
        dst[off + j] := chunk[skip + j];
      }
    }

    // One turn of the copy loop.
    method CopyItem(ghost p: Pool, ghost before: seq<Byte>, dst: array<Byte>, off: nat, q: Request, i: nat)
      returns (defined: bool, size: nat)
      requires Reading(p) && dst !in Repr
      requires Padded(q) && i < q.length && HasRoom(p, q, |before|)
      requires Progress(p, q, i, off, lastReadLocation, before, dst[..])
      modifies this`lastReadLocation, dst
      ensures Reading(p)
      ensures defined <==> ItemDefined(p, q, i)
      ensures defined ==> Progress(p, q, i + 1, off + size, lastReadLocation, before, dst[..])
    {
      var pos, skip;
      defined, pos, skip, size := Locate(p, q, i);
      if defined {
        ProgressGrows(p, q, i, off, lastReadLocation, before, dst[..]);
        CopyPiece(p, Item(p, q, i), dst, off, pos, skip, size);
      }
    }

    // The copy loop of `read`. On a read it cannot serve it stops where the source is undefined.
    method CopyItems(ghost p: Pool, dst: array<Byte>, q: Request)
      returns (defined: bool, off: nat)
      requires Reading(p) && p.lastRead == lastReadLocation && dst !in Repr
      requires Padded(q) && HasRoom(p, q, dst.Length)
      modifies this`lastReadLocation, dst
      ensures Reading(p)
      ensures defined <==> ItemsDefined(p, q, q.length)
      ensures defined ==> Progress(p, q, q.length, off, lastReadLocation, old(dst[..]), dst[..])
    {
      ghost var before := dst[..];
      off := 0;
      for i := 0 to q.length
        invariant Reading(p) && Progress(p, q, i, off, lastReadLocation, before, dst[..])
      {
        var itemDefined, size := CopyItem(p, before, dst, off, q, i);
        if !itemDefined {
          return false, off;
        }
        off := off + size;
      }
      defined := true;
    }

    // The part of `read` under the write mutex.
    method CopyOut(dst: array<Byte>, q: Request) returns (r: ReadResult)
      requires Valid() && Padded(q) && dst !in Repr
      requires HasRoom(Abstract(), q, dst.Length)
      modifies this`lastReadLocation, dst
      ensures Reading(old(Abstract()))
      ensures Served(old(Abstract()), q, r, old(dst[..]), dst[..])
      ensures r.Returned? ==> lastReadLocation == AfterServed(old(Abstract()), q).lastRead
    {
      ghost var p := Abstract();
      if ring.count == 0 {
        return Returned(0);
      }
      DefinedMeansInWindow(p, q);
      var defined, off := CopyItems(p, dst, q);
      if !defined {
        return Undefined;
      }
      ItemsAreOutput(p, q);
      r := Returned(off);
    }

    // The checks of `read`.
    method Check(q: Request) returns (a: Admission)
      requires Valid()
      ensures a == Admit(Abstract(), q)
    {
      if gotLastBuffer && q.offset >= totalBufCount {
        return Refused;
      }
      if q.left >= BUFFER_CHUNK_SIZE || q.right >= BUFFER_CHUNK_SIZE {
        return Refused;
      }
      if q.offset > totalBufCount || totalBufCount - q.offset > ring.data.Length || q.length > ring.data.Length {
        return Refused;
      }
      a := if q.offset + q.length > totalBufCount && !gotLastBuffer then MustWait else Ready;
    }

    // The end of its wait.
    method Resume(q: Request) returns (go: bool)
      requires Valid()
      modifies this`aborting
      ensures Valid() && (go, Abstract()) == Resumed(old(Abstract()), q)
    {
      var readEnd := q.offset + q.length;
      if !(readEnd <= totalBufCount || gotLastBuffer || aborting) {
        return false;
      }
      if aborting {
        aborting := false;
        return false;
      }
      go := true;
    }

    // `read` up to the copy, with what arrives while it waits.
    method Await(q: Request, whileWaiting: seq<Arrival>) returns (go: bool)
      requires Valid()
      modifies Repr
      ensures Valid() && (go, Abstract()) == Awaited(old(Abstract()), q, whileWaiting)
    {
      var a := Check(q);
      go := a.Ready?;
      if a.MustWait? {
        Deliver(whileWaiting);
        go := Resume(q);
      }
    }

    // The whole of `read`.
    method Read(dst: array<Byte>, q: Request, whileWaiting: seq<Arrival>, beforeCopy: seq<Arrival>)
      returns (r: ReadResult)
      requires Valid() && dst !in Repr
      requires Bytes(q.length) <= dst.Length + q.left + q.right
      requires q.length == 1 && BUFFER_CHUNK_SIZE < q.left + q.right ==> BUFFER_CHUNK_SIZE <= dst.Length
      modifies Repr, dst
      ensures Answered(old(Abstract()), q, whileWaiting, beforeCopy, r, old(dst[..]), dst[..])
      ensures r.Returned? ==> Valid() && Abstract() == Left(old(Abstract()), q, whileWaiting, beforeCopy)
    {
      var go := Await(q, whileWaiting);
      if !go {
        return Returned(0);
      }
      Deliver(beforeCopy);
      DestinationSuffices(Abstract(), q, dst.Length);
      r := CopyOut(dst, q);
    }

    method ReadRandomAccess(data: array<Byte>, size: nat, offsetBytes: nat,
                            whileWaiting: seq<Arrival>, beforeCopy: seq<Arrival>)
      returns (r: ReadResult)
      requires Valid() && data !in Repr && size <= data.Length
      modifies Repr, data
      ensures Answered(old(Abstract()), ChunksAround(offsetBytes, size), whileWaiting, beforeCopy,
                       r, old(data[..]), data[..])
      ensures r.Returned? ==>
                && Valid()
                && Abstract() == Left(old(Abstract()), ChunksAround(offsetBytes, size), whileWaiting, beforeCopy)
    {
      PaddingIsExact(offsetBytes, size);
      r := Read(data, ChunksAround(offsetBytes, size), whileWaiting, beforeCopy);
    }

    /** `readRandomAccess` while no other thread interferes: the bytes asked for, when they are all
        in the ring and before the end of the stream. A read that is refused, or that waits in vain,
        returns 0 and writes nothing; none moves more than the last read location (and the abort
        flag, which a waiting read takes down). */
    method ReadUndisturbed(data: array<Byte>, size: nat, offsetBytes: nat) returns (r: ReadResult)
      requires Valid() && data !in Repr && size <= data.Length
      modifies Repr, data
      ensures Resident(old(Abstract()), offsetBytes, size) && BeforeEnd(old(Abstract()), offsetBytes, size) ==>
                && r == Returned(size) && aborting == old(aborting)
                && data[..] == Overlaid(old(data[..]), 0, Slice(old(stream), offsetBytes, size))
      ensures !Awaited(old(Abstract()), ChunksAround(offsetBytes, size), []).0 ==>
                r == Returned(0) && data[..] == old(data[..])
      ensures r.Returned? ==>
                Valid() && Abstract() == old(Abstract()).(lastRead := lastReadLocation, aborting := aborting)
    {
      r := ReadRandomAccess(data, size, offsetBytes, [], []);
      UndisturbedAnswer(old(Abstract()), offsetBytes, size, r, old(data[..]), data[..]);
    }
  }
}
