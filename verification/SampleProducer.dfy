/** The producer that cuts writes of any size into chunks for the pool, and what a reader of the
    plugin gets back. */
module SampleProducer {
  import opened Chunks
  import opened PoolWindow
  import Pools = BufferPool

  // Byte j of chunk i is the one that was written there, and the first filled bytes of the buffer
  // are what was written behind.
  ghost predicate Holds(stream: seq<Chunk>, buffer: Chunk, filled: nat, written: seq<Byte>) {
    && filled <= BUFFER_CHUNK_SIZE && |written| == Bytes(|stream|) + filled
    && (forall i, j | 0 <= i < |stream| && 0 <= j < BUFFER_CHUNK_SIZE :: stream[i][j] == written[Bytes(i) + j])
    && (forall j | 0 <= j < filled :: buffer[j] == written[Bytes(|stream|) + j])
  }

  lemma NothingHeld(stream: seq<Chunk>, buffer: Chunk, filled: nat, written: seq<Byte>)
    requires |stream| == filled == |written| == 0
    ensures Holds(stream, buffer, filled, written)
  {
  }

  lemma HoldsMore(stream: seq<Chunk>, buffer: Chunk, filled: nat, written: seq<Byte>, more: seq<Byte>, now: Chunk)
    requires Holds(stream, buffer, filled, written) && filled + |more| <= BUFFER_CHUNK_SIZE
    requires forall j | 0 <= j < filled :: now[j] == buffer[j]
    requires forall j | 0 <= j < |more| :: now[filled + j] == more[j]
    ensures Holds(stream, now, filled + |more|, written + more)
  {
    forall j | 0 <= j < filled + |more| ensures now[j] == (written + more)[Bytes(|stream|) + j] {
      if filled <= j {
        assert now[filled + (j - filled)] == more[j - filled];
      }
    }
  }

  /** A full buffer that is sent becomes the next chunk. */
  lemma FullBufferIsSent(stream: seq<Chunk>, buffer: Chunk, written: seq<Byte>)
    requires Holds(stream, buffer, BUFFER_CHUNK_SIZE, written)
    ensures Holds(stream + [buffer], buffer, 0, written)
  {
  }

  // The last chunk has the bytes that were left in front.
  ghost predicate Closes(stream: seq<Chunk>, lastSize: nat, written: seq<Byte>) {
    && stream != [] && lastSize < BUFFER_CHUNK_SIZE
    && Holds(stream[..|stream| - 1], stream[|stream| - 1], lastSize, written)
  }

  lemma LastBufferCloses(stream: seq<Chunk>, buffer: Chunk, filled: nat, written: seq<Byte>)
    requires Holds(stream, buffer, filled, written) && filled < BUFFER_CHUNK_SIZE
    ensures Closes(stream + [buffer], filled, written)
  {
    assert (stream + [buffer])[..|stream|] == stream;
  }

  // The chunks of a stream spell the front of the written bytes.
  ghost predicate Spells(stream: seq<Chunk>, written: seq<Byte>) {
    forall k: nat | k < Bytes(|stream|) && k < |written| :: ByteAt(stream, k) == written[k]
  }

  lemma HeldSpells(stream: seq<Chunk>, buffer: Chunk, filled: nat, written: seq<Byte>)
    requires Holds(stream, buffer, filled, written)
    ensures Spells(stream, written)
  {
    forall k: nat | k < Bytes(|stream|) && k < |written| ensures ByteAt(stream, k) == written[k] {
      ByteHasChunk(k, |stream|);
      assert stream[ChunkOf(k)][Within(k)] == written[Bytes(ChunkOf(k)) + Within(k)];
    }
  }

  lemma ClosedSpells(stream: seq<Chunk>, lastSize: nat, written: seq<Byte>)
    requires Closes(stream, lastSize, written)
    ensures Spells(stream, written) && |written| == Bytes(|stream| - 1) + lastSize
  {
    var whole, last := stream[..|stream| - 1], stream[|stream| - 1];
    forall k: nat | k < Bytes(|stream|) && k < |written| ensures ByteAt(stream, k) == written[k] {
      ByteHasChunk(k, |whole|);
      if k < Bytes(|whole|) {
        assert whole[ChunkOf(k)][Within(k)] == written[Bytes(ChunkOf(k)) + Within(k)];
      } else {
        ByteInChunk(|whole|, k - Bytes(|whole|));
        assert last[k - Bytes(|whole|)] == written[k];
      }
    }
  }

  lemma SpelledSlice(stream: seq<Chunk>, written: seq<Byte>, off: nat, size: nat)
    requires Spells(stream, written) && off + size <= |written| && off + size <= Bytes(|stream|)
    ensures Slice(stream, off, size) == written[off..off + size]
  {
    forall i: nat | i < size ensures Slice(stream, off, size)[i] == written[off..off + size][i] {
      assert ByteAt(stream, off + i) == written[off + i];
    }
  }

  // The bytes written so far are the old ones and the first at of data.
  predicate TakenUpTo(written: seq<Byte>, was: seq<Byte>, data: seq<Byte>, at: nat) {
    at <= |data| && written == was + data[..at]
  }

  lemma NothingTaken(was: seq<Byte>, data: seq<Byte>)
    ensures TakenUpTo(was, was, data, 0)
  {
  }

  lemma PieceTaken(written: seq<Byte>, was: seq<Byte>, data: seq<Byte>, at: nat, n: nat)
    requires TakenUpTo(written, was, data, at) && at + n <= |data|
    ensures TakenUpTo(written + data[at..at + n], was, data, at + n)
  {
    assert data[..at] + data[at..at + n] == data[..at + n];
  }

  class SampleProducer {
    const pool: Pools.BufferPool
    const tempBuffer: array<Byte>
    var currentOffset: nat
    ghost var written: seq<Byte>   // every byte of every write
    ghost var flushed: bool

    ghost const Repr: set<object>

    ghost predicate Framed()
      reads this, Repr
      ensures Framed() ==> pool.Valid()
    {
      && Repr == {this, pool, tempBuffer} + pool.Repr
      && this !in pool.Repr && tempBuffer !in pool.Repr
      && pool.Valid() && tempBuffer.Length == BUFFER_CHUNK_SIZE
      && GuardExact(pool.Abstract())
    }

    // The pool and the temporary buffer hold all that was written.
    ghost predicate InStep()
      requires Framed()
      reads this, Repr
    {
      Holds(pool.stream, tempBuffer[..], currentOffset, written) && !pool.gotLastBuffer
    }

    // After the final flush.
    ghost predicate Ended()
      requires Framed()
      reads this, Repr
    {
      pool.gotLastBuffer && Closes(pool.stream, pool.lastBufferSize, written)
    }

    ghost predicate Valid()
      reads this, Repr
      ensures Valid() ==> pool.Valid()
    {
      Framed() && if flushed then Ended() else InStep() && currentOffset < BUFFER_CHUNK_SIZE
    }

    constructor (bufferPoolSize: nat)
      requires 0 < bufferPoolSize
      ensures Valid() && fresh(Repr) && written == [] && !flushed
    {
      var t := new Byte[BUFFER_CHUNK_SIZE];
      var p := new Pools.BufferPool(bufferPoolSize);
      pool, tempBuffer, currentOffset := p, t, 0;
      written, flushed := [], false;
      Repr := {this, p, t} + p.Repr;
      new;
      assert Framed();
      NothingHeld(pool.stream, tempBuffer[..], currentOffset, written);
    }

    method Write(data: array<Byte>, size: nat, nmemb: nat) returns (n: nat)
      requires Valid() && !flushed && data !in Repr
      requires size * nmemb <= data.Length
      modifies Repr
      ensures Valid() && !flushed
      ensures n == size * nmemb && written == old(written) + data[..n]
    {
      n := size * nmemb;
      WriteBytes(data, n);
    }

    method WriteBytes(data: array<Byte>, totalSize: nat)
      requires Valid() && !flushed && data !in Repr
      requires totalSize <= data.Length
      modifies Repr
      ensures Valid() && !flushed && pool.aborting == old(pool.aborting)
      ensures written == old(written) + data[..totalSize]
    {
      ghost var was := written;
      var remaining := totalSize;
      NothingTaken(was, data[..]);
      while remaining > 0
        invariant Valid() && !flushed && pool.aborting == old(pool.aborting) && 0 <= remaining <= totalSize
        invariant TakenUpTo(written, was, data[..], totalSize - remaining)
      {
        var n := Take(data, totalSize - remaining, remaining, was);
        remaining := remaining - n;
      }
    }

    // One turn of the loop of `write`.
    method Take(data: array<Byte>, at: nat, remaining: nat, ghost was: seq<Byte>) returns (n: nat)
      requires Valid() && !flushed && data !in Repr
      requires 0 < remaining && at + remaining <= data.Length
      requires TakenUpTo(written, was, data[..], at)
      modifies Repr
      ensures Valid() && !flushed && pool.aborting == old(pool.aborting)
      ensures 0 < n <= remaining && TakenUpTo(written, was, data[..], at + n)
    {
      var freeBytes := BUFFER_CHUNK_SIZE - currentOffset;
      n := if freeBytes < remaining then freeBytes else remaining;
      PieceTaken(written, was, data[..], at, n);
      Fill(data, at, n);
      QueueIfFull();
    }

    // The memcpy of `write`.
    method Fill(data: array<Byte>, at: nat, n: nat)
      requires Valid() && !flushed && data !in Repr
      requires at + n <= data.Length && currentOffset + n <= BUFFER_CHUNK_SIZE
      modifies this`currentOffset, this`written, tempBuffer
      ensures Framed() && InStep() && !flushed && currentOffset == old(currentOffset) + n
      ensures written == old(written) + data[..][at..at + n]
    {
      ghost var before, piece := tempBuffer[..], data[..][at..at + n];
      forall i | 0 <= i < n {
        tempBuffer[currentOffset + i] := data[at + i];
      }
      HoldsMore(pool.stream, before, currentOffset, written, piece, tempBuffer[..]);
      currentOffset := currentOffset + n;
      written := written + piece;
    }

    // queueBuffer
    method QueueBuffer(last: bool, size: nat)
      requires Framed()
      modifies pool.Repr
      ensures Framed() && pool.stream == old(pool.stream) + [tempBuffer[..]] && pool.aborting == old(pool.aborting)
      ensures pool.gotLastBuffer == (last || old(pool.gotLastBuffer))
      ensures pool.lastBufferSize == if last then size else old(pool.lastBufferSize)
    {
      ChangeKeepsGuardExactly(pool.Abstract(), Arrive(PushedChunk(tempBuffer[..], last, size)));
      var _ := pool.PushBuffer(tempBuffer[..], last, size);
    }

    method QueueIfFull()
      requires Framed() && InStep() && !flushed
      modifies Repr
      ensures Valid() && !flushed && written == old(written) && pool.aborting == old(pool.aborting)
    {
      if currentOffset == BUFFER_CHUNK_SIZE {
        FullBufferIsSent(pool.stream, tempBuffer[..], written);
        QueueBuffer(false, BUFFER_CHUNK_SIZE);
        currentOffset := 0;
      }
    }

    // The end of `loop`: the unfinished buffer goes out as the last one.
    method Flush()
      requires Valid() && !flushed
      modifies Repr
      ensures Valid() && flushed && written == old(written)
      ensures |pool.stream| == old(|pool.stream|) + 1
    {
      LastBufferCloses(pool.stream, tempBuffer[..], currentOffset, written);
      QueueBuffer(true, currentOffset);
      flushed := true;
    }

    /** `read` of the plugin. Whatever writes have led here, with or without the final flush: a
        range of the written bytes that lies within the pushed chunks, and whose first chunk is
        still in the ring, is returned whole and as it was written. Before the flush every other
        read returns 0 and writes nothing, and after it every read behind the last chunk. */
    method Read(buf: array<Byte>, size: nat, offset: nat) returns (r: ReadResult)
      requires Valid() && buf !in Repr && size <= buf.Length
      modifies pool.Repr, buf
      ensures offset + size <= old(|written|) && Resident(old(pool.Abstract()), offset, size) ==>
                && r == Returned(size)
                && buf[..] == Overlaid(old(buf[..]), 0, written[offset..offset + size])
      ensures !flushed && !Resident(old(pool.Abstract()), offset, size) ==>
                r == Returned(0) && buf[..] == old(buf[..])
      ensures flushed && Bytes(|old(pool.stream)|) <= offset ==> r == Returned(0) && buf[..] == old(buf[..])
      ensures r.Returned? ==> Valid()
      ensures written == old(written) && flushed == old(flushed)
    {
      WrittenIsInPool(size, offset);
      r := ReadPool(buf, size, offset);
    }

    lemma WrittenIsInPool(size: nat, offset: nat)
      requires Valid()
      ensures offset + size <= |written| && Resident(pool.Abstract(), offset, size) ==>
                && BeforeEnd(pool.Abstract(), offset, size)
                && Slice(pool.stream, offset, size) == written[offset..offset + size]
    {
      if flushed {
        ClosedSpells(pool.stream, pool.lastBufferSize, written);
      } else {
        HeldSpells(pool.stream, tempBuffer[..], currentOffset, written);
      }
      if offset + size <= |written| && Resident(pool.Abstract(), offset, size) {
        SpelledSlice(pool.stream, written, offset, size);
      }
    }

    // readRandomAccess, which leaves the producer as it is.
    method ReadPool(buf: array<Byte>, size: nat, offset: nat) returns (r: ReadResult)
      requires Framed() && buf !in Repr && size <= buf.Length
      modifies pool.Repr, buf
      ensures Resident(old(pool.Abstract()), offset, size) && BeforeEnd(old(pool.Abstract()), offset, size) ==>
                && r == Returned(size)
                && buf[..] == Overlaid(old(buf[..]), 0, Slice(old(pool.stream), offset, size))
      ensures !old(pool.gotLastBuffer) && !Resident(old(pool.Abstract()), offset, size) ==>
                r == Returned(0) && buf[..] == old(buf[..])
      ensures old(pool.gotLastBuffer) && Bytes(|old(pool.stream)|) <= offset ==>
                r == Returned(0) && buf[..] == old(buf[..])
      ensures r.Returned? ==> Framed() && pool.stream == old(pool.stream)
      ensures r.Returned? ==> pool.gotLastBuffer == old(pool.gotLastBuffer)
      ensures r.Returned? ==> pool.lastBufferSize == old(pool.lastBufferSize)
    {
      ReadEntersExactly(pool.Abstract(), offset, size);
      if !pool.gotLastBuffer {
        OnlyResidentIsRead(pool.Abstract(), offset, size);
      }
      r := pool.ReadUndisturbed(buf, size, offset);
    }

    /** `read` of the plugin while another thread goes on writing: the first n bytes of during while the
        read waits, if it has to, and the first m bytes of meantime before it copies. A read that is
        admitted returns the bytes it was asked for, though they may not have been written when it
        was called, unless the writes have overwritten its first chunk; then it is undefined. */
    method ReadWhileWriting(buf: array<Byte>, size: nat, offset: nat,
                            during: array<Byte>, n: nat, meantime: array<Byte>, m: nat)
      returns (r: ReadResult, admitted: bool)
      requires Valid() && !flushed && {buf, during, meantime} !! Repr && buf != during && buf != meantime
      requires size <= buf.Length && n <= during.Length && m <= meantime.Length
      modifies Repr, buf
      ensures admitted <==> IsAdmitted(old(pool.Abstract()), ChunksAround(offset, size), old(|written|) + n)
      ensures !admitted ==> r == Returned(0) && buf[..] == old(buf[..])
      ensures admitted && |pool.stream| - ChunkOf(offset) <= pool.ring.data.Length ==>
                && r == Returned(size) && offset + size <= |written|
                && buf[..] == Overlaid(old(buf[..]), 0, written[offset..offset + size])
      ensures admitted && 0 < size && |pool.stream| - ChunkOf(offset) > pool.ring.data.Length ==> r == Undefined
      ensures old(written) <= written && !flushed && (r.Returned? ==> Valid())
    {
      admitted := Enter(ChunksAround(offset, size), during, n);
      if !admitted {
        return Returned(0), false;
      }
      WriteBytes(meantime, m);
      r := Copy(buf, size, offset);
    }

    // The checks and the wait.
    method Enter(q: Request, during: array<Byte>, n: nat) returns (admitted: bool)
      requires Valid() && !flushed && during !in Repr && n <= during.Length
      modifies Repr
      ensures Valid() && !flushed && old(written) <= written
      ensures admitted <==> IsAdmitted(old(pool.Abstract()), q, old(|written|) + n)
      ensures admitted ==> Padded(q) && Bytes(q.offset + q.length) <= |written|
    {
      var a := pool.Check(q);
      StreamFits();
      admitted := a.Ready?;
      if a.MustWait? {
        WriteBytes(during, n);
        StreamFits();
        admitted := pool.Resume(q);
      }
    }

    // The copy.
    method Copy(buf: array<Byte>, size: nat, offset: nat) returns (r: ReadResult)
      requires Valid() && !flushed && buf !in Repr && size <= buf.Length
      requires var q := ChunksAround(offset, size); Bytes(q.offset + q.length) <= |written|
      modifies pool.Repr, buf
      ensures |old(pool.stream)| - ChunkOf(offset) <= pool.ring.data.Length ==>
                && r == Returned(size) && offset + size <= |written|
                && buf[..] == Overlaid(old(buf[..]), 0, written[offset..offset + size])
      ensures 0 < size && |old(pool.stream)| - ChunkOf(offset) > pool.ring.data.Length ==> r == Undefined
      ensures pool.stream == old(pool.stream) && (r.Returned? ==> Valid())
    {
      ghost var p := pool.Abstract();
      StreamFits();
      PaddingIsExact(offset, size);
      DestinationSuffices(p, ChunksAround(offset, size), buf.Length);
      r := pool.CopyOut(buf, ChunksAround(offset, size));
      if |p.stream| - ChunkOf(offset) <= p.capacity {
        ArrivedIsRead(p, offset, size, r, old(buf[..]), buf[..]);
        WrittenIsRead(p.stream, tempBuffer[..], currentOffset, written, offset, size);
      }
    }

    lemma StreamFits()
      requires Valid() && !flushed
      ensures forall chunks: nat :: Bytes(chunks) <= |written| <==> chunks <= |pool.stream|
    {
    }
  }

  lemma WrittenIsRead(stream: seq<Chunk>, buffer: Chunk, filled: nat, written: seq<Byte>, off: nat, size: nat)
    requires Holds(stream, buffer, filled, written) && off + size <= Bytes(|stream|)
    ensures off + size <= |written| && Slice(stream, off, size) == written[off..off + size]
  {
    HeldSpells(stream, buffer, filled, written);
    SpelledSlice(stream, written, off, size);
  }

  // A read of the pool is let through at once, or after a wait at whose end so much is written.
  predicate IsAdmitted(p: Pool, q: Request, writtenLate: nat) {
    match Admit(p, q)
    case Refused => false
    case Ready => true
    case MustWait => !p.aborting && Bytes(q.offset + q.length) <= writtenLate
  }
}
