/** The buffer pool as a value: a window over an unbounded stream of chunks. */
module PoolWindow {
  import opened Chunks
  import opened Integers

  /** stream holds every chunk since the last clear, so |stream| is mTotalBufCount; the chunks
      from base on are the ones still in the ring. */
  datatype Pool = Pool(
    capacity: nat,
    stream: seq<Chunk>,
    base: nat,
    gotLast: bool,       // mGotLastBuffer
    lastSize: nat,       // mLastBufferSize
    lastRead: nat,       // mLastReadLocation, a position in the ring
    aborting: bool)      // mAborting

  predicate Valid(p: Pool) {
    0 < p.capacity && p.base <= |p.stream| && Size(p) <= p.capacity
  }

  function Size(p: Pool): int {
    |p.stream| - p.base
  }

  predicate Full(p: Pool) {
    Size(p) == p.capacity
  }

  function Initial(capacity: nat): Pool {
    Pool(capacity, [], 0, false, 0, 0, false)
  }

  function Pushed(p: Pool, chunk: Chunk, last: bool, lastSize: nat): (q: Pool)
    requires Valid(p)
    ensures Valid(q) && q.capacity == p.capacity
  {
    p.(stream := p.stream + [chunk],
       base := if Full(p) then p.base + 1 else p.base,
       gotLast := last || p.gotLast,
       lastSize := if last then lastSize else p.lastSize)
  }

  // `clear` leaves the last read location alone.
  function Cleared(p: Pool): Pool {
    p.(stream := [], base := 0, gotLast := false, lastSize := 0)
  }

  // `clearToLastRead` on an empty ring returns before it resets the abort flag.
  function Truncated(p: Pool): (q: Pool)
    requires Valid(p)
    ensures Valid(q) && q.capacity == p.capacity
  {
    if Size(p) == 0 then p
    else if p.lastRead < Size(p) then p.(stream := p.stream[..p.base + p.lastRead + 1], aborting := false)
    else p.(aborting := false)
  }

  // What other threads do to the pool.
  datatype Arrival = PushedChunk(chunk: Chunk, last: bool, lastSize: nat) | Abort

  function Arrived(p: Pool, a: Arrival): (q: Pool)
    requires Valid(p)
    ensures Valid(q) && q.capacity == p.capacity
  {
    match a
    case PushedChunk(chunk, last, lastSize) => Pushed(p, chunk, last, lastSize)
    case Abort => p.(aborting := true)
  }

  function AllArrived(p: Pool, arrivals: seq<Arrival>): (q: Pool)
    requires Valid(p)
    ensures Valid(q) && q.capacity == p.capacity
    decreases |arrivals|
  {
    if arrivals == [] then p else AllArrived(Arrived(p, arrivals[0]), arrivals[1..])
  }

  lemma {:induction false} ArrivedMore(p: Pool, arrivals: seq<Arrival>, a: Arrival)
    requires Valid(p)
    ensures AllArrived(p, arrivals + [a]) == Arrived(AllArrived(p, arrivals), a)
    decreases |arrivals|
  {
    if arrivals == [] {
      assert [a][1..] == [];
      assert arrivals + [a] == [a];
    } else {
      assert (arrivals + [a])[1..] == arrivals[1..] + [a];
      ArrivedMore(Arrived(p, arrivals[0]), arrivals[1..], a);
    }
  }

  /* ---- read ---- */

  // The arguments of `read`: length chunks from chunk offset on, without left and right bytes.
  datatype Request = Request(length: nat, offset: nat, left: nat, right: nat)

  predicate Padded(q: Request) {
    q.left < BUFFER_CHUNK_SIZE && q.right < BUFFER_CHUNK_SIZE
  }

  datatype Admission = Refused | MustWait | Ready

  // The position guard of `read`.
  predicate GuardAdmits(p: Pool, offset: nat) {
    offset <= |p.stream| && |p.stream| - offset <= p.capacity
  }

  // The checks of `read` up to its wait. Its test of a negative length never fires: it is unsigned.
  function Admit(p: Pool, q: Request): (a: Admission)
    ensures !a.Refused? ==> Padded(q)
  {
    if p.gotLast && |p.stream| <= q.offset then Refused
    else if !Padded(q) then Refused
    else if !GuardAdmits(p, q.offset) || p.capacity < q.length then Refused
    else if |p.stream| < q.offset + q.length && !p.gotLast then MustWait
    else Ready
  }

  // The predicate of the wait.
  predicate MayResume(p: Pool, q: Request) {
    q.offset + q.length <= |p.stream| || p.gotLast || p.aborting
  }

  function LeftSkip(q: Request, i: nat): nat {
    if i == 0 then q.left else 0
  }

  function RightSkip(q: Request, i: nat): nat {
    if i + 1 == q.length then q.right else 0
  }

  // BUFFER_CHUNK_SIZE - leftSkip - rightSkip, which is unsigned.
  function Unpadded(leftSkip: nat, rightSkip: nat): nat
    requires leftSkip < BUFFER_CHUNK_SIZE && rightSkip < BUFFER_CHUNK_SIZE
  {
    var size := BUFFER_CHUNK_SIZE - leftSkip - rightSkip;
    if size < 0 then size + UINT64_COUNT else size
  }

  function Min(a: nat, b: nat): nat {
    if a < b then a else b
  }

  // The number of bytes copied out of the i-th chunk of a read.
  function ItemSize(p: Pool, q: Request, i: nat): nat
    requires Padded(q)
  {
    var size := Unpadded(LeftSkip(q, i), RightSkip(q, i));
    if p.gotLast && i + 1 == |p.stream| then Min(p.lastSize, size) else size
  }

  // The bytes copied before the i-th chunk, when the last buffer is not among them.
  function CopiedBefore(q: Request, i: nat): nat
    requires Padded(q)
  {
    if i == 0 then 0 else Bytes(i) - q.left
  }

  function Copied(p: Pool, q: Request): nat
    requires Padded(q)
  {
    if q.length == 0 then 0 else CopiedBefore(q, q.length - 1) + ItemSize(p, q, q.length - 1)
  }

  /** The chunks of the read are all in the ring, and the copy out of a single one stays inside
      it. Outside of this the source has no defined behaviour. */
  predicate InWindow(p: Pool, q: Request)
    requires Padded(q)
  {
    q.length == 0 ||
    (&& p.base <= q.offset && q.offset + q.length <= |p.stream|
     && (q.length == 1 ==> q.left + ItemSize(p, q, 0) <= BUFFER_CHUNK_SIZE))
  }

  // Chunk i of the read is in the ring, and the copy out of it stays inside it.
  predicate ItemDefined(p: Pool, q: Request, i: nat)
    requires Padded(q)
  {
    p.base <= q.offset + i < |p.stream| && LeftSkip(q, i) + ItemSize(p, q, i) <= BUFFER_CHUNK_SIZE
  }

  predicate ItemsDefined(p: Pool, q: Request, n: nat)
    requires Padded(q)
  {
    forall i: nat | i < n :: ItemDefined(p, q, i)
  }

  function Item(p: Pool, q: Request, i: nat): seq<Byte>
    requires Padded(q) && ItemDefined(p, q, i)
  {
    p.stream[q.offset + i][LeftSkip(q, i)..LeftSkip(q, i) + ItemSize(p, q, i)]
  }

  // What the copy loop has written after n chunks.
  function Items(p: Pool, q: Request, n: nat): seq<Byte>
    requires Padded(q) && ItemsDefined(p, q, n)
  {
    if n == 0 then [] else Items(p, q, n - 1) + Item(p, q, n - 1)
  }

  lemma DefinedMeansInWindow(p: Pool, q: Request)
    requires Padded(q)
    ensures ItemsDefined(p, q, q.length) <==> InWindow(p, q)
  {
    if 0 < q.length && ItemsDefined(p, q, q.length) {
      assert ItemDefined(p, q, 0);
      assert ItemDefined(p, q, q.length - 1);
    }
  }

  /** The item copied out of chunk i starts in the stream where the one before it ended. */
  lemma ItemContinues(p: Pool, q: Request, i: nat)
    requires Padded(q) && i < q.length
    ensures Bytes(q.offset) + q.left + CopiedBefore(q, i) == Bytes(q.offset + i) + LeftSkip(q, i)
    ensures i + 1 < q.length && q.offset + i + 1 < |p.stream| ==>
              CopiedBefore(q, i) + ItemSize(p, q, i) == CopiedBefore(q, i + 1)
    ensures i + 1 < q.length ==>
              CopiedBefore(q, i) + ItemSize(p, q, i) <= CopiedBefore(q, i + 1)
  {
  }

  lemma {:induction false} ItemsFitBuffer(p: Pool, q: Request, n: nat)
    requires Padded(q) && n < q.length && ItemsDefined(p, q, n)
    ensures |Items(p, q, n)| <= CopiedBefore(q, n)
    ensures |Items(p, q, n)| + ItemSize(p, q, n) <= Copied(p, q)
  {
    if 0 < n {
      ItemsFitBuffer(p, q, n - 1);
      ItemContinues(p, q, n - 1);
      assert ItemDefined(p, q, n - 1);
      assert |Item(p, q, n - 1)| == ItemSize(p, q, n - 1);
    }
  }

  // Whatever part of the request is copied, it fits.
  ghost predicate HasRoom(p: Pool, q: Request, room: nat)
    requires Padded(q)
  {
    forall n: nat | n <= q.length && ItemsDefined(p, q, n) :: |Items(p, q, n)| <= room
  }

  // n chunks are copied: off bytes over the front of the destination, and lastRead is the
  // position of the chunk copied last.
  ghost predicate Progress(p: Pool, q: Request, n: nat, off: nat, lastRead: nat, before: seq<Byte>, now: seq<Byte>)
    requires Padded(q)
  {
    && ItemsDefined(p, q, n)
    && lastRead == (if n == 0 then p.lastRead else q.offset + n - 1 - p.base)
    && off == |Items(p, q, n)| <= |before|
    && now == Overlaid(before, 0, Items(p, q, n))
  }

  /** One turn of the copy loop appends one item. */
  lemma ProgressGrows(p: Pool, q: Request, n: nat, off: nat, lastRead: nat, before: seq<Byte>, now: seq<Byte>)
    requires Padded(q) && n < q.length && HasRoom(p, q, |before|) && ItemDefined(p, q, n)
    requires Progress(p, q, n, off, lastRead, before, now)
    ensures var item := Item(p, q, n);
            && off + |item| <= |now|
            && Progress(p, q, n + 1, off + |item|, q.offset + n - p.base, before, Overlaid(now, off, item))
  {
    var item := Item(p, q, n);
    assert ItemsDefined(p, q, n + 1);
    assert Items(p, q, n + 1) == Items(p, q, n) + item;
    assert |Items(p, q, n + 1)| <= |before|;
    OverlaysJoin(before, Items(p, q, n), item);
  }

  lemma {:induction false} ItemsBeforeLast(p: Pool, q: Request, n: nat)
    requires Padded(q) && n < q.length && q.offset + n < |p.stream| && ItemsDefined(p, q, n)
    ensures Bytes(q.offset) + q.left + CopiedBefore(q, n) <= Bytes(|p.stream|)
    ensures Items(p, q, n) == Slice(p.stream, Bytes(q.offset) + q.left, CopiedBefore(q, n))
  {
    ItemContinues(p, q, n);
    if 0 < n {
      ItemsBeforeLast(p, q, n - 1);
      ItemContinues(p, q, n - 1);
      SliceTakesFromChunk(p.stream, Bytes(q.offset) + q.left, CopiedBefore(q, n - 1), q.offset + n - 1,
                          LeftSkip(q, n - 1), ItemSize(p, q, n - 1));
    }
  }

  /** The copy loop puts out the bytes of the stream from the requested position on. */
  lemma ItemsAreSlice(p: Pool, q: Request)
    requires Padded(q) && 0 < q.length && ItemsDefined(p, q, q.length)
    ensures Bytes(q.offset) + q.left + Copied(p, q) <= Bytes(|p.stream|)
    ensures Items(p, q, q.length) == Slice(p.stream, Bytes(q.offset) + q.left, Copied(p, q))
  {
    var last := q.length - 1;
    assert ItemDefined(p, q, last);
    ItemsBeforeLast(p, q, last);
    ItemContinues(p, q, last);
    SliceTakesFromChunk(p.stream, Bytes(q.offset) + q.left, CopiedBefore(q, last), q.offset + last,
                        LeftSkip(q, last), ItemSize(p, q, last));
  }

  // What a read that was served has put out.
  function Output(p: Pool, q: Request): seq<Byte>
    requires Padded(q) && InWindow(p, q)
  {
    if q.length == 0 then []
    else OutputFits(p, q); Slice(p.stream, Bytes(q.offset) + q.left, Copied(p, q))
  }

  lemma OutputFits(p: Pool, q: Request)
    requires Padded(q) && 0 < q.length && InWindow(p, q)
    ensures Bytes(q.offset) + q.left + Copied(p, q) <= Bytes(|p.stream|)
  {
    DefinedMeansInWindow(p, q);
    ItemsAreSlice(p, q);
  }

  lemma ItemsAreOutput(p: Pool, q: Request)
    requires Padded(q) && InWindow(p, q)
    ensures ItemsDefined(p, q, q.length) && Items(p, q, q.length) == Output(p, q) && |Output(p, q)| == Copied(p, q)
  {
    DefinedMeansInWindow(p, q);
    if 0 < q.length {
      ItemsAreSlice(p, q);
    }
  }

  // The pool after a read that was served.
  function AfterRead(p: Pool, q: Request): Pool
    requires Padded(q) && InWindow(p, q)
  {
    if q.length == 0 then p else p.(lastRead := q.offset + q.length - 1 - p.base)
  }

  // The end of the wait: whether the read goes on, and the pool. When the predicate of the wait is
  // still false, it has timed out.
  function Resumed(p: Pool, q: Request): (r: (bool, Pool))
    requires Valid(p)
    ensures Valid(r.1) && r.1.capacity == p.capacity
  {
    if !MayResume(p, q) then (false, p)
    else if p.aborting then (false, p.(aborting := false))
    else (true, p)
  }

  // The pool when the checks and the wait are over, and whether the read goes on from there.
  function Awaited(p: Pool, q: Request, whileWaiting: seq<Arrival>): (r: (bool, Pool))
    requires Valid(p)
    ensures Valid(r.1) && r.1.capacity == p.capacity
    ensures r.0 ==> Padded(q)
  {
    match Admit(p, q)
    case Refused => (false, p)
    case Ready => (true, p)
    case MustWait => Resumed(AllArrived(p, whileWaiting), q)
  }

  // The pool as the copy finds it.
  function AtCopy(p: Pool, q: Request, whileWaiting: seq<Arrival>, beforeCopy: seq<Arrival>): (r: Pool)
    requires Valid(p)
    ensures Valid(r) && r.capacity == p.capacity
  {
    AllArrived(Awaited(p, q, whileWaiting).1, beforeCopy)
  }

  datatype ReadResult = Returned(count: nat) | Undefined

  /** What a read does that copies out of p: nothing on an empty ring, its output when its chunks
      are in the window, and otherwise it has no defined behaviour. */
  predicate Served(p: Pool, q: Request, r: ReadResult, before: seq<Byte>, after: seq<Byte>)
    requires Valid(p) && Padded(q)
  {
    if Size(p) == 0 then r == Returned(0) && after == before
    else if !InWindow(p, q) then r == Undefined
    else
      && |Output(p, q)| <= |before|
      && r == Returned(|Output(p, q)|)
      && after == Overlaid(before, 0, Output(p, q))
  }

  function AfterServed(p: Pool, q: Request): Pool
    requires Padded(q)
  {
    if Size(p) == 0 || !InWindow(p, q) then p else AfterRead(p, q)
  }

  /** The answer of a whole read, together with what arrives while it waits and between its checks
      or its wait and the copy. A read that is refused, times out or is aborted writes nothing. */
  predicate Answered(p: Pool, q: Request, whileWaiting: seq<Arrival>, beforeCopy: seq<Arrival>,
                     r: ReadResult, before: seq<Byte>, after: seq<Byte>)
    requires Valid(p)
  {
    if Awaited(p, q, whileWaiting).0 then Served(AtCopy(p, q, whileWaiting, beforeCopy), q, r, before, after)
    else r == Returned(0) && after == before
  }

  // The pool that a read leaves.
  function Left(p: Pool, q: Request, whileWaiting: seq<Arrival>, beforeCopy: seq<Arrival>): Pool
    requires Valid(p)
  {
    if Awaited(p, q, whileWaiting).0 then AfterServed(AtCopy(p, q, whileWaiting, beforeCopy), q)
    else Awaited(p, q, whileWaiting).1
  }

  /** A read that copies leaves the place of its last chunk as the last read location, and every other
      read leaves that alone; none moves the stream or the window. */
  lemma ReadKeepsItsPlace(p: Pool, q: Request, whileWaiting: seq<Arrival>, beforeCopy: seq<Arrival>)
    requires Valid(p) && Awaited(p, q, whileWaiting).0
    ensures var late, left := AtCopy(p, q, whileWaiting, beforeCopy), Left(p, q, whileWaiting, beforeCopy);
            && left == late.(lastRead := left.lastRead)
            && (0 < q.length && InWindow(late, q) ==> late.base + left.lastRead + 1 == q.offset + q.length)
            && (q.length == 0 || !InWindow(late, q) ==> left.lastRead == late.lastRead)
  {
  }

  /** A destination for the whole request is large enough for every part of it that is copied. */
  lemma DestinationSuffices(p: Pool, q: Request, room: nat)
    requires Padded(q) && Bytes(q.length) <= room + q.left + q.right
    requires q.length == 1 && BUFFER_CHUNK_SIZE < q.left + q.right ==> BUFFER_CHUNK_SIZE <= room
    ensures HasRoom(p, q, room)
  {
    forall n: nat | n <= q.length && ItemsDefined(p, q, n) ensures |Items(p, q, n)| <= room {
      if 0 < n {
        ItemsFitBuffer(p, q, n - 1);
        assert ItemDefined(p, q, n - 1);
        assert Items(p, q, n) == Items(p, q, n - 1) + Item(p, q, n - 1);
      }
    }
  }

  /* ---- readRandomAccess ---- */

  // The chunks that hold size bytes from byte off on.
  function ChunksAround(off: nat, size: nat): (q: Request)
    ensures Padded(q)
  {
    var left := Within(off);
    var right := Within(BUFFER_CHUNK_SIZE - Within(left + size));
    Request(ChunkOf(left + right + size), ChunkOf(off), left, right)
  }

  /** The padding arithmetic cuts the byte range exactly out of whole chunks. */
  lemma PaddingIsExact(off: nat, size: nat)
    ensures var q := ChunksAround(off, size);
            && q.left + size + q.right == Bytes(q.length)
            && Bytes(q.offset) + q.left == off
  {
  }

  // The first chunk of a range, and the first chunk behind it.
  function FirstChunk(off: nat): nat {
    off / 9024
  }

  function EndChunk(off: nat, size: nat): nat {
    (off + size + 9023) / 9024
  }

  lemma ChunksAreAround(off: nat, size: nat)
    ensures var q := ChunksAround(off, size);
            q.offset == FirstChunk(off) && q.offset + q.length == EndChunk(off, size)
  {
    PaddingIsExact(off, size);
  }

  // The range starts behind the end of the stream, or at it when there will be no more; or its first
  // chunk is further back than the ring reaches; or it is longer than the ring.
  predicate IsOutOfReach(p: Pool, off: nat, size: nat) {
    var first, end := FirstChunk(off), EndChunk(off, size);
    || |p.stream| < first || (p.gotLast && |p.stream| == first)
    || first + p.capacity < |p.stream|
    || first + p.capacity < end
  }

  /** `readRandomAccess` is refused if and only if its range is out of reach; else it waits if and
      only if chunks of it have yet to come. */
  lemma ReadEntersExactly(p: Pool, off: nat, size: nat)
    requires Valid(p)
    ensures var a := Admit(p, ChunksAround(off, size));
            if IsOutOfReach(p, off, size) then a == Refused
            else if |p.stream| < EndChunk(off, size) && !p.gotLast then a == MustWait
            else a == Ready
  {
    ChunksAreAround(off, size);
  }

  /** And then it returns 0 and changes nothing, whatever arrives. In particular at the end of a
      stream that is complete. */
  lemma OutOfReachReadsNothing(p: Pool, off: nat, size: nat, whileWaiting: seq<Arrival>, beforeCopy: seq<Arrival>,
                               r: ReadResult, before: seq<Byte>, after: seq<Byte>)
    requires Valid(p) && (IsOutOfReach(p, off, size) || (p.gotLast && Bytes(|p.stream|) <= off))
    requires Answered(p, ChunksAround(off, size), whileWaiting, beforeCopy, r, before, after)
    ensures r == Returned(0) && after == before
    ensures Left(p, ChunksAround(off, size), whileWaiting, beforeCopy) == p
  {
    ReadEntersExactly(p, off, size);
  }

  /** A copy that finds the ring empty puts out nothing either. */
  lemma EmptyRingReadsNothing(p: Pool, q: Request, r: ReadResult, before: seq<Byte>, after: seq<Byte>)
    requires Valid(p) && Padded(q) && p.base == |p.stream| && Served(p, q, r, before, after)
    ensures r == Returned(0) && after == before
  {
  }

  /** A read of one chunk whose paddings cross is defined only where the clip at the last buffer
      takes over; the size is unsigned. */
  lemma CrossedPaddingsExactly(p: Pool, q: Request)
    requires Padded(q) && q.length == 1 && BUFFER_CHUNK_SIZE < q.left + q.right
    requires p.lastSize < UINT64_COUNT - BUFFER_CHUNK_SIZE
    ensures InWindow(p, q)
      <==> p.base <= q.offset < |p.stream| && p.gotLast && |p.stream| == 1 && q.left + p.lastSize <= BUFFER_CHUNK_SIZE
  {
  }

  // All the bytes of the range are in the ring.
  predicate Resident(p: Pool, off: nat, size: nat) {
    Bytes(p.base) <= off && off + size <= Bytes(|p.stream|)
  }

  /** A non-empty read is served, and not refused, if and only if its bytes are in the ring. */
  lemma ResidentMeansInWindow(p: Pool, off: nat, size: nat)
    requires Valid(p) && 0 < ChunksAround(off, size).length
    ensures Resident(p, off, size) <==> InWindow(p, ChunksAround(off, size))
    ensures Resident(p, off, size) ==> Admit(p, ChunksAround(off, size)).Ready?
  {
    PaddingIsExact(off, size);
  }

  // No byte of the range is beyond the end that a last buffer has marked.
  predicate BeforeEnd(p: Pool, off: nat, size: nat) {
    p.gotLast ==> p.stream != [] && off + size <= Bytes(|p.stream| - 1) + p.lastSize && off < Bytes(|p.stream|)
  }

  /** Every byte of such a range is copied. */
  lemma WholeRangeIsCopied(p: Pool, off: nat, size: nat)
    requires Valid(p) && Resident(p, off, size) && BeforeEnd(p, off, size)
    ensures Copied(p, ChunksAround(off, size)) == size
  {
    PaddingIsExact(off, size);
  }

  /** A range that is resident when the read is called is copied out at once and whole. */
  lemma ResidentIsRead(p: Pool, off: nat, size: nat, whileWaiting: seq<Arrival>)
    requires Valid(p) && Resident(p, off, size) && BeforeEnd(p, off, size)
    ensures var q := ChunksAround(off, size);
            && Awaited(p, q, whileWaiting) == (true, p)
            && InWindow(p, q) && (Size(p) == 0 ==> size == 0)
            && Output(p, q) == Slice(p.stream, off, size)
  {
    PaddingIsExact(off, size);
    if 0 < ChunksAround(off, size).length {
      ResidentMeansInWindow(p, off, size);
      WholeRangeIsCopied(p, off, size);
    }
  }

  /** So with nothing arriving meanwhile it comes back whole, and no read moves more than the last
      read location, and the abort flag, which a waiting read takes down. */
  lemma UndisturbedAnswer(p: Pool, off: nat, size: nat, r: ReadResult, before: seq<Byte>, after: seq<Byte>)
    requires Valid(p) && Answered(p, ChunksAround(off, size), [], [], r, before, after)
    ensures Resident(p, off, size) && BeforeEnd(p, off, size) ==>
              && r == Returned(size) && size <= |before|
              && after == Overlaid(before, 0, Slice(p.stream, off, size))
              && Left(p, ChunksAround(off, size), [], []).aborting == p.aborting
    ensures var left := Left(p, ChunksAround(off, size), [], []);
            left == p.(lastRead := left.lastRead, aborting := left.aborting)
  {
    if Resident(p, off, size) && BeforeEnd(p, off, size) {
      ResidentIsRead(p, off, size, []);
    }
  }

  /** Nor does it matter to the copy how its chunks came to be there. */
  lemma ArrivedIsRead(p: Pool, off: nat, size: nat, r: ReadResult, before: seq<Byte>, after: seq<Byte>)
    requires Valid(p) && GuardExact(p) && !p.gotLast && Served(p, ChunksAround(off, size), r, before, after)
    requires var q := ChunksAround(off, size);
             q.offset + q.length <= |p.stream| && |p.stream| - q.offset <= p.capacity
    ensures r == Returned(size) && off + size <= Bytes(|p.stream|) && size <= |before|
    ensures after == Overlaid(before, 0, Slice(p.stream, off, size))
  {
    PaddingIsExact(off, size);
    ResidentIsRead(p, off, size, []);
  }

  // How many bytes of a range lie before the end of the stream, which the last buffer marks.
  function ClippedSize(p: Pool, off: nat, size: nat): nat
    requires p.stream != []
  {
    var end := Bytes(|p.stream| - 1) + p.lastSize;
    if off + size <= end then size else if off <= end then end - off else 0
  }

  /** The clip at the last buffer compares the index within the read, not the chunk, so it is
      right only for some reads, and exactly these: empty ones, those that end before the end of
      the stream, and those from chunk 0 that cover two chunks or more or start at byte 0 (or
      whose last buffer is empty). */
  lemma ClippedExactly(p: Pool, off: nat, size: nat)
    requires Valid(p) && p.gotLast && p.lastSize <= BUFFER_CHUNK_SIZE && 0 < ChunksAround(off, size).length
    requires Resident(p, off, size)
    ensures p.stream != []
    ensures Copied(p, ChunksAround(off, size)) == ClippedSize(p, off, size)
      <==> || size == 0
           || off + size <= Bytes(|p.stream| - 1) + p.lastSize
           || (off < BUFFER_CHUNK_SIZE && (2 <= |p.stream| || off == 0 || p.lastSize == 0))
  {
    PaddingIsExact(off, size);
    ResidentMeansInWindow(p, off, size);
  }

  /** Such a read returns the bytes of its range that lie before the end of the stream. */
  lemma ClippedRead(p: Pool, off: nat, size: nat, whileWaiting: seq<Arrival>)
    requires Valid(p) && p.gotLast && p.lastSize <= BUFFER_CHUNK_SIZE && 0 < ChunksAround(off, size).length
    requires Resident(p, off, size) && p.stream != []
    requires off < BUFFER_CHUNK_SIZE && (2 <= |p.stream| || off == 0)
    ensures var q := ChunksAround(off, size);
            && Awaited(p, q, whileWaiting) == (true, p) && InWindow(p, q)
            && Output(p, q) == Slice(p.stream, off, ClippedSize(p, off, size))
  {
    ClippedExactly(p, off, size);
    ResidentMeansInWindow(p, off, size);
    PaddingIsExact(off, size);
  }

  // A read whose last chunk is the last buffer, beyond whose end it reads.
  function PastLastBuffer(chunk: Chunk): (p: Pool)
    ensures Valid(p)
  {
    Pushed(Pushed(Initial(4), chunk, false, 0), chunk, true, 20)
  }

  /** For instance a read of chunk 1 alone returns all its bytes although the last buffer has 20. */
  lemma UnclippedRead(chunk: Chunk)
    ensures var p, off, size := PastLastBuffer(chunk), BUFFER_CHUNK_SIZE, BUFFER_CHUNK_SIZE;
            && Resident(p, off, size)
            && Copied(p, ChunksAround(off, size)) == BUFFER_CHUNK_SIZE
            && ClippedSize(p, off, size) == 20
  {
  }

  /* ---- the guard ---- */

  /** The guard lets exactly the resident positions (and the end) through if and only if the
      window starts at the stream's start or fills the ring. */
  lemma GuardIsExact(p: Pool)
    requires Valid(p)
    ensures (forall offset: nat :: GuardAdmits(p, offset) <==> p.base <= offset <= |p.stream|) <==> GuardExact(p)
  {
    if !GuardExact(p) {
      assert GuardAdmits(p, p.base - 1);
    }
  }

  predicate GuardExact(p: Pool) {
    p.base == 0 || Full(p)
  }

  function ChunksIn(arrivals: seq<Arrival>): nat {
    if arrivals == [] then 0 else (if arrivals[0].PushedChunk? then 1 else 0) + ChunksIn(arrivals[1..])
  }

  /** Arrivals lengthen the stream by their chunks, leave what was there, and move the window no
      further than the ring forces it; a last buffer stays marked. */
  lemma {:induction false} ArrivalsExtend(p: Pool, arrivals: seq<Arrival>)
    requires Valid(p)
    ensures var q := AllArrived(p, arrivals);
            && |q.stream| == |p.stream| + ChunksIn(arrivals)
            && p.stream <= q.stream
            && q.base == (if Size(p) + ChunksIn(arrivals) <= p.capacity then p.base else |q.stream| - p.capacity)
            && q.lastRead == p.lastRead
            && (p.gotLast ==> q.gotLast)
    decreases |arrivals|
  {
    if arrivals != [] {
      ArrivalsExtend(Arrived(p, arrivals[0]), arrivals[1..]);
    }
  }

  predicate HasLast(arrivals: seq<Arrival>) {
    exists a | a in arrivals :: a.PushedChunk? && a.last
  }

  predicate HasAbort(arrivals: seq<Arrival>) {
    Abort in arrivals
  }

  lemma {:induction false} ArrivalsMark(p: Pool, arrivals: seq<Arrival>)
    requires Valid(p)
    ensures AllArrived(p, arrivals).gotLast <==> p.gotLast || HasLast(arrivals)
    ensures AllArrived(p, arrivals).aborting <==> p.aborting || HasAbort(arrivals)
    decreases |arrivals|
  {
    if arrivals != [] {
      ArrivalsMark(Arrived(p, arrivals[0]), arrivals[1..]);
      assert arrivals == [arrivals[0]] + arrivals[1..];
    }
  }

  /** A read that waits goes on if and only if its chunks arrive, or the last buffer does, and nobody
      aborts; and it leaves the abort flag down. */
  lemma WaitEndsExactly(p: Pool, q: Request, whileWaiting: seq<Arrival>)
    requires Valid(p) && Admit(p, q).MustWait?
    ensures Awaited(p, q, whileWaiting).0
      <==> && !p.aborting && !HasAbort(whileWaiting)
           && (q.offset + q.length <= |p.stream| + ChunksIn(whileWaiting) || HasLast(whileWaiting))
    ensures !Awaited(p, q, whileWaiting).1.aborting
    ensures Awaited(p, q, whileWaiting).1.stream == AllArrived(p, whileWaiting).stream
  {
    ArrivalsExtend(p, whileWaiting);
    ArrivalsMark(p, whileWaiting);
  }

  /** So one waiting read answers an abort, with 0 and nothing written, and the next that waits gets
      the chunks that arrive for it. */
  lemma AbortEndsOneRead(p: Pool, q: Request, whileWaiting: seq<Arrival>, beforeCopy: seq<Arrival>,
                         r: ReadResult, before: seq<Byte>, after: seq<Byte>, next: Request, arrivals: seq<Arrival>)
    requires Valid(p) && Admit(p, q).MustWait? && (p.aborting || HasAbort(whileWaiting))
    requires Answered(p, q, whileWaiting, beforeCopy, r, before, after)
    ensures r == Returned(0) && after == before
    ensures var left := Left(p, q, whileWaiting, beforeCopy);
            && Valid(left) && left.stream == AllArrived(p, whileWaiting).stream
            && (Admit(left, next).MustWait? && !HasAbort(arrivals)
                && next.offset + next.length <= |left.stream| + ChunksIn(arrivals)
                ==> Awaited(left, next, arrivals).0)
  {
    WaitEndsExactly(p, q, whileWaiting);
    var left := Left(p, q, whileWaiting, beforeCopy);
    if Admit(left, next).MustWait? {
      WaitEndsExactly(left, next, arrivals);
    }
  }

  /** So does a truncation, unless the ring is empty. */
  lemma TruncationEndsAbort(p: Pool)
    requires Valid(p)
    ensures Truncated(p).aborting <==> p.aborting && Size(p) == 0
  {
  }

  lemma {:induction false} ArrivalsIgnoreLastRead(p: Pool, lastRead: nat, arrivals: seq<Arrival>)
    requires Valid(p)
    ensures AllArrived(p.(lastRead := lastRead), arrivals) == AllArrived(p, arrivals).(lastRead := lastRead)
    decreases |arrivals|
  {
    if arrivals != [] {
      ArrivalsIgnoreLastRead(Arrived(p, arrivals[0]), lastRead, arrivals[1..]);
    }
  }

  lemma AwaitedIgnoresLastRead(p: Pool, lastRead: nat, q: Request, whileWaiting: seq<Arrival>)
    requires Valid(p)
    ensures var r := Awaited(p, q, whileWaiting);
            Awaited(p.(lastRead := lastRead), q, whileWaiting) == (r.0, r.1.(lastRead := lastRead))
  {
    ArrivalsIgnoreLastRead(p, lastRead, whileWaiting);
  }

  lemma ServedIgnoresLastRead(p: Pool, lastRead: nat, q: Request, r: ReadResult, before: seq<Byte>, after: seq<Byte>)
    requires Valid(p) && Padded(q)
    ensures Served(p.(lastRead := lastRead), q, r, before, after) <==> Served(p, q, r, before, after)
  {
    var other := p.(lastRead := lastRead);
    assert InWindow(other, q) <==> InWindow(p, q);
    assert InWindow(p, q) ==> Output(other, q) == Output(p, q);
  }

  /** After a clear, even of a stream that had ended, every read is answered as by a new pool. */
  lemma ClearedReadsAsNew(p: Pool, q: Request, whileWaiting: seq<Arrival>, beforeCopy: seq<Arrival>,
                          r: ReadResult, before: seq<Byte>, after: seq<Byte>)
    requires Valid(p) && !p.aborting
    ensures Answered(Cleared(p), q, whileWaiting, beforeCopy, r, before, after)
      <==> Answered(Initial(p.capacity), q, whileWaiting, beforeCopy, r, before, after)
  {
    var unused := Initial(p.capacity);
    assert Cleared(p) == unused.(lastRead := p.lastRead);
    AwaitedIgnoresLastRead(unused, p.lastRead, q, whileWaiting);
    if Awaited(unused, q, whileWaiting).0 {
      ArrivalsIgnoreLastRead(Awaited(unused, q, whileWaiting).1, p.lastRead, beforeCopy);
      ServedIgnoresLastRead(AtCopy(unused, q, whileWaiting, beforeCopy), p.lastRead, q, r, before, after);
    }
  }

  /** A truncation may spoil the guard; as many pushes as the ring has free places mend it. */
  lemma PushesRestoreGuard(p: Pool, arrivals: seq<Arrival>)
    requires Valid(p) && p.capacity - Size(p) <= ChunksIn(arrivals)
    ensures GuardExact(AllArrived(p, arrivals))
  {
    ArrivalsExtend(p, arrivals);
  }

  /** A read that goes on to its copy, at once or after a wait, finds its chunks in the ring if and
      only if, by the time of the copy, no chunk has been pushed that overwrites its first one (and
      all of them have arrived, which only the mark of a last buffer can prevent). Chunks may be
      pushed during the wait and between the checks and the copy, which hold different mutexes. */
  lemma CopyStaysInWindowExactly(p: Pool, q: Request, whileWaiting: seq<Arrival>, beforeCopy: seq<Arrival>)
    requires Valid(p) && GuardExact(p) && Awaited(p, q, whileWaiting).0
    requires 0 < q.length && q.left + q.right <= BUFFER_CHUNK_SIZE
    ensures var late := AtCopy(p, q, whileWaiting, beforeCopy);
            InWindow(late, q) <==> |late.stream| - q.offset <= p.capacity && q.offset + q.length <= |late.stream|
    ensures var late := AtCopy(p, q, whileWaiting, beforeCopy);
            !late.gotLast ==> q.offset + q.length <= |late.stream|
  {
    ArrivalsExtend(p, whileWaiting);
    ArrivalsExtend(Awaited(p, q, whileWaiting).1, beforeCopy);
  }

  /** So `readRandomAccess` returns the bytes of the positions it asked for, unless too many chunks
      are pushed before it copies them. */
  lemma AdmittedReadIsExact(p: Pool, off: nat, size: nat, whileWaiting: seq<Arrival>, beforeCopy: seq<Arrival>)
    requires Valid(p) && GuardExact(p) && Awaited(p, ChunksAround(off, size), whileWaiting).0
    requires var q, late := ChunksAround(off, size), AtCopy(p, ChunksAround(off, size), whileWaiting, beforeCopy);
             && |late.stream| - q.offset <= p.capacity
             && BeforeEnd(late, off, size) && (late.gotLast ==> late.lastSize <= BUFFER_CHUNK_SIZE)
    ensures var q, late := ChunksAround(off, size), AtCopy(p, ChunksAround(off, size), whileWaiting, beforeCopy);
            && InWindow(late, q) && Resident(late, off, size)
            && Output(late, q) == Slice(late.stream, off, size)
  {
    GuardStaysExact(p, ChunksAround(off, size), whileWaiting, beforeCopy);
    AdmittedIsResident(AtCopy(p, ChunksAround(off, size), whileWaiting, beforeCopy), off, size);
  }

  lemma GuardStaysExact(p: Pool, q: Request, whileWaiting: seq<Arrival>, beforeCopy: seq<Arrival>)
    requires Valid(p) && GuardExact(p) && Awaited(p, q, whileWaiting).0
    ensures var late := AtCopy(p, q, whileWaiting, beforeCopy);
            && GuardExact(late) && q.offset <= |late.stream|
            && (!late.gotLast ==> q.offset + q.length <= |late.stream|)
  {
    ArrivalsExtend(p, whileWaiting);
    ArrivalsExtend(Awaited(p, q, whileWaiting).1, beforeCopy);
  }

  lemma AdmittedIsResident(p: Pool, off: nat, size: nat)
    requires Valid(p) && GuardExact(p) && BeforeEnd(p, off, size)
    requires var q := ChunksAround(off, size);
             && q.offset <= |p.stream| && |p.stream| - q.offset <= p.capacity
             && (if p.gotLast then p.lastSize <= BUFFER_CHUNK_SIZE else q.offset + q.length <= |p.stream|)
    ensures InWindow(p, ChunksAround(off, size)) && Resident(p, off, size)
    ensures Output(p, ChunksAround(off, size)) == Slice(p.stream, off, size)
  {
    PaddingIsExact(off, size);
    ResidentIsRead(p, off, size, []);
  }

  /** With nothing pushed meanwhile, and before a last buffer is marked, no read leaves the ring if
      and only if the guard is exact. */
  lemma UndisturbedReadsAreSafeExactly(p: Pool)
    requires Valid(p) && !p.gotLast
    ensures (forall off: nat, size: nat | Awaited(p, ChunksAround(off, size), []).0 ::
               InWindow(AtCopy(p, ChunksAround(off, size), [], []), ChunksAround(off, size)))
      <==> GuardExact(p)
  {
    if GuardExact(p) {
      forall off: nat, size: nat | Awaited(p, ChunksAround(off, size), []).0
        ensures InWindow(AtCopy(p, ChunksAround(off, size), [], []), ChunksAround(off, size))
      {
        PaddingIsExact(off, size);
      }
    } else {
      var off := Bytes(p.base - 1);
      PaddingIsExact(off, BUFFER_CHUNK_SIZE);
      ByteInChunk(p.base - 1, 0);
      assert ChunksAround(off, BUFFER_CHUNK_SIZE) == Request(1, p.base - 1, 0, 0);
      assert Awaited(p, ChunksAround(off, BUFFER_CHUNK_SIZE), []).0;
    }
  }

  /** Then a read of a range that is not all in the ring returns nothing. */
  lemma OnlyResidentIsRead(p: Pool, off: nat, size: nat)
    requires Valid(p) && GuardExact(p) && !p.gotLast
    ensures Awaited(p, ChunksAround(off, size), []).0 <==> Resident(p, off, size)
  {
    PaddingIsExact(off, size);
  }

  /** For instance a read of the only chunk of a ring of one, which is ready, is overtaken by one
      push between its checks and its copy. */
  lemma OvertakenRead(first: Chunk, second: Chunk)
    ensures var p, q := Pushed(Initial(1), first, false, 0), ChunksAround(0, BUFFER_CHUNK_SIZE);
            && GuardExact(p) && Awaited(p, q, []) == (true, p)
            && !InWindow(AtCopy(p, q, [], [PushedChunk(second, false, 0)]), q)
  {
    var p, q := Pushed(Initial(1), first, false, 0), ChunksAround(0, BUFFER_CHUNK_SIZE);
    var push := PushedChunk(second, false, 0);
    assert [push][1..] == [] && ChunksIn([push]) == 1;
    CopyStaysInWindowExactly(p, q, [], [push]);
    ArrivalsExtend(p, [push]);
  }

  /* ---- runs of every operation ---- */

  // A read that is refused, or that leaves the ring, moves nothing here.
  datatype Change = Arrive(a: Arrival) | Serve(q: Request) | Truncate | Clear

  function Changed(p: Pool, c: Change): (q: Pool)
    requires Valid(p)
    ensures Valid(q) && q.capacity == p.capacity
  {
    match c
    case Arrive(a) => Arrived(p, a)
    case Serve(q) => if Padded(q) && InWindow(p, q) then AfterRead(p, q) else p
    case Truncate => Truncated(p)
    case Clear => Cleared(p)
  }

  function AllChanged(p: Pool, cs: seq<Change>): (q: Pool)
    requires Valid(p)
    ensures Valid(q) && q.capacity == p.capacity
    decreases |cs|
  {
    if cs == [] then p else AllChanged(Changed(p, cs[0]), cs[1..])
  }

  // A truncation that cuts chunks off a ring that has rotated.
  predicate SpoilsGuard(p: Pool, c: Change) {
    c.Truncate? && 0 < p.base && p.lastRead + 1 < Size(p)
  }

  /** Whatever the pool does, an exact guard stays exact, except by such a truncation. */
  lemma ChangeKeepsGuardExactly(p: Pool, c: Change)
    requires Valid(p) && GuardExact(p)
    ensures GuardExact(Changed(p, c)) <==> !SpoilsGuard(p, c)
  {
  }

  predicate NeverSpoilsGuard(p: Pool, cs: seq<Change>)
    requires Valid(p)
    decreases |cs|
  {
    cs == [] || (!SpoilsGuard(p, cs[0]) && NeverSpoilsGuard(Changed(p, cs[0]), cs[1..]))
  }

  lemma {:induction false} RunKeepsGuardExact(p: Pool, cs: seq<Change>)
    requires Valid(p) && GuardExact(p) && NeverSpoilsGuard(p, cs)
    ensures GuardExact(AllChanged(p, cs))
    decreases |cs|
  {
    if cs != [] {
      ChangeKeepsGuardExactly(p, cs[0]);
      RunKeepsGuardExact(Changed(p, cs[0]), cs[1..]);
    }
  }

  // Three pushes into a ring of two, a read of the oldest chunk left, a truncation to it.
  function Spoiled(first: Chunk, second: Chunk, third: Chunk): (p: Pool)
    ensures Valid(p)
  {
    var pushed := Pushed(Pushed(Pushed(Initial(2), first, false, 0), second, false, 0), third, false, 0);
    Truncated(AfterRead(pushed, Request(1, 1, 0, 0)))
  }

  /** After that the guard lets a read of chunk 0 through, which was overwritten. */
  lemma OverwrittenChunkIsAdmitted(first: Chunk, second: Chunk, third: Chunk)
    ensures var p, q := Spoiled(first, second, third), ChunksAround(0, BUFFER_CHUNK_SIZE);
            && p.stream == [first, second] && p.base == 1
            && Awaited(p, q, []) == (true, p) && !InWindow(p, q)
  {
  }

  // The pushes among the changes that overwrite the oldest chunk.
  function Rotations(p: Pool, cs: seq<Change>): nat
    requires Valid(p)
    decreases |cs|
  {
    if cs == [] then 0
    else (if cs[0].Arrive? && cs[0].a.PushedChunk? && Full(p) then 1 else 0) + Rotations(Changed(p, cs[0]), cs[1..])
  }

  predicate NeverClears(cs: seq<Change>) {
    forall c | c in cs :: !c.Clear?
  }

  predicate NeverReads(cs: seq<Change>) {
    forall c | c in cs :: !c.Serve?
  }

  /** Between clears the window only moves forward, one chunk for every rotating push. */
  lemma {:induction false} WindowMovesByRotations(p: Pool, cs: seq<Change>)
    requires Valid(p) && NeverClears(cs)
    ensures AllChanged(p, cs).base == p.base + Rotations(p, cs)
    decreases |cs|
  {
    if cs != [] {
      WindowMovesByRotations(Changed(p, cs[0]), cs[1..]);
    }
  }

  /** What `clearToLastRead` cuts off is never in front of the last read location. */
  lemma {:induction false} ChunkReadStays(p: Pool, cs: seq<Change>)
    requires Valid(p) && NeverClears(cs) && NeverReads(cs) && p.lastRead < Size(p)
    ensures var q := AllChanged(p, cs);
            && q.lastRead == p.lastRead < Size(q)
            && p.stream[..p.base + p.lastRead + 1] <= q.stream
    decreases |cs|
  {
    if cs != [] {
      ChunkReadStays(Changed(p, cs[0]), cs[1..]);
    }
  }

  /** With r the last chunk read, whatever pushes and truncations follow: `clearToLastRead` keeps
      every resident chunk up to r and ends the stream at r plus the number of rotations since the
      read, so it is exact only as long as the ring has not rotated. */
  lemma TruncationKeepsTheChunkRead(p: Pool, q: Request, cs: seq<Change>)
    requires Valid(p) && Padded(q) && 0 < q.length && InWindow(p, q)
    requires NeverClears(cs) && NeverReads(cs)
    ensures var r := q.offset + q.length - 1;
            var read := AfterRead(p, q);
            var late := AllChanged(read, cs);
            var t := Truncated(late);
            && |t.stream| == r + 1 + Rotations(read, cs)
            && t.stream == late.stream[..|t.stream|] && t.base == late.base
            && p.stream[..r + 1] <= t.stream
  {
    WindowMovesByRotations(AfterRead(p, q), cs);
    ChunkReadStays(AfterRead(p, q), cs);
  }

  /** For instance, when chunk 0 is read out of a ring of two, which a third push then rotates,
      `clearToLastRead` leaves chunk 1 behind as well, which nobody has read. */
  lemma UnreadChunkIsKept(first: Chunk, second: Chunk, third: Chunk)
    ensures var read := AfterRead(Pushed(Pushed(Initial(2), first, false, 0), second, false, 0), Request(1, 0, 0, 0));
            var late := Pushed(read, third, false, 0);
            late.stream == [first, second, third] && Truncated(late).stream == [first, second]
  {
  }
}
