/** Bytes, the fixed-size chunks they travel in, and the byte stream that a sequence of chunks
    stands for. */
module Chunks {

  newtype Byte = x: int | 0 <= x < 256

  const BUFFER_CHUNK_SIZE: nat := 9024 // 8 * 6 packages of 188 bytes

  type Chunk = c: seq<Byte> | |c| == BUFFER_CHUNK_SIZE witness seq(BUFFER_CHUNK_SIZE, _ => 0)

  // The length in bytes of so many chunks. Products, quotients and remainders are taken by the
  // number itself, which keeps them linear for the verifier.
  function Bytes(chunks: nat): nat {
    chunks * 9024
  }

  function ChunkOf(k: nat): nat {
    k / 9024
  }

  function Within(k: nat): (r: nat)
    ensures r < BUFFER_CHUNK_SIZE
  {
    k % 9024
  }

  lemma ByteInChunk(i: nat, j: nat)
    requires j < BUFFER_CHUNK_SIZE
    ensures ChunkOf(Bytes(i) + j) == i && Within(Bytes(i) + j) == j
  {
  }

  lemma ByteHasChunk(k: nat, chunks: nat)
    ensures k == Bytes(ChunkOf(k)) + Within(k)
    ensures k < Bytes(chunks) <==> ChunkOf(k) < chunks
  {
  }

  // The k-th byte of the stream.
  function ByteAt(stream: seq<Chunk>, k: nat): Byte
    requires k < Bytes(|stream|)
  {
    ByteHasChunk(k, |stream|);
    stream[ChunkOf(k)][Within(k)]
  }

  // n bytes of the stream, from byte k on.
  function Slice(stream: seq<Chunk>, k: nat, n: nat): (bytes: seq<Byte>)
    requires k + n <= Bytes(|stream|)
    ensures |bytes| == n
  {
    seq(n, i requires 0 <= i < n => ByteAt(stream, k + i))
  }

  /** The slice grows by whole pieces of one chunk. */
  lemma SliceTakesFromChunk(stream: seq<Chunk>, k: nat, n: nat, c: nat, skip: nat, m: nat)
    requires c < |stream| && skip + m <= BUFFER_CHUNK_SIZE
    requires k + n == Bytes(c) + skip
    ensures k + n + m <= Bytes(|stream|)
    ensures Slice(stream, k, n + m) == Slice(stream, k, n) + stream[c][skip..skip + m]
  {
    var longer, pieces := Slice(stream, k, n + m), Slice(stream, k, n) + stream[c][skip..skip + m];
    assert |longer| == |pieces|;
    forall i | 0 <= i < n + m ensures longer[i] == pieces[i] {
      assert longer[i] == ByteAt(stream, k + i);
      if n <= i {
        ByteInChunk(c, skip + (i - n));
        assert k + i == Bytes(c) + (skip + (i - n));
        assert pieces[i] == stream[c][skip..skip + m][i - n];
      } else {
        assert pieces[i] == Slice(stream, k, n)[i];
      }
    }
  }

  /** What memcpy leaves of s when it writes x at off. */
  function Overlaid(s: seq<Byte>, off: nat, x: seq<Byte>): (t: seq<Byte>)
    requires off + |x| <= |s|
    ensures |t| == |s|
  {
    s[..off] + x + s[off + |x|..]
  }

  lemma OverlaysJoin(s: seq<Byte>, x: seq<Byte>, y: seq<Byte>)
    requires |x| + |y| <= |s|
    ensures Overlaid(Overlaid(s, 0, x), |x|, y) == Overlaid(s, 0, x + y)
  {
  }
}
