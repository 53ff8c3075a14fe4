/** The chunk planner of `process_file`: the byte range [0, file_size) is
    split into `num_threads` contiguous half-open ranges of
    `file_size / num_threads` bytes, the last one taking the remainder. */
module Chunks {

  /** A half-open byte range [start, end) of a file. */
  datatype Chunk = Chunk(start: nat, end: nat)

  predicate InChunk(c: Chunk, b: int) {
    c.start <= b < c.end
  }

  /** Chunk `i` of `n`, for a file of `size` bytes. */
  function ChunkAt(size: nat, n: nat, i: nat): Chunk
    requires 1 <= n && i < n
  {
    var chunkSize := size / n;
    Chunk(i * chunkSize, if i == n - 1 then size else (i + 1) * chunkSize)
  }

  /** The whole plan for a file of `size` bytes and `n` threads. */
  function Plan(size: nat, n: nat): (p: seq<Chunk>)
    requires 1 <= n
    ensures |p| == n
  {
    seq(n, i requires 0 <= i < n => ChunkAt(size, n, i))
  }

  /** The chunks lie end to end from 0 to `size`. */
  ghost predicate Tiles(p: seq<Chunk>, size: nat) {
    && |p| >= 1
    && p[0].start == 0
    && p[|p| - 1].end == size
    && (forall i :: 0 <= i < |p| ==> p[i].start <= p[i].end)
    && (forall i :: 0 <= i < |p| - 1 ==> p[i].end == p[i + 1].start)
  }

  lemma MulMono(a: nat, b: nat, c: nat)
    requires a <= b
    ensures a * c <= b * c
  {
  }

  /** The plan starts at 0, ends at `size`, and each chunk ends where the
      next one starts. */
  lemma PlanTiles(size: nat, n: nat)
    requires 1 <= n
    ensures Tiles(Plan(size, n), size)
  {
    var p := Plan(size, n);
    var cs := size / n;
    assert n * cs <= size;
    forall i | 0 <= i < n
      ensures p[i].start <= p[i].end
    {
      if i < n - 1 {
        MulMono(i, i + 1, cs);
      } else {
        MulMono(i, n, cs);
      }
    }
  }

  /** Every chunk but the last spans exactly `size / n` bytes; the last
      spans `size / n + size % n` bytes, so at least as many. */
  lemma PlanChunkSizes(size: nat, n: nat)
    requires 1 <= n
    ensures forall i :: 0 <= i < n - 1 ==> Plan(size, n)[i].end - Plan(size, n)[i].start == size / n
    ensures Plan(size, n)[n - 1].end - Plan(size, n)[n - 1].start == size / n + size % n
    ensures Plan(size, n)[n - 1].end - Plan(size, n)[n - 1].start >= size / n
  {
    var cs := size / n;
    assert size == n * cs + size % n;
    assert (n - 1) * cs == n * cs - cs;
  }

  /** In a tiling, an earlier chunk ends no later than a later one starts. */
  lemma {:induction false} TilesOrdered(p: seq<Chunk>, size: nat, i: nat, j: nat)
    requires Tiles(p, size) && i < j < |p|
    ensures p[i].end <= p[j].start
    decreases j - i
  {
    if i + 1 < j {
      TilesOrdered(p, size, i + 1, j);
    }
  }

  /** In a tiling, each byte of [0, size) belongs to exactly one chunk. */
  lemma {:induction false} TilesPartition(p: seq<Chunk>, size: nat, b: int)
    requires Tiles(p, size) && 0 <= b < size
    ensures exists i :: 0 <= i < |p| && InChunk(p[i], b)
    ensures forall i, j :: 0 <= i < |p| && 0 <= j < |p| && InChunk(p[i], b) && InChunk(p[j], b) ==> i == j
  {
    forall i, j | 0 <= i < |p| && 0 <= j < |p| && InChunk(p[i], b) && InChunk(p[j], b)
      ensures i == j
    {
      if i < j {
        TilesOrdered(p, size, i, j);
      } else if j < i {
        TilesOrdered(p, size, j, i);
      }
    }
    // the first chunk that ends after b holds b
    var k := 0;
    while p[k].end <= b
      invariant 0 <= k < |p|
      invariant p[k].start <= b
      decreases |p| - k
    {
      k := k + 1;
    }
    assert InChunk(p[k], b);
  }

  /** The loop of `process_file` that fills the `chunks` array. */
  method PlanChunks(size: nat, n: nat) returns (chunks: array<Chunk>)
    requires 1 <= n
    ensures chunks.Length == n && chunks[..] == Plan(size, n)
  {
    chunks := new Chunk[n];
    var chunkSize := size / n;
    for i := 0 to n
      invariant forall k :: 0 <= k < i ==> chunks[k] == ChunkAt(size, n, k)
    {
      chunks[i] := Chunk(i * chunkSize, if i == n - 1 then size else (i + 1) * chunkSize);
    }
    assert chunks[..] == Plan(size, n);
  }
}
