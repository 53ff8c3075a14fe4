/** `process_file`: plan the chunks, scan each one, and add the chunks'
    local counts into the file's total. The threads are modelled as run one
    after another; since the mutex only serialises additions, the order of
    the additions is shown not to matter. */
module FileCounter {
  import opened Wrappers
  import opened Scanner
  import opened Chunks

  /** The total after adding the counts from left to right, starting at 0
      (`int total_count = 0; ... *local_count += count`). */
  function Sum(xs: seq<int>): int
  {
    if xs == [] then 0 else Sum(xs[..|xs| - 1]) + xs[|xs| - 1]
  }

  lemma {:induction false} SumConcat(a: seq<int>, b: seq<int>)
    ensures Sum(a + b) == Sum(a) + Sum(b)
    decreases |b|
  {
    if b == [] {
      assert a + b == a;
    } else {
      assert (a + b)[..|a + b| - 1] == a + b[..|b| - 1];
      SumConcat(a, b[..|b| - 1]);
    }
  }

  lemma SumSnoc(xs: seq<int>, i: nat)
    requires i < |xs|
    ensures Sum(xs[..i + 1]) == Sum(xs[..i]) + xs[i]
  {
    assert xs[..i + 1][..i] == xs[..i];
  }

  lemma SumPair(x: int, y: int)
    ensures Sum([x, y]) == x + y
  {
    assert [x][..0] == [];
    assert Sum([x]) == x;
    assert [x, y][..1] == [x];
  }

  lemma SumRemove(xs: seq<int>, j: nat)
    requires j < |xs|
    ensures Sum(xs) == Sum(xs[..j] + xs[j + 1..]) + xs[j]
  {
    assert xs == xs[..j] + [xs[j]] + xs[j + 1..];
    SumConcat(xs[..j] + [xs[j]], xs[j + 1..]);
    SumConcat(xs[..j], [xs[j]]);
    SumConcat(xs[..j], xs[j + 1..]);
    assert Sum([xs[j]]) == Sum([]) + xs[j];
  }

  /** The total does not depend on the order in which the chunks add their
      counts: any rearrangement of the same counts gives the same sum. */
  lemma {:induction false} SumOrderIrrelevant(a: seq<int>, b: seq<int>)
    requires multiset(a) == multiset(b)
    ensures Sum(a) == Sum(b)
    decreases |a|
  {
    if a != [] {
      var x := a[|a| - 1];
      var a' := a[..|a| - 1];
      assert a == a' + [x];
      assert x in multiset(b);
      var j :| 0 <= j < |b| && b[j] == x;
      var b' := b[..j] + b[j + 1..];
      assert b == b[..j] + [x] + b[j + 1..];
      assert multiset(b) == multiset(b[..j]) + multiset{x} + multiset(b[j + 1..]);
      assert multiset(a') == multiset(a) - multiset{x};
      assert multiset(b') == multiset(b) - multiset{x};
      SumOrderIrrelevant(a', b');
      SumRemove(b, j);
    } else {
      assert |b| == |multiset(b)| == 0;
    }
  }

  /** Adding counts that are each no larger gives a total no larger. */
  lemma {:induction false} SumMono(a: seq<int>, b: seq<int>)
    requires |a| == |b| && forall i :: 0 <= i < |a| ==> a[i] <= b[i]
    ensures Sum(a) <= Sum(b)
    decreases |a|
  {
    if a != [] {
      SumMono(a[..|a| - 1], b[..|b| - 1]);
    }
  }

  /** What one chunk's thread adds: its local count, or nothing when its
      own open of the file fails. */
  function ChunkCount(s: string, target: string, c: Chunk, isOpen: bool): nat
  {
    if isOpen then MatchCount(ChunkTokens(s, c.start, c.end), target) else 0
  }

  function ChunkCounts(s: string, target: string, p: seq<Chunk>, opens: seq<bool>): seq<int>
    requires |opens| == |p|
  {
    seq(|p|, i requires 0 <= i < |p| => ChunkCount(s, target, p[i], opens[i]))
  }

  function AllOpen(n: nat): seq<bool>
  {
    seq(n, _ => true)
  }

  /** The count `count_words_single_thread` returns for an opened file. */
  function SingleCount(s: string, target: string): nat
  {
    MatchCount(Tokens(s, 0), target)
  }

  /** The count `process_file` returns for an opened file, `opens[i]`
      telling whether thread `i` could open it. */
  function MultiCount(s: string, target: string, n: nat, opens: seq<bool>): int
    requires 1 <= n && |opens| == n
  {
    Sum(ChunkCounts(s, target, Plan(|s|, n), opens))
  }

  /** `process_file`: -1 when the file cannot be opened to learn its size,
      otherwise the sum of the chunks' counts. */
  method ProcessFile(file: Option<string>, chunkOpens: seq<bool>, target: string, numThreads: nat)
    returns (total: int)
    requires 1 <= numThreads && |chunkOpens| == numThreads
    requires file.Some? ==> ShortTokens(file.value)
    ensures file.None? ==> total == -1
    ensures file.Some? ==> total == MultiCount(file.value, target, numThreads, chunkOpens)
  {
    if file.None? {
      return -1;
    }
    var fileSize := |file.value|;
    var chunks := PlanChunks(fileSize, numThreads);
    ghost var counts := ChunkCounts(file.value, target, Plan(fileSize, numThreads), chunkOpens);
    total := 0;
    for i := 0 to numThreads
      invariant chunks[..] == Plan(fileSize, numThreads)
      invariant total == Sum(counts[..i])
    {
      var c := chunks[i];
      var local;
      if chunkOpens[i] {
        local := CountWordsInChunk(file, target, c.start, c.end);
      } else {
        local := CountWordsInChunk(None, target, c.start, c.end);
      }
      assert local == counts[i];
      SumSnoc(counts, i);
      total := total + local;
    }
    assert counts[..numThreads] == counts;
  }

  /** A failed open in a thread can only lower the file's total. */
  lemma FailedOpensOnlyLower(s: string, target: string, n: nat, opens: seq<bool>)
    requires 1 <= n && |opens| == n
    ensures 0 <= MultiCount(s, target, n, opens) <= MultiCount(s, target, n, AllOpen(n))
  {
    var p := Plan(|s|, n);
    SumMono(seq(n, _ => 0), ChunkCounts(s, target, p, opens));
    SumMono(ChunkCounts(s, target, p, opens), ChunkCounts(s, target, p, AllOpen(n)));
    SumZero(n);
  }

  lemma {:induction false} SumZero(n: nat)
    ensures Sum(seq(n, _ => 0)) == 0
  {
    if n > 0 {
      assert seq(n, _ => 0)[..n - 1] == seq(n - 1, _ => 0);
      SumZero(n - 1);
    }
  }

  /** The tokens the chunks read, chunk after chunk. */
  function ChunkedTokens(s: string, p: seq<Chunk>): seq<string>
  {
    if p == [] then []
    else ChunkedTokens(s, p[..|p| - 1]) + ChunkTokens(s, p[|p| - 1].start, p[|p| - 1].end)
  }

  lemma {:induction false} SumChunkCounts(s: string, target: string, p: seq<Chunk>)
    ensures Sum(ChunkCounts(s, target, p, AllOpen(|p|))) == MatchCount(ChunkedTokens(s, p), target)
    decreases |p|
  {
    if p != [] {
      var q := p[..|p| - 1];
      var last := p[|p| - 1];
      assert ChunkCounts(s, target, p, AllOpen(|p|))[..|p| - 1] == ChunkCounts(s, target, q, AllOpen(|q|));
      SumChunkCounts(s, target, q);
      MatchCountConcat(ChunkedTokens(s, q), ChunkTokens(s, last.start, last.end), target);
    }
  }

  lemma TilesWithin(p: seq<Chunk>, size: nat, i: nat)
    requires Tiles(p, size) && i < |p|
    ensures p[i].end <= size
  {
    if i < |p| - 1 {
      TilesOrdered(p, size, i, |p| - 1);
    }
  }

  /** Chunks that tile the file and end on clean cuts read, together, the
      first `k` chunks' tokens followed by what a scan from the k-th end
      reads: exactly the tokens of the whole file. */
  lemma {:induction false} TiledScan(s: string, p: seq<Chunk>, k: nat)
    requires Tiles(p, |s|)
    requires forall i :: 0 <= i < |p| ==> CleanCut(s, p[i].end)
    requires 1 <= k <= |p|
    ensures ChunkedTokens(s, p[..k]) + Tokens(s, p[k - 1].end) == Tokens(s, 0)
  {
    var c := p[k - 1];
    var before := ChunkedTokens(s, p[..k - 1]);
    ChunkedTokensSnoc(s, p, k);
    TileStep(p, |s|, k);
    SplitAtCleanCut(s, c.start, c.end);
    AppendAssoc(before, ChunkTokens(s, c.start, c.end), Tokens(s, c.end));
    if k == 1 {
      assert before == [];
      assert before + Tokens(s, c.start) == Tokens(s, c.start);
    } else {
      TiledScan(s, p, k - 1);
    }
  }

  lemma AppendAssoc(a: seq<string>, b: seq<string>, c: seq<string>)
    ensures (a + b) + c == a + (b + c)
  {
  }

  lemma ChunkedTokensSnoc(s: string, p: seq<Chunk>, k: nat)
    requires 1 <= k <= |p|
    ensures ChunkedTokens(s, p[..k])
         == ChunkedTokens(s, p[..k - 1]) + ChunkTokens(s, p[k - 1].start, p[k - 1].end)
  {
    assert p[..k][..k - 1] == p[..k - 1];
  }

  /** Chunk `k - 1` of a tiling lies within the file and starts where the
      one before it ends, or at 0 when it is the first. */
  lemma TileStep(p: seq<Chunk>, size: nat, k: nat)
    requires Tiles(p, size) && 1 <= k <= |p|
    ensures p[k - 1].start <= p[k - 1].end <= size
    ensures k == 1 ==> p[0].start == 0
    ensures k > 1 ==> p[k - 2].end == p[k - 1].start
  {
    TilesWithin(p, size, k - 1);
  }

  /** Chunks that tile the file and end on clean cuts count, together,
      what the single pass counts. */
  lemma TiledCount(s: string, target: string, p: seq<Chunk>)
    requires Tiles(p, |s|)
    requires forall i :: 0 <= i < |p| ==> CleanCut(s, p[i].end)
    ensures Sum(ChunkCounts(s, target, p, AllOpen(|p|))) == SingleCount(s, target)
  {
    TiledScan(s, p, |p|);
    assert p[..|p|] == p;
    NoTokensAtEnd(s);
    assert ChunkedTokens(s, p) == Tokens(s, 0);
    SumChunkCounts(s, target, p);
  }

  /** Mode equivalence: when every chunk boundary falls right after the end
      of a token and all threads open the file, the chunked scan counts what
      the single pass counts. */
  lemma ModesAgreeOnCleanCuts(s: string, target: string, n: nat)
    requires 1 <= n
    requires forall i :: 0 <= i < n ==> CleanCut(s, Plan(|s|, n)[i].end)
    ensures MultiCount(s, target, n, AllOpen(n)) == SingleCount(s, target)
  {
    PlanTiles(|s|, n);
    TiledCount(s, target, Plan(|s|, n));
  }

  /** With one thread the two modes agree on every file. */
  lemma ModesAgreeOneThread(s: string, target: string)
    ensures MultiCount(s, target, 1, [true]) == SingleCount(s, target)
  {
    assert AllOpen(1) == [true];
    ModesAgreeOnCleanCuts(s, target, 1);
  }
}
