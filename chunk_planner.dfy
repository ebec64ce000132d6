/** How the sender sizes and lays out the chunks of one file (Sender.calculateOptimalChunkSize,
    the chunk count in sendFile and the per-chunk arithmetic in sendFileChunks). */
module ChunkPlanner {
  import opened JavaInts

  const BASE_CHUNK_SIZE: nat := 64 * 1024 * 1024
  const MAX_CHUNK_SIZE: nat := 256 * 1024 * 1024
  const MAX_TARGET_CHUNKS: nat := 16

  /** 2^53: every long up to it converts to a double exactly, and for such a file size the
      quotient fileSize / chunkSize, rounded to a double, stays below the next integer above
      it, so Math.ceil gives the integer ceiling. Above it the double ceiling can come out
      smaller than the file needs. */
  const MAX_PLANNED_FILE_SIZE: nat := 0x20_0000_0000_0000

  /** One chunk of a file: the fields of the source's FileChunk record. */
  datatype FileChunk = FileChunk(fileName: string, startPosition: int, chunkSize: int,
                                 totalFileSize: int, chunkIndex: int, totalChunks: int)

  /** Math.min(availableProcessors * 2, 16). */
  function TargetChunks(processors: nat): (t: nat)
    requires processors >= 1
    ensures 2 <= t <= MAX_TARGET_CHUNKS
  {
    Min(processors * 2, MAX_TARGET_CHUNKS)
  }

  /** calculateOptimalChunkSize: a file under 64 MiB travels whole; a larger one is cut into
      even shares for the target count, kept within [64 MiB, 256 MiB]. */
  function OptimalChunkSize(fileSize: nat, processors: nat): (r: nat)
    requires fileSize <= INT64_MAX && processors >= 1
    ensures IsInt32(r)
    ensures fileSize < BASE_CHUNK_SIZE ==> r == fileSize
    ensures fileSize >= BASE_CHUNK_SIZE ==> BASE_CHUNK_SIZE <= r <= MAX_CHUNK_SIZE && r <= fileSize
    ensures fileSize >= BASE_CHUNK_SIZE ==>
      var share := fileSize / TargetChunks(processors);
      r == share || (r == BASE_CHUNK_SIZE && share < BASE_CHUNK_SIZE)
                 || (r == MAX_CHUNK_SIZE && share > MAX_CHUNK_SIZE)
  {
    if fileSize < BASE_CHUNK_SIZE then fileSize
    else Min(Max(BASE_CHUNK_SIZE, fileSize / TargetChunks(processors)), MAX_CHUNK_SIZE)
  }

  function CeilDiv(a: nat, b: nat): nat
    requires b > 0
  {
    (a + b - 1) / b
  }

  /** (int) Math.ceil((double) fileSize / chunkSize): 0/0 is NaN, which the cast turns into 0;
      a quotient above Integer.MAX_VALUE saturates. */
  function TotalChunks(fileSize: nat, chunkSize: nat): (n: nat)
    ensures IsInt32(n)
    ensures fileSize == 0 ==> n == 0
    ensures fileSize > 0 ==> n >= 1
  {
    if chunkSize == 0 then (if fileSize == 0 then 0 else INT32_MAX)
    else Min(CeilDiv(fileSize, chunkSize), INT32_MAX)
  }

  /** The chunk size and count sendFile announces for a file. */
  datatype ChunkPlan = ChunkPlan(chunkSize: nat, totalChunks: nat)

  function Plan(fileSize: nat, processors: nat): (p: ChunkPlan)
    requires fileSize <= INT64_MAX && processors >= 1
    ensures IsInt32(p.chunkSize) && IsInt32(p.totalChunks)
  {
    var c := OptimalChunkSize(fileSize, processors);
    ChunkPlan(c, TotalChunks(fileSize, c))
  }

  /** Chunk i as sendFileChunks computes it: it starts at i * chunkSize and runs for
      Math.min(chunkSize, fileSize - startPosition) bytes. */
  function ChunkAt(fileName: string, fileSize: nat, chunkSize: nat, totalChunks: nat, i: int): FileChunk
  {
    var start := i * chunkSize;
    FileChunk(fileName, start, Min(chunkSize, fileSize - start), fileSize, i, totalChunks)
  }

  /** All chunks of a plan, in index order. */
  function ChunksOf(fileName: string, fileSize: nat, chunkSize: nat, totalChunks: nat): (r: seq<FileChunk>)
    ensures |r| == totalChunks
    ensures forall i :: 0 <= i < totalChunks ==> r[i] == ChunkAt(fileName, fileSize, chunkSize, totalChunks, i)
  {
    seq(totalChunks, j => ChunkAt(fileName, fileSize, chunkSize, totalChunks, j))
  }

  predicate Covers(c: FileChunk, p: int)
  {
    c.startPosition <= p < c.startPosition + c.chunkSize
  }

  /** The chunks lie end to end from offset 0 to fileSize, each one non-empty and numbered by
      its position. */
  ghost predicate Tiles(chunks: seq<FileChunk>, fileSize: nat)
  {
    && |chunks| > 0
    && chunks[0].startPosition == 0
    && (forall i :: 0 <= i < |chunks| ==> chunks[i].chunkIndex == i && chunks[i].chunkSize > 0)
    && (forall i :: 0 <= i < |chunks| - 1 ==>
          chunks[i].startPosition + chunks[i].chunkSize == chunks[i + 1].startPosition)
    && chunks[|chunks| - 1].startPosition + chunks[|chunks| - 1].chunkSize == fileSize
  }

  function SumSizes(chunks: seq<FileChunk>): int
  {
    if chunks == [] then 0 else SumSizes(chunks[..|chunks| - 1]) + chunks[|chunks| - 1].chunkSize
  }

  /** The submission loop of sendFileChunks, collecting the chunk each task is given. For the
      planner's chunk count the chunks tile the file and all but the last have the full size. */
  method PlanChunks(fileName: string, fileSize: nat, chunkSize: nat, totalChunks: nat)
    returns (chunks: seq<FileChunk>)
    ensures |chunks| == totalChunks
    ensures forall i :: 0 <= i < totalChunks ==>
      chunks[i].chunkIndex == i && chunks[i].startPosition == i * chunkSize
      && chunks[i].totalChunks == totalChunks && chunks[i].totalFileSize == fileSize
      && chunks[i].chunkSize == Min(chunkSize, fileSize - i * chunkSize)
    ensures chunks == ChunksOf(fileName, fileSize, chunkSize, totalChunks)
    ensures fileSize > 0 && chunkSize > 0 && totalChunks == CeilDiv(fileSize, chunkSize) ==>
      Tiles(chunks, fileSize)
      && (forall i :: 0 <= i < totalChunks - 1 ==> chunks[i].chunkSize == chunkSize)
      && SumSizes(chunks) == fileSize
  {
    chunks := [];
    for i := 0 to totalChunks
      invariant |chunks| == i
      invariant forall j :: 0 <= j < i ==> chunks[j] == ChunkAt(fileName, fileSize, chunkSize, totalChunks, j)
    {
      var startPosition := i * chunkSize;
      var currentChunkSize := Min(chunkSize, fileSize - startPosition);
      chunks := chunks + [FileChunk(fileName, startPosition, currentChunkSize, fileSize, i, totalChunks)];
    }
    assert chunks == ChunksOf(fileName, fileSize, chunkSize, totalChunks);
    if fileSize > 0 && chunkSize > 0 && totalChunks == CeilDiv(fileSize, chunkSize) {
      CeilingTiles(fileName, fileSize, chunkSize);
      TilesSum(chunks, fileSize);
    }
  }

  lemma CeilDivBounds(a: nat, b: nat)
    requires a > 0 && b > 0
    ensures CeilDiv(a, b) >= 1
    ensures (CeilDiv(a, b) - 1) * b < a <= CeilDiv(a, b) * b
  {
    var n := CeilDiv(a, b);
    var r := (a + b - 1) % b;
    assert a + b - 1 == n * b + r;
    assert (n - 1) * b == n * b - b;
  }

  lemma MulLe(a: int, b: int, c: int)
    requires 0 <= a <= b && 0 <= c
    ensures a * c <= b * c
  {
  }

  /** The arithmetic facts for one chunk of a ceiling-division plan. */
  lemma ChunkFacts(fileSize: nat, chunkSize: nat, n: nat, i: nat)
    requires chunkSize > 0 && i < n && (n - 1) * chunkSize < fileSize <= n * chunkSize
    ensures i * chunkSize < fileSize
    ensures (i + 1) * chunkSize == i * chunkSize + chunkSize
    ensures i < n - 1 ==> fileSize - i * chunkSize > chunkSize
    ensures i == n - 1 ==> fileSize - i * chunkSize <= chunkSize
  {
    MulLe(i, n - 1, chunkSize);
    if i < n - 1 {
      MulLe(i + 1, n - 1, chunkSize);
    } else {
      assert n * chunkSize == (n - 1) * chunkSize + chunkSize;
    }
  }

  /** Chunk i of a ceiling-division plan is non-empty, ends where chunk i + 1 starts, and the
      last one ends at the end of the file. */
  lemma ChunkAtFacts(fileName: string, fileSize: nat, chunkSize: nat, n: nat, i: nat)
    requires chunkSize > 0 && i < n && (n - 1) * chunkSize < fileSize <= n * chunkSize
    ensures var ch := ChunkAt(fileName, fileSize, chunkSize, n, i);
      ch.chunkSize > 0 && ch.chunkIndex == i
      && (i < n - 1 ==>
            ch.chunkSize == chunkSize
            && ch.startPosition + ch.chunkSize == ChunkAt(fileName, fileSize, chunkSize, n, i + 1).startPosition)
      && (i == n - 1 ==> ch.startPosition + ch.chunkSize == fileSize)
  {
    ChunkFacts(fileSize, chunkSize, n, i);
  }

  /** With totalChunks = ceil(fileSize / chunkSize) the computed chunks tile [0, fileSize) and
      only the last one may be shorter than chunkSize. */
  lemma CeilingTiles(fileName: string, fileSize: nat, chunkSize: nat)
    requires fileSize > 0 && chunkSize > 0
    ensures var n := CeilDiv(fileSize, chunkSize);
      var chunks := ChunksOf(fileName, fileSize, chunkSize, n);
      Tiles(chunks, fileSize) && forall i :: 0 <= i < n - 1 ==> chunks[i].chunkSize == chunkSize
  {
    var n := CeilDiv(fileSize, chunkSize);
    CeilDivBounds(fileSize, chunkSize);
    var chunks := ChunksOf(fileName, fileSize, chunkSize, n);
    forall i | 0 <= i < n
      ensures chunks[i].chunkSize > 0 && chunks[i].chunkIndex == i
    {
      ChunkAtFacts(fileName, fileSize, chunkSize, n, i);
    }
    forall i | 0 <= i < n - 1
      ensures chunks[i].chunkSize == chunkSize
      ensures chunks[i].startPosition + chunks[i].chunkSize == chunks[i + 1].startPosition
    {
      ChunkAtFacts(fileName, fileSize, chunkSize, n, i);
    }
    ChunkAtFacts(fileName, fileSize, chunkSize, n, n - 1);
  }

  /** Up to 2^53 bytes the chunk count is the exact ceiling and never saturates. */
  lemma PlanCountIsExact(fileSize: nat, processors: nat)
    requires 0 < fileSize <= MAX_PLANNED_FILE_SIZE && processors >= 1
    ensures var c := OptimalChunkSize(fileSize, processors);
      c > 0 && Plan(fileSize, processors).totalChunks == CeilDiv(fileSize, c)
  {
    var c := OptimalChunkSize(fileSize, processors);
    if fileSize < BASE_CHUNK_SIZE {
      CountAtMost(fileSize, c, 1);
    } else if c == MAX_CHUNK_SIZE {
      CountAtMost(fileSize, c, INT32_MAX);
    } else {
      // Below the cap the share is under 256 MiB, so the file is under 17 * 256 MiB.
      ShareBound(fileSize, TargetChunks(processors));
      MulLe(BASE_CHUNK_SIZE, c, 1024);
      CountAtMost(fileSize, c, 1024);
    }
  }

  /** A file of at most m * c bytes needs at most m chunks of c bytes. */
  lemma CountAtMost(a: nat, c: nat, m: nat)
    requires a > 0 && c > 0 && a <= m * c
    ensures CeilDiv(a, c) <= m
  {
    var n := CeilDiv(a, c);
    CeilDivBounds(a, c);
    if n > m {
      MulLe(m, n - 1, c);
    }
  }

  lemma ShareBound(fileSize: nat, t: nat)
    requires 2 <= t <= MAX_TARGET_CHUNKS && fileSize / t <= MAX_CHUNK_SIZE
    ensures fileSize < 17 * MAX_CHUNK_SIZE
  {
    var q := fileSize / t;
    assert fileSize == q * t + fileSize % t;
    MulLe(q, MAX_CHUNK_SIZE, t);
    MulLe(t, MAX_TARGET_CHUNKS, MAX_CHUNK_SIZE);
  }

  /** The planner's chunks tile the file: the property the whole transfer rests on. */
  lemma PlanTiles(fileName: string, fileSize: nat, processors: nat)
    requires 0 < fileSize <= MAX_PLANNED_FILE_SIZE && processors >= 1
    ensures var p := Plan(fileSize, processors);
      var chunks := ChunksOf(fileName, fileSize, p.chunkSize, p.totalChunks);
      Tiles(chunks, fileSize)
      && SumSizes(chunks) == fileSize
      && (forall i :: 0 <= i < p.totalChunks - 1 ==> chunks[i].chunkSize == p.chunkSize)
  {
    var p := Plan(fileSize, processors);
    PlanCountIsExact(fileSize, processors);
    CeilingTiles(fileName, fileSize, p.chunkSize);
    TilesSum(ChunksOf(fileName, fileSize, p.chunkSize, p.totalChunks), fileSize);
  }

  /** A file under 64 MiB is sent as exactly one chunk holding the whole file. */
  lemma SmallFileIsOneChunk(fileSize: nat, processors: nat)
    requires 0 < fileSize < BASE_CHUNK_SIZE && processors >= 1
    ensures Plan(fileSize, processors) == ChunkPlan(fileSize, 1)
  {
    CeilDivBounds(fileSize, fileSize);
    var n := CeilDiv(fileSize, fileSize);
    if n > 1 {
      MulLe(1, n - 1, fileSize);
    }
  }

  /** Below the 256 MiB cap the planner opens at most one connection more than its target. */
  lemma ChunkCountNearTarget(fileSize: nat, processors: nat)
    requires BASE_CHUNK_SIZE <= fileSize <= INT64_MAX && processors >= 1
    requires OptimalChunkSize(fileSize, processors) < MAX_CHUNK_SIZE
    ensures Plan(fileSize, processors).totalChunks <= TargetChunks(processors) + 1
  {
    var c := OptimalChunkSize(fileSize, processors);
    CeilDivBounds(fileSize, c);
    CountBound(fileSize, TargetChunks(processors), c, CeilDiv(fileSize, c));
  }

  /** The arithmetic of ChunkCountNearTarget: a chunk of at least 64 MiB that is the share
      fileSize / t, or 64 MiB when the share is smaller, needs at most t + 1 chunks. */
  lemma CountBound(fileSize: nat, t: nat, c: nat, n: nat)
    requires 2 <= t <= MAX_TARGET_CHUNKS && c >= BASE_CHUNK_SIZE && n >= 1
    requires (n - 1) * c < fileSize
    requires c == fileSize / t || (c == BASE_CHUNK_SIZE && fileSize / t < BASE_CHUNK_SIZE)
    ensures n <= t + 1
  {
    BelowNextMultiple(fileSize, t, c);
    if n > t + 1 {
      MulLe(t + 1, n - 1, c);
      assert false;
    }
  }

  lemma BelowNextMultiple(fileSize: nat, t: nat, c: nat)
    requires 2 <= t <= MAX_TARGET_CHUNKS && c >= BASE_CHUNK_SIZE
    requires c == fileSize / t || (c == BASE_CHUNK_SIZE && fileSize / t < BASE_CHUNK_SIZE)
    ensures fileSize < (t + 1) * c
  {
    var share := fileSize / t;
    assert fileSize < share * t + t by {
      assert fileSize == share * t + fileSize % t;
    }
    assert (t + 1) * c == c * t + c;
    if c != share {
      MulLe(share + 1, BASE_CHUNK_SIZE, t);
    }
  }

  lemma {:induction false} StartIsPrefixSum(chunks: seq<FileChunk>, fileSize: nat, k: nat)
    requires Tiles(chunks, fileSize) && k < |chunks|
    ensures chunks[k].startPosition == SumSizes(chunks[..k])
  {
    if k > 0 {
      StartIsPrefixSum(chunks, fileSize, k - 1);
      assert chunks[..k][..k - 1] == chunks[..k - 1];
    }
  }

  /** The chunk sizes add up to the file size. */
  lemma TilesSum(chunks: seq<FileChunk>, fileSize: nat)
    requires Tiles(chunks, fileSize)
    ensures SumSizes(chunks) == fileSize
  {
    StartIsPrefixSum(chunks, fileSize, |chunks| - 1);
    assert chunks[..|chunks| - 1] == chunks[..|chunks| - 1];
  }

  lemma {:induction false} EndBeforeLaterStart(chunks: seq<FileChunk>, fileSize: nat, j: nat, k: nat)
    requires Tiles(chunks, fileSize) && j < k < |chunks|
    ensures chunks[j].startPosition + chunks[j].chunkSize <= chunks[k].startPosition
    decreases k - j
  {
    if j + 1 < k {
      EndBeforeLaterStart(chunks, fileSize, j + 1, k);
    }
  }

  lemma {:induction false} FindCover(chunks: seq<FileChunk>, fileSize: nat, p: int, k: nat)
    requires Tiles(chunks, fileSize) && k < |chunks| && chunks[k].startPosition <= p < fileSize
    ensures exists i :: k <= i < |chunks| && Covers(chunks[i], p)
    decreases |chunks| - k
  {
    if !Covers(chunks[k], p) && k + 1 < |chunks| {
      FindCover(chunks, fileSize, p, k + 1);
    }
  }

  /** No gap and no overlap: every offset of the file lies in exactly one chunk. */
  lemma TilesCoverOnce(chunks: seq<FileChunk>, fileSize: nat, p: int)
    requires Tiles(chunks, fileSize) && 0 <= p < fileSize
    ensures exists i :: 0 <= i < |chunks| && Covers(chunks[i], p)
    ensures forall i, j ::
      0 <= i < |chunks| && 0 <= j < |chunks| && Covers(chunks[i], p) && Covers(chunks[j], p) ==> i == j
  {
    FindCover(chunks, fileSize, p, 0);
    forall i, j | 0 <= i < |chunks| && 0 <= j < |chunks| && Covers(chunks[i], p) && Covers(chunks[j], p)
      ensures i == j
    {
      if i < j {
        EndBeforeLaterStart(chunks, fileSize, i, j);
      } else if j < i {
        EndBeforeLaterStart(chunks, fileSize, j, i);
      }
    }
  }

  /** Every chunk lies inside the file. */
  lemma TilesWithinFile(chunks: seq<FileChunk>, fileSize: nat, k: nat)
    requires Tiles(chunks, fileSize) && k < |chunks|
    ensures 0 <= chunks[k].startPosition
    ensures chunks[k].startPosition + chunks[k].chunkSize <= fileSize
  {
    StartIsPrefixSum(chunks, fileSize, k);
    PrefixSumNonNegative(chunks, fileSize, k);
    if k < |chunks| - 1 {
      EndBeforeLaterStart(chunks, fileSize, k, |chunks| - 1);
    }
  }

  lemma {:induction false} PrefixSumNonNegative(chunks: seq<FileChunk>, fileSize: nat, k: nat)
    requires Tiles(chunks, fileSize) && k <= |chunks|
    ensures SumSizes(chunks[..k]) >= 0
  {
    if k > 0 {
      PrefixSumNonNegative(chunks, fileSize, k - 1);
      assert chunks[..k][..k - 1] == chunks[..k - 1];
    }
  }
}
