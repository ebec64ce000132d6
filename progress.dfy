/** The percentages reported while transferring: per chunk on both sides
    ((int) ((completedChunks * 100.0) / totalChunks)) and across the files of a batch
    ((int) (((fileIndex * 100.0) + progress) / files.length)). For the operands involved the
    double division truncated to int equals integer division. */
module Progress {

  function ChunkProgress(completed: nat, total: nat): nat
    requires total > 0
  {
    completed * 100 / total
  }

  function OverallProgress(fileIndex: nat, progress: nat, fileCount: nat): nat
    requires fileCount > 0
  {
    (fileIndex * 100 + progress) / fileCount
  }

  lemma DivMonotone(a: nat, b: nat, d: nat)
    requires a <= b && d > 0
    ensures a / d <= b / d
  {
    var qa, qb := a / d, b / d;
    assert qa * d <= a;
    assert b < (qb + 1) * d;
    if qa > qb {
      MulLe(qb + 1, qa, d);
      assert false;
    }
  }

  lemma MulLe(a: nat, b: nat, c: nat)
    requires a <= b
    ensures a * c <= b * c
  {
  }

  /** q * d <= x < (q + 1) * d pins x / d down to q. */
  lemma DivBetween(x: nat, q: nat, d: nat)
    requires d > 0 && q * d <= x < (q + 1) * d
    ensures x / d == q
  {
    var r := x / d;
    assert r * d <= x < r * d + d;
    if r < q {
      MulLe(r + 1, q, d);
      assert false;
    } else if r > q {
      MulLe(q + 1, r, d);
      assert false;
    }
  }

  lemma DivBelow(x: nat, q: nat, d: nat)
    requires d > 0 && x < q * d
    ensures x / d < q
  {
    var r := x / d;
    assert r * d <= x;
    if r >= q {
      MulLe(q, r, d);
      assert false;
    }
  }

  /** Chunk progress stays within [0, 100], never goes down as chunks complete, and reaches 100
      exactly when the last chunk is done. */
  lemma ChunkProgressBounds(completed: nat, total: nat)
    requires 0 < total && completed <= total
    ensures ChunkProgress(completed, total) <= 100
    ensures ChunkProgress(completed, total) == 100 <==> completed == total
  {
    var x, y := completed * 100, total * 100;
    DivMonotone(x, y, total);
    DivBetween(y, 100, total);
    if completed < total {
      DivBelow(x, 100, total);
    }
  }

  lemma ChunkProgressMonotone(c1: nat, c2: nat, total: nat)
    requires 0 < total && c1 <= c2
    ensures ChunkProgress(c1, total) <= ChunkProgress(c2, total)
  {
    MulLe(c1, c2, 100);
    DivMonotone(c1 * 100, c2 * 100, total);
  }

  /** Overall progress stays within [0, 100] while a file's own progress does. */
  lemma OverallProgressBounds(fileIndex: nat, progress: nat, fileCount: nat)
    requires fileIndex < fileCount && progress <= 100
    ensures OverallProgress(fileIndex, progress, fileCount) <= 100
  {
    MulLe(fileIndex + 1, fileCount, 100);
    DivMonotone(fileIndex * 100 + progress, fileCount * 100, fileCount);
    DivBetween(fileCount * 100, 100, fileCount);
  }

  /** Overall progress never goes down: neither within a file nor from one file to the next. */
  lemma OverallProgressMonotone(i1: nat, p1: nat, i2: nat, p2: nat, fileCount: nat)
    requires 0 < fileCount && p1 <= 100 && p2 <= 100
    requires i1 < i2 || (i1 == i2 && p1 <= p2)
    ensures OverallProgress(i1, p1, fileCount) <= OverallProgress(i2, p2, fileCount)
  {
    if i1 < i2 {
      MulLe(i1 + 1, i2, 100);
    }
    DivMonotone(i1 * 100 + p1, i2 * 100 + p2, fileCount);
  }

  /** Finishing a file reads the same as starting the next, and finishing the last reads 100. */
  lemma OverallProgressJoins(fileIndex: nat, fileCount: nat)
    requires fileIndex < fileCount
    ensures OverallProgress(fileIndex, 100, fileCount) == OverallProgress(fileIndex + 1, 0, fileCount)
    ensures fileIndex == fileCount - 1 ==> OverallProgress(fileIndex, 100, fileCount) == 100
  {
    if fileIndex == fileCount - 1 {
      DivBetween(fileCount * 100, 100, fileCount);
    }
  }

  /** The progress reported after each completed chunk. */
  function ProgressSteps(n: nat): (r: seq<nat>)
    requires n > 0
    ensures |r| == n
  {
    seq(n, k requires 0 <= k < n => ChunkProgress(k + 1, n))
  }

  /** The reported chunk progress never goes down, stays within 100 and ends at 100. */
  lemma ProgressStepsRise(n: nat)
    requires n > 0
    ensures forall j, k :: 0 <= j <= k < n ==> ProgressSteps(n)[j] <= ProgressSteps(n)[k] <= 100
    ensures ProgressSteps(n)[n - 1] == 100
  {
    var p := ProgressSteps(n);
    forall j, k | 0 <= j <= k < n ensures p[j] <= p[k] <= 100 {
      ChunkProgressMonotone(j + 1, k + 1, n);
      ChunkProgressBounds(k + 1, n);
    }
    ChunkProgressBounds(n, n);
  }

  lemma ProgressIs(progress: seq<nat>, n: nat)
    requires n > 0 && |progress| == n && forall i :: 0 <= i < n ==> progress[i] == ChunkProgress(i + 1, n)
    ensures progress == ProgressSteps(n)
  {
  }

  /** The progress reported after each of the first k of n chunks. */
  function ProgressUpTo(k: nat, n: nat): (r: seq<nat>)
    requires n > 0
    ensures |r| == k
  {
    if k == 0 then [] else ProgressUpTo(k - 1, n) + [ChunkProgress(k, n)]
  }

  lemma {:induction false} ProgressUpToSteps(k: nat, n: nat)
    requires 0 < n && k <= n
    ensures ProgressUpTo(k, n) == ProgressSteps(n)[..k]
  {
    if k > 0 {
      ProgressUpToSteps(k - 1, n);
      assert ProgressSteps(n)[..k] == ProgressSteps(n)[..k - 1] + [ProgressSteps(n)[k - 1]];
    }
  }

  /** What the per-chunk progress callback has delivered for a file of n chunks: the first
      reports of ProgressSteps(n), one per chunk completed so far. */
  predicate ReportsSteps(progress: seq<nat>, n: nat)
  {
    |progress| <= n && (n > 0 ==> progress == ProgressSteps(n)[..|progress|])
  }
}
