/** parallel_non_adaptive_trapezoidal: n panels of width h = (b - a)/n split into
    num_threads chunks of n / num_threads panels (the last chunk running to n), each chunk
    summed by a worker and added onto the caller's result. The workers run here one after
    the other, in chunk order. */
module ParallelTrapezoidal {
  import IM = IntegrationMethods

  /** C++ `/` on int: the quotient truncated toward zero (y > 0 here). */
  function TruncDiv(x: int, y: int): (q: int)
    requires y > 0
    ensures x >= 0 ==> q == x / y
  {
    if x >= 0 then x / y else -((-x) / y)
  }

  /** chunk_size = n / num_threads. */
  function ChunkSize(n: int, threads: int): int
    requires threads >= 1
  {
    TruncDiv(n, threads)
  }

  function ChunkStart(n: int, threads: int, i: int): int
    requires threads >= 1
  {
    i * ChunkSize(n, threads)
  }

  /** The last chunk ends at n, every other one chunk_size panels after its start. */
  function ChunkEnd(n: int, threads: int, i: int): int
    requires threads >= 1
  {
    if i == threads - 1 then n else ChunkStart(n, threads, i) + ChunkSize(n, threads)
  }

  /** The source's panel contribution 0.5*h*(f(x1) + f(x2)) with x1 = a + i*h, x2 = a + (i+1)*h. */
  function Panel(f: real -> real, a: real, h: real, i: int): real {
    0.5 * h * (f(IM.Point(a, h, i)) + f(IM.Point(a, h, i + 1)))
  }

  /** The panels lo <= i < hi added in order; 0 for an empty range. */
  function PanelRange(f: real -> real, a: real, h: real, lo: int, hi: int): real
    decreases hi - lo
  {
    if hi <= lo then 0.0 else PanelRange(f, a, h, lo, hi - 1) + Panel(f, a, h, hi - 1)
  }

  lemma {:induction false} PanelRangeSplit(f: real -> real, a: real, h: real, lo: int, mid: int, hi: int)
    requires lo <= mid <= hi
    ensures PanelRange(f, a, h, lo, hi) == PanelRange(f, a, h, lo, mid) + PanelRange(f, a, h, mid, hi)
    decreases hi - mid
  {
    if hi > mid {
      PanelRangeSplit(f, a, h, lo, mid, hi - 1);
    }
  }

  /** Each panel is basicTrapezoidal on [a + i*h, a + (i+1)*h], so the panels 0 .. n-1 are
      the composite trapezoid rule with n intervals. */
  lemma {:induction false} PanelRangeIsTrapezoids(f: real -> real, a: real, h: real, n: nat)
    ensures PanelRange(f, a, h, 0, n) == IM.PanelTrapezoids(f, a, h, n)
  {
    if n > 0 {
      PanelRangeIsTrapezoids(f, a, h, n - 1);
      PanelIsTrapezoid(f, a, h, n - 1);
    }
  }

  /** The source's panel expression is basicTrapezoidal on that panel. */
  lemma PanelIsTrapezoid(f: real -> real, a: real, h: real, i: int)
    ensures Panel(f, a, h, i) == IM.TrapezoidPanels(f, a, h)(i)
  {
    IM.TrapezoidPanel(f, a, h, i);
    HalfWidthIsMean(h, f(IM.Point(a, h, i)), f(IM.Point(a, h, i + 1)));
  }

  lemma HalfWidthIsMean(h: real, x: real, y: real)
    ensures 0.5 * h * (x + y) == h * IM.Mean(x, y)
  {
  }

  lemma PanelRangeIsTrapezoidalRule(f: real -> real, a: real, b: real, n: int)
    requires n >= 1
    ensures PanelRange(f, a, (b - a) / (n as real), 0, n) == IM.TrapezoidalRule(f, a, b, n)
  {
    PanelRangeIsTrapezoids(f, a, (b - a) / (n as real), n);
    IM.TrapezoidalRuleIsPanelSum(f, a, b, n);
  }

  /** For 0 <= n and at least one thread the chunks are contiguous and cover [0, n): chunk 0
      starts at 0, each chunk ends where the next starts, the last ends at n, and no chunk
      runs backwards. */
  lemma ChunksPartition(n: int, threads: int, i: int)
    requires n >= 0 && threads >= 1 && 0 <= i < threads
    ensures ChunkStart(n, threads, 0) == 0
    ensures 0 <= ChunkStart(n, threads, i) <= ChunkEnd(n, threads, i) <= n
    ensures i < threads - 1 ==> ChunkEnd(n, threads, i) == ChunkStart(n, threads, i + 1)
    ensures ChunkEnd(n, threads, threads - 1) == n
  {
    var c := ChunkSize(n, threads);
    assert c * threads <= n;
    assert (i + 1) * c == i * c + c;
    assert i * c <= (threads - 1) * c <= threads * c by {
      MulMonotone(i, threads - 1, c);
      MulMonotone(threads - 1, threads, c);
    }
  }

  lemma MulMonotone(x: int, y: int, c: nat)
    requires x <= y
    ensures x * c <= y * c
  {
    assert y * c - x * c == (y - x) * c;
  }

  /** With more threads than panels, chunk_size is 0 and every chunk but the last is empty. */
  lemma MoreThreadsThanPanels(n: int, threads: int, i: int)
    requires 0 <= n < threads && 0 <= i < threads - 1
    ensures ChunkSize(n, threads) == 0
    ensures ChunkStart(n, threads, i) == ChunkEnd(n, threads, i) == 0
    ensures ChunkStart(n, threads, threads - 1) == 0 && ChunkEnd(n, threads, threads - 1) == n
  {
  }

  /** For a negative n every chunk is empty: no chunk starts before it ends. */
  lemma NegativeChunksEmpty(n: int, threads: int, i: int)
    requires n < 0 && threads >= 1 && 0 <= i < threads
    ensures ChunkEnd(n, threads, i) <= ChunkStart(n, threads, i)
  {
    var q := (-n) / threads;
    assert ChunkSize(n, threads) == -q;
    assert q * threads <= -n;
    assert ChunkStart(n, threads, i) == -(i * q);
    if i == threads - 1 {
      MulMonotone(threads - 1, threads, q);
      assert i * q <= threads * q;
    }
  }

  /** The worker lambda: adds up the panels start <= i < end and counts two evaluations each. */
  method Worker(f: real -> real, a: real, h: real, start: int, end: int) returns (localResult: real, evals: int)
    ensures localResult == PanelRange(f, a, h, start, end)
    ensures evals == 2 * (if end > start then end - start else 0)
  {
    localResult, evals := 0.0, 0;
    var i := start;
    while i < end
      invariant start <= i <= (if end > start then end else start)
      invariant localResult == PanelRange(f, a, h, start, i)
      invariant evals == 2 * (i - start)
    {
      var x1 := IM.Point(a, h, i);
      var x2 := IM.Point(a, h, i + 1);
      localResult := localResult + 0.5 * h * (f(x1) + f(x2));
      evals := evals + 2;
      i := i + 1;
    }
  }

  /** The whole routine: each chunk's sum is added onto `result`, which is not reset. For
      n >= 0 the chunks together add the composite rule's n panels and cost 2n evaluations;
      for n < 0 nothing is added. For n = 0 the width h is never used. */
  method ParallelNonAdaptiveTrapezoidal(a: real, b: real, n: int, numThreads: int, f: real -> real, result: real)
    returns (result': real, functionEvals: int)
    requires numThreads >= 1
    ensures n >= 0 ==> result' == result + PanelRange(f, a, if n != 0 then (b - a) / (n as real) else 0.0, 0, n)
    ensures n < 0 ==> result' == result
    ensures functionEvals == 2 * (if n >= 0 then n else 0)
  {
    var h := if n != 0 then (b - a) / (n as real) else 0.0;
    var chunkSize := TruncDiv(n, numThreads);
    result', functionEvals := result, 0;
    for i := 0 to numThreads
      invariant n >= 0 ==> result' == result + PanelRange(f, a, h, 0, if i == 0 then 0 else ChunkEnd(n, numThreads, i - 1))
      invariant n >= 0 ==> functionEvals == 2 * (if i == 0 then 0 else ChunkEnd(n, numThreads, i - 1))
      invariant n < 0 ==> result' == result && functionEvals == 0
    {
      var start := i * chunkSize;
      var end := if i == numThreads - 1 then n else start + chunkSize;
      assert start == ChunkStart(n, numThreads, i) && end == ChunkEnd(n, numThreads, i);
      var localResult, evals := Worker(f, a, h, start, end);
      if n >= 0 {
        ChunksPartition(n, numThreads, i);
        if i > 0 {
          ChunksPartition(n, numThreads, i - 1);
        }
        PanelRangeSplit(f, a, h, 0, start, end);
      } else {
        NegativeChunksEmpty(n, numThreads, i);
      }
      result' := result' + localResult;
      functionEvals := functionEvals + evals;
    }
    if n >= 0 {
      ChunksPartition(n, numThreads, numThreads - 1);
    }
  }
}
