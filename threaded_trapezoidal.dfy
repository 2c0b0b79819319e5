/** The threaded composite trapezoid program: `trapezoidal` and `thread_trapezoidal` share
    one body, and main splits [a, b] into t equal pieces of width (b - a)/t, integrates each
    with n / t intervals and adds the pieces into total_result. The threads run here one
    after the other, in index order. */
module ThreadedTrapezoidal {
  import IM = IntegrationMethods
  import PT = ParallelTrapezoidal

  /** trapezoidal: the endpoints with weight 1/2, the interior points a + i*h with weight 1,
      all times h. n = 0 divides by zero in the source and is excluded. */
  method Trapezoidal(a: real, b: real, n: int, f: real -> real) returns (r: real)
    requires n != 0
    ensures r == IM.TrapezoidalRule(f, a, b, n)
  {
    var h := (b - a) / (n as real);
    var result := 0.5 * (f(a) + f(b));
    var i := 1;
    while i < n
      invariant 1 <= i <= (if n >= 1 then n else 1)
      invariant result == 0.5 * (f(a) + f(b)) + IM.Samples(f, a, h, 1, i)
    {
      result := result + f(IM.Point(a, h, i));
      i := i + 1;
    }
    if n < 1 {
      assert IM.Samples(f, a, h, 1, i) == 0.0 == IM.Samples(f, a, h, 1, n);
    }
    r := result * h;
  }

  /** thread_trapezoidal: the same body as trapezoidal, so the same value for every input. */
  method ThreadTrapezoidal(a: real, b: real, n: int, f: real -> real) returns (r: real)
    requires n != 0
    ensures r == IM.TrapezoidalRule(f, a, b, n)
  {
    r := Trapezoidal(a, b, n, f);
  }

  /** Piece i of t covers [a + i*h, a + i*h + h] with h = (b - a)/t. */
  function PieceStart(a: real, h: real, i: int): real {
    IM.Point(a, h, i)
  }

  /** The sum of the first k pieces' results, each with m intervals. */
  function PieceResults(f: real -> real, a: real, h: real, m: int, k: int): real
    requires m != 0
    decreases k
  {
    if k <= 0 then 0.0
    else PieceResults(f, a, h, m, k - 1) + IM.TrapezoidalRule(f, PieceStart(a, h, k - 1), PieceStart(a, h, k - 1) + h, m)
  }

  /** Consecutive pieces share an endpoint, the first starts at a and the last ends at b. */
  lemma PiecesTile(a: real, b: real, t: int, i: int)
    requires t >= 1 && 0 <= i < t
    ensures PieceStart(a, (b - a) / (t as real), 0) == a
    ensures PieceStart(a, (b - a) / (t as real), i) + (b - a) / (t as real) == PieceStart(a, (b - a) / (t as real), i + 1)
    ensures PieceStart(a, (b - a) / (t as real), t - 1) + (b - a) / (t as real) == b
  {
    var h := (b - a) / (t as real);
    assert ((i + 1) as real) * h == (i as real) * h + h;
    assert ((t - 1) as real) * h + h == (t as real) * h;
    IM.LastPoint(a, b, t);
  }

  /** Each thread gets n / t intervals, so t of them use t*(n/t) <= n intervals in all, with
      equality exactly when t divides n. */
  lemma IntervalsUsed(n: nat, t: int)
    requires t >= 1
    ensures t * PT.TruncDiv(n, t) <= n
    ensures t * PT.TruncDiv(n, t) == n <==> n % t == 0
  {
    assert n == t * (n / t) + n % t;
  }

  /** main's per-thread loop: total_result starts at 0 and each piece's local result is added.
      With t <= 0 no thread is started and the total is 0. */
  method ThreadedTotal(a: real, b: real, n: int, t: int, f: real -> real) returns (totalResult: real)
    requires t >= 1 ==> PT.TruncDiv(n, t) != 0
    ensures t <= 0 ==> totalResult == 0.0
    ensures t >= 1 ==> totalResult == PieceResults(f, a, (b - a) / (t as real), PT.TruncDiv(n, t), t)
  {
    totalResult := 0.0;
    if t <= 0 {
      return;
    }
    var h := (b - a) / (t as real);
    var m := PT.TruncDiv(n, t);
    for i := 0 to t
      invariant totalResult == PieceResults(f, a, h, m, i)
    {
      var localA := PieceStart(a, h, i);
      var localB := localA + h;
      var localResult := ThreadTrapezoidal(localA, localB, m, f);
      totalResult := totalResult + localResult;
    }
  }

  /** The piece results of an affine function telescope to the exact integral over [a, b]. */
  lemma {:induction false} PieceResultsExactForAffine(f: real -> real, slope: real, offset: real,
                                                      a: real, h: real, m: int, k: nat)
    requires forall x :: f(x) == slope * x + offset
    requires m >= 1
    ensures PieceResults(f, a, h, m, k)
            == IM.AffinePrimitive(slope, offset, PieceStart(a, h, k)) - IM.AffinePrimitive(slope, offset, a)
  {
    if k == 0 {
      assert PieceStart(a, h, 0) == a;
    } else {
      PieceResultsExactForAffine(f, slope, offset, a, h, m, k - 1);
      PieceEnd(a, h, k - 1);
      PieceExactForAffine(f, slope, offset, PieceStart(a, h, k - 1), h, m);
    }
  }

  /** Piece k ends where piece k + 1 starts. */
  lemma PieceEnd(a: real, h: real, k: int)
    ensures PieceStart(a, h, k) + h == PieceStart(a, h, k + 1)
  {
    assert ((k + 1) as real) * h == (k as real) * h + h;
  }

  lemma PieceExactForAffine(f: real -> real, slope: real, offset: real, p: real, h: real, m: int)
    requires forall x :: f(x) == slope * x + offset
    requires m >= 1
    ensures IM.TrapezoidalRule(f, p, p + h, m)
            == IM.AffinePrimitive(slope, offset, p + h) - IM.AffinePrimitive(slope, offset, p)
  {
    IM.TrapezoidalRuleExactForAffine(f, slope, offset, p, p + h, m);
    PrimitiveDifference(slope, offset, p, p + h);
  }

  lemma PrimitiveDifference(m: real, c: real, p: real, q: real)
    ensures m * (q * q - p * p) / 2.0 + c * (q - p) == IM.AffinePrimitive(m, c, q) - IM.AffinePrimitive(m, c, p)
  {
  }

  /** So for an affine integrand the threaded total is the exact integral over [a, b]. */
  lemma ThreadedTotalExactForAffine(f: real -> real, slope: real, offset: real, a: real, b: real, n: int, t: int)
    requires forall x :: f(x) == slope * x + offset
    requires t >= 1 && PT.TruncDiv(n, t) >= 1
    ensures PieceResults(f, a, (b - a) / (t as real), PT.TruncDiv(n, t), t)
            == IM.AffinePrimitive(slope, offset, b) - IM.AffinePrimitive(slope, offset, a)
  {
    PieceResultsExactForAffine(f, slope, offset, a, (b - a) / (t as real), PT.TruncDiv(n, t), t);
    IM.LastPoint(a, b, t);
  }
}
