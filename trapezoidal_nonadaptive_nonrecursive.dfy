/** The stand-alone composite trapezoid rule. */
module TrapezoidalNonAdaptiveNonRecursiveProgram {
  import opened IntegrationMethods

  /** trapezoidalNonRecursive: h = (b - a)/n, endpoint half-weights, then f(a + i*h) for
      i = 1 .. n-1, times h. The ghost count records the calls of f: n + 1 for n >= 1. */
  method TrapezoidalNonRecursive(f: real -> real, a: real, b: real, nIntervals: int)
    returns (r: real, ghost calls: nat)
    requires nIntervals != 0
    ensures r == TrapezoidalRule(f, a, b, nIntervals)
    ensures calls == if nIntervals >= 1 then nIntervals + 1 else 2
  {
    var h := (b - a) / (nIntervals as real);
    var sum := 0.5 * (f(a) + f(b));
    calls := 2;
    var i := 1;
    while i < nIntervals
      invariant 1 <= i <= (if nIntervals >= 1 then nIntervals else 1)
      invariant sum == 0.5 * (f(a) + f(b)) + Samples(f, a, h, 1, i)
      invariant calls == i + 1
    {
      var x := Point(a, h, i);
      assert Samples(f, a, h, 1, i + 1) == Samples(f, a, h, 1, i) + f(x);
      sum := sum + f(x);
      calls := calls + 1;
      i := i + 1;
    }
    if nIntervals < 1 {
      assert Samples(f, a, h, 1, i) == 0.0 == Samples(f, a, h, 1, nIntervals);
    }
    r := h * sum;
  }
}
