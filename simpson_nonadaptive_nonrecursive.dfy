/** The stand-alone composite Simpson rule and its driver, which integrates x*x over
    [2, 10] with 1000 intervals. */
module SimpsonNonAdaptiveNonRecursiveProgram {
  import opened IntegrationMethods

  /** simpsonNonRecursive: an odd count is bumped to even; endpoints weigh 1, odd interior
      indices 4, even ones 2; the result is h*sum/3. This file's copy of the loop in
      IntegrationMethods.SimpsonNonRecursive, proved against the same SimpsonRule. */
  method SimpsonNonRecursive(f: real -> real, a: real, b: real, nIntervals: int) returns (r: real)
    requires EvenUp(nIntervals) != 0
    ensures r == SimpsonRule(f, a, b, nIntervals)
  {
    var n := nIntervals;
    if n % 2 != 0 {
      n := n + 1;
    }
    var h := (b - a) / (n as real);
    var sum := f(a) + f(b);
    var i := 1;
    while i < n
      invariant 1 <= i <= (if n >= 1 then n else 1)
      invariant sum == f(a) + f(b) + WeightedSamples(f, a, h, 1, i)
    {
      var x := Point(a, h, i);
      assert WeightedSamples(f, a, h, 1, i + 1) == WeightedSamples(f, a, h, 1, i) + SimpsonWeight(i) * f(x);
      sum := sum + (if i % 2 == 0 then 2.0 * f(x) else 4.0 * f(x));
      i := i + 1;
    }
    if n < 1 {
      assert WeightedSamples(f, a, h, 1, i) == 0.0 == WeightedSamples(f, a, h, 1, n);
    }
    r := h * sum / 3.0;
  }

  /** The driver's call returns exactly (1000 - 8)/3, the value it prints as exact. */
  lemma DriverResult()
    ensures SimpsonRule((x: real) => x * x, 2.0, 10.0, 1000) == (1000.0 - 8.0) / 3.0
  {
    SimpsonRuleExactForSquare((x: real) => x * x, 2.0, 10.0, 1000);
  }
}
