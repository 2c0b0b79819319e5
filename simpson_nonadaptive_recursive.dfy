/** The stand-alone "non-adaptive" recursive Simpson routine and its driver, which
    integrates x*x over [2, 10] with tolerance 1e-7 and depth limit 10. */
module SimpsonNonAdaptiveRecursiveProgram {
  import opened IntegrationMethods

  /** simpsonNonAdaptiveRecursive: basicSimpson at the depth limit; otherwise left + right
      when within tol of whole, else both halves with tol/2 and depth + 1. */
  function SimpsonNonAdaptiveRecursive(f: real -> real, a: real, b: real, tol: real, maxDepth: int, depth: int): real
    decreases maxDepth - depth
  {
    if depth >= maxDepth then
      BasicSimpson(f, a, b)
    else
      var c := (a + b) / 2.0;
      var fa, fb, fc := f(a), f(b), f(c);
      var whole := (b - a) * (fa + 4.0 * fc + fb) / 6.0;
      var left := (c - a) * (fa + 4.0 * f((a + c) / 2.0) + fc) / 6.0;
      var right := (b - c) * (fc + 4.0 * f((c + b) / 2.0) + fb) / 6.0;
      if Abs(left + right - whole) < tol then left + right
      else SimpsonNonAdaptiveRecursive(f, a, c, tol / 2.0, maxDepth, depth + 1)
           + SimpsonNonAdaptiveRecursive(f, c, b, tol / 2.0, maxDepth, depth + 1)
  }

  /** For every input it computes the library's adaptiveSimpsonRecursive. This file's routine
      is a separate copy of the library's simpsonNonAdaptiveRecursive, so the fact is proved
      again for it; IntegrationMethods.SimpsonNonAdaptiveIsAdaptive is the library's. */
  lemma {:induction false} SameAsAdaptive(f: real -> real, a: real, b: real, tol: real, maxDepth: int, depth: int)
    ensures SimpsonNonAdaptiveRecursive(f, a, b, tol, maxDepth, depth) == AdaptiveSimpson(f, a, b, tol, maxDepth, depth)
    decreases maxDepth - depth
  {
    if depth < maxDepth {
      var c := (a + b) / 2.0;
      SameAsAdaptive(f, a, c, tol / 2.0, maxDepth, depth + 1);
      SameAsAdaptive(f, c, b, tol / 2.0, maxDepth, depth + 1);
    }
  }

  /** The driver's call: for x*x on [2, 10] the two half panels add up exactly to the
      whole panel, so the first comparison accepts, and the result is (1000 - 8)/3. */
  lemma DriverResult()
    ensures var f := (x: real) => x * x;
            && BasicSimpson(f, 2.0, 6.0) + BasicSimpson(f, 6.0, 10.0) == BasicSimpson(f, 2.0, 10.0)
            && SimpsonNonAdaptiveRecursive(f, 2.0, 10.0, 1e-7, 10, 0) == (1000.0 - 8.0) / 3.0
  {
    var f := (x: real) => x * x;
    BasicSimpsonExactForSquare(f, 2.0, 6.0);
    BasicSimpsonExactForSquare(f, 6.0, 10.0);
    BasicSimpsonExactForSquare(f, 2.0, 10.0);
    SameAsAdaptive(f, 2.0, 10.0, 1e-7, 10, 0);
    AdaptiveSimpsonExactForSquare(f, 2.0, 10.0, 1e-7, 10, 0);
  }
}
