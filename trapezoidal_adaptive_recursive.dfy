/** The stand-alone recursive adaptive trapezoid, which writes the one- and two-panel
    areas inline from three function values instead of calling basicTrapezoidal. */
module TrapezoidalAdaptiveRecursiveProgram {
  import opened IntegrationMethods

  /** adaptiveTrapezoidalRecursive with inline whole/left/right. */
  function AdaptiveTrapezoidalRecursive(f: real -> real, a: real, b: real, tol: real, maxDepth: int, depth: int): real
    decreases maxDepth - depth
  {
    if depth >= maxDepth then
      BasicTrapezoidal(f, a, b)
    else
      var c := (a + b) / 2.0;
      var fa, fb, fc := f(a), f(b), f(c);
      var whole := (b - a) * (fa + fb) / 2.0;
      var left := (c - a) * (fa + fc) / 2.0;
      var right := (b - c) * (fc + fb) / 2.0;
      if Abs(left + right - whole) < tol then left + right
      else AdaptiveTrapezoidalRecursive(f, a, c, tol / 2.0, maxDepth, depth + 1)
           + AdaptiveTrapezoidalRecursive(f, c, b, tol / 2.0, maxDepth, depth + 1)
  }

  /** The inline panel areas are basicTrapezoidal on [a, b], [a, c] and [c, b]. */
  lemma InlinePanelsAreBasic(f: real -> real, a: real, b: real)
    ensures var c := (a + b) / 2.0;
            && (b - a) * (f(a) + f(b)) / 2.0 == BasicTrapezoidal(f, a, b)
            && (c - a) * (f(a) + f(c)) / 2.0 == BasicTrapezoidal(f, a, c)
            && (b - c) * (f(c) + f(b)) / 2.0 == BasicTrapezoidal(f, c, b)
  {
  }

  /** For every input it computes what the library's adaptiveTrapezoidalRecursive computes. */
  lemma {:induction false} SameAsLibrary(f: real -> real, a: real, b: real, tol: real, maxDepth: int, depth: int)
    ensures AdaptiveTrapezoidalRecursive(f, a, b, tol, maxDepth, depth) == AdaptiveTrapezoidal(f, a, b, tol, maxDepth, depth)
    decreases maxDepth - depth
  {
    if depth < maxDepth {
      var c := (a + b) / 2.0;
      InlinePanelsAreBasic(f, a, b);
      SameAsLibrary(f, a, c, tol / 2.0, maxDepth, depth + 1);
      SameAsLibrary(f, c, b, tol / 2.0, maxDepth, depth + 1);
    }
  }
}
