/** The stand-alone "non-adaptive" recursive trapezoid: despite its name it refines
    adaptively, exactly like the library routine. */
module TrapezoidalNonAdaptiveRecursiveProgram {
  import opened IntegrationMethods

  /** trapezoidalRecursive: the basic rule at the depth limit; otherwise two_trap when it is
      within tol of one_trap, else both halves with tol/2 and depth + 1. */
  function TrapezoidalRecursive(f: real -> real, a: real, b: real, tol: real, maxDepth: int, depth: int): real
    decreases maxDepth - depth
  {
    if depth >= maxDepth then
      BasicTrapezoidal(f, a, b)
    else
      var c := (a + b) / 2.0;
      var oneTrap := BasicTrapezoidal(f, a, b);
      var twoTrap := BasicTrapezoidal(f, a, c) + BasicTrapezoidal(f, c, b);
      if Abs(twoTrap - oneTrap) < tol then twoTrap
      else TrapezoidalRecursive(f, a, c, tol / 2.0, maxDepth, depth + 1)
           + TrapezoidalRecursive(f, c, b, tol / 2.0, maxDepth, depth + 1)
  }

  /** For every input it computes the library's adaptiveTrapezoidalRecursive. */
  lemma {:induction false} SameAsAdaptive(f: real -> real, a: real, b: real, tol: real, maxDepth: int, depth: int)
    ensures TrapezoidalRecursive(f, a, b, tol, maxDepth, depth) == AdaptiveTrapezoidal(f, a, b, tol, maxDepth, depth)
    decreases maxDepth - depth
  {
    if depth < maxDepth {
      var c := (a + b) / 2.0;
      SameAsAdaptive(f, a, c, tol / 2.0, maxDepth, depth + 1);
      SameAsAdaptive(f, c, b, tol / 2.0, maxDepth, depth + 1);
    }
  }
}
