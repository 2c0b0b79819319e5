/** The Newton and secant solvers of solver.h. A solver remembers its tolerance, its
    iteration limit and the iteration at which its last run stopped. The function whose
    root is sought is a pair of parameters: its values f and its derivative fp. The NaN the
    secant method returns is None. */
module RootSolvers {
  import opened Wrappers

  function Abs(x: real): (r: real)
    ensures r >= 0.0 && (r == x || r == -x)
  {
    if x < 0.0 then -x else x
  }

  /** The threshold below which |f(x1) - f(x0)| counts as too small to divide by. */
  const SecantGuard: real := 0.000000000001

  /** Newton's update x - f(x)/fp(x), from the values at x. */
  function NewtonPoint(x: real, fx: real, dfx: real): real
    requires dfx != 0.0
  {
    x - fx / dfx
  }

  /** Newton divides by fp(x) at every iterate whose |f| is not below tolerance; nothing
      guards that division, so the derivative must be non-zero at each of those iterates
      among the first n. */
  predicate NewtonDefined(f: real -> real, fp: real -> real, tol: real, x: real, n: int)
    decreases n
  {
    n <= 0 || Abs(f(x)) < tol || (fp(x) != 0.0 && NewtonDefined(f, fp, tol, NewtonPoint(x, f(x), fp(x)), n - 1))
  }

  /** The root and final iteration of Newton's loop entered at iteration i with iterate x:
      stop with (x, i) once |f(x)| < tol, else step to x - f(x)/fp(x); after the last
      iteration the result is (x, maxIterations). */
  function NewtonFrom(f: real -> real, fp: real -> real, tol: real, x: real, i: int, maxIterations: int): (real, int)
    requires NewtonDefined(f, fp, tol, x, maxIterations - i)
    decreases maxIterations - i
  {
    if i >= maxIterations then (x, maxIterations)
    else if Abs(f(x)) < tol then (x, i)
    else NewtonFrom(f, fp, tol, NewtonPoint(x, f(x), fp(x)), i + 1, maxIterations)
  }

  /** The final iteration lies between the starting one and the limit; stopping before the
      limit means |f| at the returned root is below tolerance; with no iteration left the
      iterate itself and the limit are returned. */
  lemma {:induction false} NewtonFromBounds(f: real -> real, fp: real -> real, tol: real, x: real, i: int, maxIterations: int)
    requires NewtonDefined(f, fp, tol, x, maxIterations - i)
    ensures i >= maxIterations ==> NewtonFrom(f, fp, tol, x, i, maxIterations) == (x, maxIterations)
    ensures i < maxIterations ==> i <= NewtonFrom(f, fp, tol, x, i, maxIterations).1 <= maxIterations
    ensures NewtonFrom(f, fp, tol, x, i, maxIterations).1 < maxIterations
            ==> Abs(f(NewtonFrom(f, fp, tol, x, i, maxIterations).0)) < tol
    decreases maxIterations - i
  {
    if i < maxIterations && Abs(f(x)) >= tol {
      NewtonFromBounds(f, fp, tol, NewtonPoint(x, f(x), fp(x)), i + 1, maxIterations);
    }
  }

  /** For an affine f with slope m != 0 one Newton step lands on the root -c/m. */
  lemma NewtonStepAffine(m: real, c: real, x: real)
    requires m != 0.0
    ensures NewtonPoint(x, m * x + c, m) == -c / m
  {
    assert (m * x + c) / m == x + c / m;
  }

  /** So for such an f and a positive tolerance, two iterations suffice: the result is the
      root, reached at iteration 0 or 1. */
  lemma NewtonExactForAffine(f: real -> real, fp: real -> real, m: real, c: real, tol: real, x0: real, maxIterations: int)
    requires forall x :: f(x) == m * x + c && fp(x) == m
    requires m != 0.0 && tol > 0.0 && maxIterations >= 2
    ensures NewtonDefined(f, fp, tol, x0, maxIterations)
    ensures NewtonFrom(f, fp, tol, x0, 0, maxIterations).1 <= 1
    ensures Abs(f(NewtonFrom(f, fp, tol, x0, 0, maxIterations).0)) < tol
  {
    var root := -c / m;
    NewtonStepAffine(m, c, x0);
    assert f(root) == 0.0 by {
      assert m * (-c / m) == -c;
    }
    assert NewtonDefined(f, fp, tol, root, maxIterations - 1);
    NewtonFromBounds(f, fp, tol, x0, 0, maxIterations);
  }

  /** x2 = x1 - f(x1)(x1 - x0)/(f(x1) - f(x0)). */
  function SecantPoint(x0: real, x1: real, fx0: real, fx1: real): real
    requires fx1 != fx0
  {
    x1 - fx1 * (x1 - x0) / (fx1 - fx0)
  }

  /** For an affine f with slope m != 0 and two different guesses the secant point is the
      root -c/m. */
  lemma SecantPointAffine(m: real, c: real, x0: real, x1: real)
    requires m != 0.0 && x0 != x1
    ensures (m * x1 + c) != (m * x0 + c)
    ensures SecantPoint(x0, x1, m * x0 + c, m * x1 + c) == -c / m
  {
    var d := x1 - x0;
    assert (m * x1 + c) - (m * x0 + c) == m * d;
    assert m * d != 0.0;
    assert (m * x1 + c) * d / (m * d) == (m * x1 + c) / m;
    assert (m * x1 + c) / m == x1 + c / m;
  }

  /** The result and the new final iteration of the secant loop entered at iteration i with
      guesses x0, x1. The near-zero denominator test comes first and returns NaN leaving
      finalIteration as it was (None); |f(x1)| < tol returns x1 at i; running out of
      iterations returns NaN at maxIterations. */
  function SecantFrom(f: real -> real, tol: real, x0: real, x1: real, i: int, maxIterations: int): (Option<real>, Option<int>)
    decreases maxIterations - i
  {
    if i >= maxIterations then (None, Some(maxIterations))
    else if Abs(f(x1) - f(x0)) < SecantGuard then (None, None)
    else if Abs(f(x1)) < tol then (Some(x1), Some(i))
    else SecantFrom(f, tol, x1, SecantPoint(x0, x1, f(x0), f(x1)), i + 1, maxIterations)
  }

  /** A secant result is always a root to within tolerance, found before the limit; a
      final iteration, when one is set, is between i and the limit, and reaching the limit
      means NaN; a NaN without a final iteration comes from the denominator guard. */
  lemma {:induction false} SecantFromBounds(f: real -> real, tol: real, x0: real, x1: real, i: int, maxIterations: int)
    ensures var (r, fin) := SecantFrom(f, tol, x0, x1, i, maxIterations);
            && (r.Some? ==> Abs(f(r.value)) < tol && fin.Some? && i <= fin.value < maxIterations)
            && (fin.Some? ==> (i <= fin.value <= maxIterations || (i > maxIterations && fin.value == maxIterations)))
            && (fin == Some(maxIterations) ==> r.None?)
            && (i >= maxIterations ==> r.None? && fin == Some(maxIterations))
    decreases maxIterations - i
  {
    if i < maxIterations && Abs(f(x1) - f(x0)) >= SecantGuard && Abs(f(x1)) >= tol {
      SecantFromBounds(f, tol, x1, SecantPoint(x0, x1, f(x0), f(x1)), i + 1, maxIterations);
    }
  }

  /** For an affine f with slope m != 0, guesses far enough apart for the guard and a
      tolerance no smaller than the guard, the secant method returns the exact root within
      two iterations. */
  lemma SecantExactForAffine(f: real -> real, m: real, c: real, tol: real, x0: real, x1: real, maxIterations: int)
    requires forall x :: f(x) == m * x + c
    requires m != 0.0 && tol >= SecantGuard && maxIterations >= 2
    requires Abs(f(x1) - f(x0)) >= SecantGuard
    ensures SecantFrom(f, tol, x0, x1, 0, maxIterations).0 == Some(if Abs(f(x1)) < tol then x1 else -c / m)
    ensures SecantFrom(f, tol, x0, x1, 0, maxIterations).1.Some?
    ensures SecantFrom(f, tol, x0, x1, 0, maxIterations).1.value <= 1
  {
    if Abs(f(x1)) >= tol {
      assert x0 != x1;
      SecantPointAffine(m, c, x0, x1);
      assert f(x0) == m * x0 + c && f(x1) == m * x1 + c;
      var x2 := SecantPoint(x0, x1, f(x0), f(x1));
      assert x2 == -c / m;
      assert f(x2) == 0.0 by {
        assert m * (-c / m) == -c;
      }
      assert Abs(f(x2) - f(x1)) == Abs(f(x1));
    }
  }

  class NewtonSolver {
    var finalIteration: int
    const tolerance: real
    const maxIterations: int

    constructor (tolerance: real, maxIterations: int)
      ensures this.tolerance == tolerance && this.maxIterations == maxIterations
      ensures finalIteration == 0
    {
      this.tolerance, this.maxIterations := tolerance, maxIterations;
      finalIteration := 0;
    }

    function GetFinalIteration(): (n: int)
      reads this
      ensures n == finalIteration
    {
      finalIteration
    }

    /** computeRoot(func, x0): Newton's loop. It stops at most at maxIterations; stopping
        earlier means |f| at the result is below tolerance. */
    method ComputeRoot(f: real -> real, fp: real -> real, x0: real) returns (r: real)
      requires NewtonDefined(f, fp, tolerance, x0, maxIterations)
      modifies this
      ensures (r, finalIteration) == NewtonFrom(f, fp, tolerance, x0, 0, maxIterations)
      ensures maxIterations <= 0 ==> r == x0 && finalIteration == maxIterations
      ensures maxIterations > 0 ==> 0 <= finalIteration <= maxIterations
      ensures finalIteration < maxIterations ==> Abs(f(r)) < tolerance
    {
      NewtonFromBounds(f, fp, tolerance, x0, 0, maxIterations);
      var x := x0;
      var i := 0;
      while i < maxIterations
        invariant 0 <= i <= (if maxIterations > 0 then maxIterations else 0)
        invariant NewtonDefined(f, fp, tolerance, x, maxIterations - i)
        invariant NewtonFrom(f, fp, tolerance, x, i, maxIterations) == NewtonFrom(f, fp, tolerance, x0, 0, maxIterations)
      {
        var fx := f(x);
        var dfx := fp(x);
        if Abs(fx) < tolerance {
          finalIteration := i;
          return x;
        }
        x := NewtonPoint(x, fx, dfx);
        i := i + 1;
      }
      finalIteration := maxIterations;
      return x;
    }
  }

  class SecantSolver {
    var finalIteration: int
    const tolerance: real
    const maxIterations: int

    constructor (tolerance: real, maxIterations: int)
      ensures this.tolerance == tolerance && this.maxIterations == maxIterations
      ensures finalIteration == 0
    {
      this.tolerance, this.maxIterations := tolerance, maxIterations;
      finalIteration := 0;
    }

    function GetFinalIteration(): (n: int)
      reads this
      ensures n == finalIteration
    {
      finalIteration
    }

    /** computeRoot(func, x0, x1): the secant loop; None is the NaN it returns. A value is
        returned only when |f| there is below tolerance; a NaN from the denominator guard
        leaves finalIteration as it was. */
    method ComputeRootFrom(f: real -> real, x0: real, x1: real) returns (r: Option<real>)
      modifies this
      ensures var (root, fin) := SecantFrom(f, tolerance, x0, x1, 0, maxIterations);
              r == root && finalIteration == (if fin.Some? then fin.value else old(finalIteration))
      ensures r.Some? ==> Abs(f(r.value)) < tolerance && 0 <= finalIteration < maxIterations
    {
      SecantFromBounds(f, tolerance, x0, x1, 0, maxIterations);
      var a, b := x0, x1;
      var i := 0;
      while i < maxIterations
        invariant 0 <= i <= (if maxIterations > 0 then maxIterations else 0)
        invariant SecantFrom(f, tolerance, a, b, i, maxIterations) == SecantFrom(f, tolerance, x0, x1, 0, maxIterations)
        invariant finalIteration == old(finalIteration)
      {
        var fx0 := f(a);
        var fx1 := f(b);
        if Abs(fx1 - fx0) < SecantGuard {
          return None;
        }
        if Abs(fx1) < tolerance {
          finalIteration := i;
          return Some(b);
        }
        var x2 := SecantPoint(a, b, fx0, fx1);
        a, b := b, x2;
        i := i + 1;
      }
      finalIteration := maxIterations;
      return None;
    }

    /** computeRoot(func, x0): the secant loop from x0 and x0 + 0.5. */
    method ComputeRoot(f: real -> real, x0: real) returns (r: Option<real>)
      modifies this
      ensures var (root, fin) := SecantFrom(f, tolerance, x0, x0 + 0.5, 0, maxIterations);
              r == root && finalIteration == (if fin.Some? then fin.value else old(finalIteration))
      ensures r.Some? ==> Abs(f(r.value)) < tolerance && 0 <= finalIteration < maxIterations
    {
      r := ComputeRootFrom(f, x0, x0 + 0.5);
    }
  }
}
