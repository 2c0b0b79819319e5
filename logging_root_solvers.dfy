/** The Newton and secant solvers of solver_p.h: the same loops as solver.h with
    safeguards (a derivative guard and a step limit for Newton, a step-size convergence
    test) and a public iterationRoots log that every run appends to and nothing clears. The
    NaN the secant method returns is None. */
module LoggingRootSolvers {
  import opened Wrappers
  import RS = RootSolvers

  /** Below this |fp(x)| Newton gives up. */
  const DerivativeGuard: real := 0.000000000001

  /** A proposed Newton step of more than this is shortened. */
  const StepLimit: real := 100.0

  /** The step limit: a proposed next iterate more than StepLimit away from x is moved to
      x plus a tenth of the step. */
  function Limited(x: real, next: real): real {
    if RS.Abs(next - x) > StepLimit then x + (next - x) / 10.0 else next
  }

  /** The limited step goes the same way as the proposed one and is never longer; a step of
      at most StepLimit is kept as it is, a longer one is cut to a tenth. */
  lemma LimitedStep(x: real, next: real)
    ensures RS.Abs(next - x) <= StepLimit ==> Limited(x, next) == next
    ensures RS.Abs(next - x) > StepLimit ==> Limited(x, next) - x == (next - x) / 10.0
    ensures RS.Abs(Limited(x, next) - x) <= RS.Abs(next - x)
    ensures (Limited(x, next) - x > 0.0 <==> next - x > 0.0) && (Limited(x, next) - x < 0.0 <==> next - x < 0.0)
  {
  }

  /** Newton's loop entered at iteration i with iterate x: the root returned, the new final
      iteration (None when the derivative guard returns and leaves it as it was) and the
      iterates appended to the log. */
  function NewtonFrom(f: real -> real, fp: real -> real, tol: real, x: real, i: int, maxIterations: int)
    : (real, Option<int>, seq<real>)
    decreases maxIterations - i
  {
    if i >= maxIterations then (x, Some(maxIterations), [])
    else if RS.Abs(fp(x)) < DerivativeGuard then (x, None, [])
    else
      var next := Limited(x, RS.NewtonPoint(x, f(x), fp(x)));
      if RS.Abs(next - x) < tol then (next, Some(i), [next])
      else
        var rest := NewtonFrom(f, fp, tol, next, i + 1, maxIterations);
        (rest.0, rest.1, [next] + rest.2)
  }

  /** One run logs at most one iterate per iteration it performs. */
  lemma {:induction false} NewtonLogLength(f: real -> real, fp: real -> real, tol: real, x: real, i: int, maxIterations: int)
    ensures |NewtonFrom(f, fp, tol, x, i, maxIterations).2| <= (if maxIterations > i then maxIterations - i else 0)
    decreases maxIterations - i
  {
    if i < maxIterations && RS.Abs(fp(x)) >= DerivativeGuard {
      var next := Limited(x, RS.NewtonPoint(x, f(x), fp(x)));
      if RS.Abs(next - x) >= tol {
        NewtonLogLength(f, fp, tol, next, i + 1, maxIterations);
      }
    }
  }

  /** A derivative stop returns an iterate where |fp| is below the guard; otherwise the final
      iteration lies between i and the limit, and a run that stops before the limit returns
      the last iterate it logged. */
  lemma {:induction false} NewtonFromBounds(f: real -> real, fp: real -> real, tol: real, x: real, i: int, maxIterations: int)
    ensures var (r, fin, log) := NewtonFrom(f, fp, tol, x, i, maxIterations);
            && (fin.None? ==> RS.Abs(fp(r)) < DerivativeGuard)
            && (fin.Some? && i <= maxIterations ==> i <= fin.value <= maxIterations)
            && (fin.Some? && fin.value < maxIterations ==> log != [] && log[|log| - 1] == r)
            && (log != [] ==> log[|log| - 1] == r)
    decreases maxIterations - i
  {
    if i < maxIterations && RS.Abs(fp(x)) >= DerivativeGuard {
      var next := Limited(x, RS.NewtonPoint(x, f(x), fp(x)));
      if RS.Abs(next - x) >= tol {
        NewtonFromBounds(f, fp, tol, next, i + 1, maxIterations);
      }
    }
  }

  /** For an affine f with |slope| at least the guard, a positive tolerance and a start
      within StepLimit of the root -c/m, the root is returned by iteration 1 and every
      logged iterate is the root. */
  lemma NewtonExactForAffine(f: real -> real, fp: real -> real, m: real, c: real, tol: real, x0: real, maxIterations: int)
    requires forall x :: f(x) == m * x + c && fp(x) == m
    requires RS.Abs(m) >= DerivativeGuard && tol > 0.0 && maxIterations >= 2
    requires RS.Abs(-c / m - x0) <= StepLimit
    ensures var (r, fin, log) := NewtonFrom(f, fp, tol, x0, 0, maxIterations);
            && r == -c / m && fin.Some? && fin.value <= 1
            && 1 <= |log| <= 2 && forall k :: 0 <= k < |log| ==> log[k] == -c / m
  {
    var root := -c / m;
    RS.NewtonStepAffine(m, c, x0);
    assert Limited(x0, RS.NewtonPoint(x0, f(x0), fp(x0))) == root;
    RS.NewtonStepAffine(m, c, root);
    assert Limited(root, RS.NewtonPoint(root, f(root), fp(root))) == root;
  }

  /** The secant loop entered at iteration i with guesses x0, x1: the result (None for NaN
      from the denominator guard), the new final iteration (None when the guard leaves it as
      it was) and the values appended to the log. A converged x1 is logged; every new x1 is
      logged; running out of iterations returns the last x1, not NaN. */
  function SecantFrom(f: real -> real, tol: real, x0: real, x1: real, i: int, maxIterations: int)
    : (Option<real>, Option<int>, seq<real>)
    decreases maxIterations - i
  {
    if i >= maxIterations then (Some(x1), Some(maxIterations), [])
    else if RS.Abs(f(x1) - f(x0)) < RS.SecantGuard then (None, None, [])
    else if RS.Abs(f(x1)) < tol then (Some(x1), Some(i), [x1])
    else
      var x2 := RS.SecantPoint(x0, x1, f(x0), f(x1));
      var rest := SecantFrom(f, tol, x1, x2, i + 1, maxIterations);
      (rest.0, rest.1, [x2] + rest.2)
  }

  /** One run logs at most one value per iteration it performs. NaN comes only from the
      denominator guard, which leaves the final iteration unset; every other run returns a
      value, the last one logged if any. Stopping before the limit means |f| there is below
      tolerance. */
  lemma {:induction false} SecantFromBounds(f: real -> real, tol: real, x0: real, x1: real, i: int, maxIterations: int)
    ensures var (r, fin, log) := SecantFrom(f, tol, x0, x1, i, maxIterations);
            && |log| <= (if maxIterations > i then maxIterations - i else 0)
            && (r.None? <==> fin.None?)
            && (fin.Some? && i <= maxIterations ==> i <= fin.value <= maxIterations)
            && (fin.Some? && fin.value < maxIterations ==> RS.Abs(f(r.value)) < tol)
            && (r.Some? && log != [] ==> log[|log| - 1] == r.value)
    decreases maxIterations - i
  {
    if i < maxIterations && RS.Abs(f(x1) - f(x0)) >= RS.SecantGuard && RS.Abs(f(x1)) >= tol {
      SecantFromBounds(f, tol, x1, RS.SecantPoint(x0, x1, f(x0), f(x1)), i + 1, maxIterations);
    }
  }

  /** For an affine f with slope m != 0, guesses far enough apart for the guard and a
      tolerance no smaller than the guard, the logging secant method returns the exact root
      within two iterations. The step is not limited, so the first secant point is already
      the root, and it is logged twice: once as the new x1 and once as the converged x1. */
  lemma SecantExactForAffine(f: real -> real, m: real, c: real, tol: real, x0: real, x1: real, maxIterations: int)
    requires forall x :: f(x) == m * x + c
    requires m != 0.0 && tol >= RS.SecantGuard && maxIterations >= 2
    requires RS.Abs(f(x1) - f(x0)) >= RS.SecantGuard
    ensures var (r, fin, log) := SecantFrom(f, tol, x0, x1, 0, maxIterations);
            && r == Some(if RS.Abs(f(x1)) < tol then x1 else -c / m)
            && fin == Some(if RS.Abs(f(x1)) < tol then 0 else 1)
            && log == (if RS.Abs(f(x1)) < tol then [x1] else [-c / m, -c / m])
  {
    if RS.Abs(f(x1)) >= tol {
      assert x0 != x1;
      RS.SecantPointAffine(m, c, x0, x1);
      assert f(x0) == m * x0 + c && f(x1) == m * x1 + c;
      var x2 := RS.SecantPoint(x0, x1, f(x0), f(x1));
      assert x2 == -c / m;
      assert f(x2) == 0.0 by {
        assert m * (-c / m) == -c;
      }
      assert RS.Abs(f(x2) - f(x1)) == RS.Abs(f(x1));
      assert SecantFrom(f, tol, x1, x2, 1, maxIterations) == (Some(x2), Some(1), [x2]);
    }
  }

  class NewtonSolver {
    var finalIteration: int
    const tolerance: real
    const maxIterations: int
    var iterationRoots: seq<real>

    constructor (tolerance: real, maxIterations: int)
      ensures this.tolerance == tolerance && this.maxIterations == maxIterations
      ensures finalIteration == 0 && iterationRoots == []
    {
      this.tolerance, this.maxIterations := tolerance, maxIterations;
      finalIteration := 0;
      iterationRoots := [];
    }

    function GetFinalIteration(): (n: int)
      reads this
      ensures n == finalIteration
    {
      finalIteration
    }

    /** computeRoot(func, x0): the guarded Newton loop. The iterates it logs are appended to
        what earlier runs logged. */
    method ComputeRoot(f: real -> real, fp: real -> real, x0: real) returns (r: real)
      modifies this
      ensures r == NewtonFrom(f, fp, tolerance, x0, 0, maxIterations).0
      ensures finalIteration == (match NewtonFrom(f, fp, tolerance, x0, 0, maxIterations).1
                                 case Some(n) => n
                                 case None => old(finalIteration))
      ensures iterationRoots == old(iterationRoots) + NewtonFrom(f, fp, tolerance, x0, 0, maxIterations).2
      ensures |iterationRoots| <= |old(iterationRoots)| + (if maxIterations > 0 then maxIterations else 0)
    {
      NewtonLogLength(f, fp, tolerance, x0, 0, maxIterations);
      ghost var whole := NewtonFrom(f, fp, tolerance, x0, 0, maxIterations);
      var roots := iterationRoots;
      var x := x0;
      var i := 0;
      while i < maxIterations
        invariant 0 <= i <= (if maxIterations > 0 then maxIterations else 0)
        invariant whole.0 == NewtonFrom(f, fp, tolerance, x, i, maxIterations).0
        invariant whole.1 == NewtonFrom(f, fp, tolerance, x, i, maxIterations).1
        invariant old(iterationRoots) + whole.2 == roots + NewtonFrom(f, fp, tolerance, x, i, maxIterations).2
      {
        var fx := f(x);
        var dfx := fp(x);
        if RS.Abs(dfx) < DerivativeGuard {
          assert roots + [] == roots;
          iterationRoots := roots;
          return x;
        }
        var nextX := RS.NewtonPoint(x, fx, dfx);
        if RS.Abs(nextX - x) > StepLimit {
          nextX := x + (nextX - x) / 10.0;
        }
        assert nextX == Limited(x, RS.NewtonPoint(x, fx, dfx));
        ghost var rest := NewtonFrom(f, fp, tolerance, nextX, i + 1, maxIterations);
        assert roots + ([nextX] + rest.2) == (roots + [nextX]) + rest.2;
        roots := roots + [nextX];
        if RS.Abs(nextX - x) < tolerance {
          iterationRoots := roots;
          finalIteration := i;
          return nextX;
        }
        x := nextX;
        i := i + 1;
      }
      assert roots + [] == roots;
      iterationRoots := roots;
      finalIteration := maxIterations;
      return x;
    }
  }

  class SecantSolver {
    var finalIteration: int
    const tolerance: real
    const maxIterations: int
    var iterationRoots: seq<real>

    constructor (tolerance: real, maxIterations: int)
      ensures this.tolerance == tolerance && this.maxIterations == maxIterations
      ensures finalIteration == 0 && iterationRoots == []
    {
      this.tolerance, this.maxIterations := tolerance, maxIterations;
      finalIteration := 0;
      iterationRoots := [];
    }

    function GetFinalIteration(): (n: int)
      reads this
      ensures n == finalIteration
    {
      finalIteration
    }

    /** computeRoot(func, x0, x1): the secant loop with logging; None is NaN. */
    method ComputeRootFrom(f: real -> real, x0: real, x1: real) returns (r: Option<real>)
      modifies this
      ensures r == SecantFrom(f, tolerance, x0, x1, 0, maxIterations).0
      ensures finalIteration == (match SecantFrom(f, tolerance, x0, x1, 0, maxIterations).1
                                 case Some(n) => n
                                 case None => old(finalIteration))
      ensures iterationRoots == old(iterationRoots) + SecantFrom(f, tolerance, x0, x1, 0, maxIterations).2
      ensures |iterationRoots| <= |old(iterationRoots)| + (if maxIterations > 0 then maxIterations else 0)
    {
      SecantFromBounds(f, tolerance, x0, x1, 0, maxIterations);
      ghost var whole := SecantFrom(f, tolerance, x0, x1, 0, maxIterations);
      var roots := iterationRoots;
      var a, b := x0, x1;
      var i := 0;
      while i < maxIterations
        invariant 0 <= i <= (if maxIterations > 0 then maxIterations else 0)
        invariant whole.0 == SecantFrom(f, tolerance, a, b, i, maxIterations).0
        invariant whole.1 == SecantFrom(f, tolerance, a, b, i, maxIterations).1
        invariant old(iterationRoots) + whole.2 == roots + SecantFrom(f, tolerance, a, b, i, maxIterations).2
      {
        var fx0 := f(a);
        var fx1 := f(b);
        if RS.Abs(fx1 - fx0) < RS.SecantGuard {
          assert roots + [] == roots;
          iterationRoots := roots;
          return None;
        }
        if RS.Abs(fx1) < tolerance {
          finalIteration := i;
          iterationRoots := roots + [b];
          return Some(b);
        }
        var x2 := RS.SecantPoint(a, b, fx0, fx1);
        ghost var rest := SecantFrom(f, tolerance, b, x2, i + 1, maxIterations);
        assert roots + ([x2] + rest.2) == (roots + [x2]) + rest.2;
        a, b := b, x2;
        roots := roots + [b];
        i := i + 1;
      }
      assert roots + [] == roots;
      iterationRoots := roots;
      finalIteration := maxIterations;
      return Some(b);
    }

    /** computeRoot(func, x0): the secant loop from x0 and x0 + 1.0. */
    method ComputeRoot(f: real -> real, x0: real) returns (r: Option<real>)
      modifies this
      ensures r == SecantFrom(f, tolerance, x0, x0 + 1.0, 0, maxIterations).0
      ensures finalIteration == (match SecantFrom(f, tolerance, x0, x0 + 1.0, 0, maxIterations).1
                                 case Some(n) => n
                                 case None => old(finalIteration))
      ensures iterationRoots == old(iterationRoots) + SecantFrom(f, tolerance, x0, x0 + 1.0, 0, maxIterations).2
    {
      r := ComputeRootFrom(f, x0, x0 + 1.0);
    }
  }
}
