/** The component-wise arithmetic both Vector classes of the particle programs compute with
    their loops: sums, scalings, dot products and the L1, L2 and Linf norms, over the
    components as a sequence of reals. */
module VectorCommon {
  import opened Wrappers

  /** The exceptions the Vector and Particle code throws. */
  datatype VectorError = OutOfRange | InvalidArgument | RuntimeError

  function Abs(x: real): (r: real)
    ensures r >= 0.0 && (r == x || r == -x)
  {
    if x < 0.0 then -x else x
  }

  function Max(x: real, y: real): (r: real)
    ensures r >= x && r >= y && (r == x || r == y)
  {
    if x >= y then x else y
  }

  /** What the model needs of std::sqrt: on non-negative arguments, a non-negative root. */
  ghost predicate IsSqrt(sqrt: real -> real) {
    forall x :: 0.0 <= x ==> 0.0 <= sqrt(x) && sqrt(x) * sqrt(x) == x
  }

  /** Component i is the sum of component i of u and of v, for the first |u| components. */
  function Plus(u: seq<real>, v: seq<real>): (r: seq<real>)
    requires |u| <= |v|
    ensures |r| == |u|
  {
    seq(|u|, i requires 0 <= i < |u| => u[i] + v[i])
  }

  function Scaled(u: seq<real>, s: real): (r: seq<real>)
    ensures |r| == |u|
  {
    seq(|u|, i requires 0 <= i < |u| => u[i] * s)
  }

  /** The sum of u[i]*v[i] over the first |u| components, added in index order. */
  function Dot(u: seq<real>, v: seq<real>): real
    requires |u| <= |v|
    decreases |u|
  {
    if u == [] then 0.0 else Dot(u[..|u| - 1], v) + u[|u| - 1] * v[|u| - 1]
  }

  function SumOfAbs(u: seq<real>): real
    decreases |u|
  {
    if u == [] then 0.0 else SumOfAbs(u[..|u| - 1]) + Abs(u[|u| - 1])
  }

  function SumOfSquares(u: seq<real>): real
    decreases |u|
  {
    if u == [] then 0.0 else SumOfSquares(u[..|u| - 1]) + u[|u| - 1] * u[|u| - 1]
  }

  /** The running maximum of |c| starting from 0, so 0 for no components. */
  function MaxAbs(u: seq<real>): real
    decreases |u|
  {
    if u == [] then 0.0 else Max(MaxAbs(u[..|u| - 1]), Abs(u[|u| - 1]))
  }

  /** The value of norm(type): the sum of absolute values for "L1", the square root of the
      sum of squares for "L2", the largest absolute value for "Linf", and invalid_argument
      for every other type string. */
  function Norm(u: seq<real>, normType: string, sqrt: real -> real): Result<real, VectorError> {
    if normType == "L1" then Success(SumOfAbs(u))
    else if normType == "L2" then Success(sqrt(SumOfSquares(u)))
    else if normType == "Linf" then Success(MaxAbs(u))
    else Failure(InvalidArgument)
  }

  /** norm fails exactly on the type strings other than the three it knows. */
  lemma NormFailsExactlyOnUnknownType(u: seq<real>, normType: string, sqrt: real -> real)
    ensures Norm(u, normType, sqrt).Failure? <==> normType !in {"L1", "L2", "Linf"}
    ensures Norm(u, normType, sqrt).Failure? ==> Norm(u, normType, sqrt).error == InvalidArgument
  {
  }

  lemma {:induction false} SumOfAbsNonNegative(u: seq<real>)
    ensures SumOfAbs(u) >= 0.0
    decreases |u|
  {
    if u != [] {
      SumOfAbsNonNegative(u[..|u| - 1]);
    }
  }

  lemma {:induction false} SumOfSquaresNonNegative(u: seq<real>)
    ensures SumOfSquares(u) >= 0.0
    decreases |u|
  {
    if u != [] {
      SumOfSquaresNonNegative(u[..|u| - 1]);
    }
  }

  /** Linf bounds every component's absolute value and is one of them, or 0 when it is
      below all of them (only for no components). */
  lemma {:induction false} MaxAbsIsMaximum(u: seq<real>)
    ensures MaxAbs(u) >= 0.0
    ensures forall i :: 0 <= i < |u| ==> Abs(u[i]) <= MaxAbs(u)
    ensures MaxAbs(u) == 0.0 || exists i :: 0 <= i < |u| && MaxAbs(u) == Abs(u[i])
    decreases |u|
  {
    if u != [] {
      var init := u[..|u| - 1];
      MaxAbsIsMaximum(init);
      assert forall i :: 0 <= i < |init| ==> init[i] == u[i];
      if MaxAbs(u) != 0.0 && MaxAbs(u) != Abs(u[|u| - 1]) {
        var j :| 0 <= j < |init| && MaxAbs(init) == Abs(init[j]);
        assert MaxAbs(u) == Abs(u[j]);
      }
    }
  }

  /** Linf never exceeds L1. */
  lemma {:induction false} MaxAbsAtMostSumOfAbs(u: seq<real>)
    ensures MaxAbs(u) <= SumOfAbs(u)
    decreases |u|
  {
    if u != [] {
      MaxAbsAtMostSumOfAbs(u[..|u| - 1]);
      SumOfAbsNonNegative(u[..|u| - 1]);
      MaxAbsIsMaximum(u[..|u| - 1]);
    }
  }

  /** Every norm that norm returns is non-negative (L2 needs sqrt to give non-negative
      roots), and Linf <= L1. */
  lemma NormsNonNegative(u: seq<real>, sqrt: real -> real)
    requires IsSqrt(sqrt)
    ensures Norm(u, "L1", sqrt).value >= 0.0
    ensures Norm(u, "L2", sqrt).value >= 0.0
    ensures Norm(u, "Linf", sqrt).value >= 0.0
    ensures Norm(u, "Linf", sqrt).value <= Norm(u, "L1", sqrt).value
  {
    SumOfAbsNonNegative(u);
    SumOfSquaresNonNegative(u);
    MaxAbsIsMaximum(u);
    MaxAbsAtMostSumOfAbs(u);
  }

  /** The dot product ignores the components of v beyond |u|. */
  lemma {:induction false} DotPrefix(u: seq<real>, v: seq<real>, w: seq<real>)
    requires |u| <= |v| && |u| <= |w|
    requires forall i :: 0 <= i < |u| ==> v[i] == w[i]
    ensures Dot(u, v) == Dot(u, w)
    decreases |u|
  {
    if u != [] {
      DotPrefix(u[..|u| - 1], v, w);
    }
  }

  /** For vectors of equal size the dot product is symmetric. */
  lemma {:induction false} DotSymmetric(u: seq<real>, v: seq<real>)
    requires |u| == |v|
    ensures Dot(u, v) == Dot(v, u)
    decreases |u|
  {
    if u != [] {
      var n := |u| - 1;
      DotPrefix(u[..n], v, v[..n]);
      DotPrefix(v[..n], u, u[..n]);
      DotSymmetric(u[..n], v[..n]);
    }
  }

  /** The dot product distributes over the sum in its first argument. */
  lemma {:induction false} DotPlusLeft(u: seq<real>, v: seq<real>, w: seq<real>)
    requires |u| <= |v| && |u| <= |w|
    ensures Dot(Plus(u, v), w) == Dot(u, w) + Dot(v[..|u|], w)
    decreases |u|
  {
    if u != [] {
      var n := |u| - 1;
      assert Plus(u, v)[..n] == Plus(u[..n], v);
      assert v[..|u|][..n] == v[..n];
      DotPlusLeft(u[..n], v, w);
      assert Plus(u, v)[n] * w[n] == u[n] * w[n] + v[n] * w[n];
    }
  }

  /** Scaling the first argument scales the dot product. */
  lemma {:induction false} DotScaledLeft(u: seq<real>, s: real, w: seq<real>)
    requires |u| <= |w|
    ensures Dot(Scaled(u, s), w) == s * Dot(u, w)
    decreases |u|
  {
    if u != [] {
      var n := |u| - 1;
      assert forall i :: 0 <= i < n ==> Scaled(u, s)[..n][i] == Scaled(u[..n], s)[i];
      assert Scaled(u, s)[..n] == Scaled(u[..n], s);
      DotScaledLeft(u[..n], s, w);
      assert (u[n] * s) * w[n] == s * (u[n] * w[n]);
    }
  }

  /** Component-wise addition of equal-size vectors commutes. */
  lemma PlusCommutes(u: seq<real>, v: seq<real>)
    requires |u| == |v|
    ensures Plus(u, v) == Plus(v, u)
  {
  }

  /** Scaling twice is scaling once by the product. */
  lemma ScaledTwice(u: seq<real>, s: real, t: real)
    ensures Scaled(Scaled(u, s), t) == Scaled(u, s * t)
  {
    forall i | 0 <= i < |u|
      ensures Scaled(Scaled(u, s), t)[i] == Scaled(u, s * t)[i]
    {
      assert (u[i] * s) * t == u[i] * (s * t);
    }
  }
}
