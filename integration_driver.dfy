/** The benchmark driver's bookkeeping: integrator objects that remember their last result,
    the contiguity-checked sum of two integrators, a cumulative sum, the benchmark record
    and the best/worst selection over a list of records. */
module IntegrationDriver {
  import opened Wrappers
  import IM = IntegrationMethods

  /** The six Integration subclasses with their parameters. */
  datatype Method =
    | NonAdaptiveIntegration(numIntervals: int)
    | AdaptiveIntegration(tolerance: real, maxDepth: int)
    | Trapezoidal(numIntervals: int)
    | AdaptiveTrapezoidal(tolerance: real, maxDepth: int)
    | Simpson(numIntervals: int)
    | AdaptiveSimpson(tolerance: real, maxDepth: int)

  /** The subclass passes adaptive = true to the base constructor. */
  predicate IsAdaptive(m: Method) {
    m.AdaptiveIntegration? || m.AdaptiveTrapezoidal? || m.AdaptiveSimpson?
  }

  /** The interval counts for which the composite rules do not divide by zero. */
  predicate Defined(m: Method) {
    match m
    case Trapezoidal(n) => n != 0
    case NonAdaptiveIntegration(n) => IM.EvenUp(n) != 0
    case Simpson(n) => IM.EvenUp(n) != 0
    case _ => true
  }

  /** integrate(): each subclass's choice of library routine; the recursive flag plays no part. */
  function Integrate(m: Method, f: real -> real, a: real, b: real): real
    requires Defined(m)
  {
    match m
    case NonAdaptiveIntegration(n) => IM.SimpsonRule(f, a, b, n)
    case AdaptiveIntegration(tol, d) => IM.AdaptiveSimpson(f, a, b, tol, d, 0)
    case Trapezoidal(n) => IM.TrapezoidalRule(f, a, b, n)
    case AdaptiveTrapezoidal(tol, d) => IM.AdaptiveTrapezoidal(f, a, b, tol, d, 0)
    case Simpson(n) => IM.SimpsonRule(f, a, b, n)
    case AdaptiveSimpson(tol, d) => IM.AdaptiveSimpson(f, a, b, tol, d, 0)
  }

  /** The Simpson-based subclasses integrate x*x exactly over the reals, and the
      trapezoid-based ones integrate affine functions exactly, whatever their parameters. */
  lemma IntegrateExactForSquare(m: Method, f: real -> real, a: real, b: real)
    requires forall x :: f(x) == x * x
    requires m.NonAdaptiveIntegration? || m.Simpson? ==> m.numIntervals >= 1
    requires !m.Trapezoidal? && !m.AdaptiveTrapezoidal?
    ensures Defined(m) && Integrate(m, f, a, b) == (IM.Cube(b) - IM.Cube(a)) / 3.0
  {
    match m
    case NonAdaptiveIntegration(n) => IM.SimpsonRuleExactForSquare(f, a, b, n);
    case Simpson(n) => IM.SimpsonRuleExactForSquare(f, a, b, n);
    case AdaptiveIntegration(tol, d) => IM.AdaptiveSimpsonExactForSquare(f, a, b, tol, d, 0);
    case AdaptiveSimpson(tol, d) => IM.AdaptiveSimpsonExactForSquare(f, a, b, tol, d, 0);
  }

  lemma IntegrateExactForAffine(m: Method, f: real -> real, slope: real, offset: real, a: real, b: real)
    requires forall x :: f(x) == slope * x + offset
    requires m.Trapezoidal? ==> m.numIntervals >= 1
    requires m.Trapezoidal? || m.AdaptiveTrapezoidal?
    ensures Defined(m) && Integrate(m, f, a, b) == slope * (b * b - a * a) / 2.0 + offset * (b - a)
  {
    match m
    case Trapezoidal(n) => IM.TrapezoidalRuleExactForAffine(f, slope, offset, a, b, n);
    case AdaptiveTrapezoidal(tol, d) => IM.AdaptiveTrapezoidalExactForAffine(f, slope, offset, a, b, tol, d, 0);
  }

  /** Integration: the bounds, the two flags, and the last result and time of operator(). */
  class Integration {
    const a: real
    const b: real
    const isRecursive: bool
    const isAdaptive: bool
    const kind: Method
    var timeTaken: real
    var lastResult: real

    constructor (kind: Method, lowerBound: real, upperBound: real, recursive: bool)
      ensures this.kind == kind && a == lowerBound && b == upperBound
      ensures isRecursive == recursive && isAdaptive == IsAdaptive(kind)
      ensures timeTaken == 0.0 && lastResult == 0.0
    {
      this.kind := kind;
      a, b := lowerBound, upperBound;
      isRecursive, isAdaptive := recursive, IsAdaptive(kind);
      timeTaken, lastResult := 0.0, 0.0;
    }

    /** operator(): runs the subclass's routine (through the loop implementations for the
        composite rules), stores the value in lastResult and returns it; `elapsed` stands for
        the clock difference. */
    method Call(f: real -> real, elapsed: real) returns (r: real)
      requires Defined(kind)
      modifies this
      ensures r == lastResult == Integrate(kind, f, a, b)
      ensures timeTaken == elapsed
    {
      match kind {
      case Trapezoidal(n) =>
        r := IM.TrapezoidalNonRecursive(f, a, b, n);
      case NonAdaptiveIntegration(n) =>
        r := IM.SimpsonNonRecursive(f, a, b, n);
      case Simpson(n) =>
        r := IM.SimpsonNonRecursive(f, a, b, n);
      case AdaptiveTrapezoidal(tol, d) =>
        r := IM.AdaptiveTrapezoidal(f, a, b, tol, d, 0);
      case AdaptiveIntegration(tol, d) =>
        r := IM.AdaptiveSimpson(f, a, b, tol, d, 0);
      case AdaptiveSimpson(tol, d) =>
        r := IM.AdaptiveSimpson(f, a, b, tol, d, 0);
      }
      lastResult := r;
      timeTaken := elapsed;
    }
  }

  const NotContiguous := "Intervals are not contiguous: lhs.b must equal rhs.a."

  /** operator+(Integration, Integration): invalid_argument unless lhs ends where rhs starts;
      otherwise the sum of their last results. */
  function Combine(lhs: Integration, rhs: Integration): (r: Result<real, string>)
    reads lhs, rhs
    ensures r.Failure? <==> lhs.b != rhs.a
    ensures r.Failure? ==> r.error == NotContiguous
    ensures r.Success? ==> r.value - rhs.lastResult == lhs.lastResult
  {
    if lhs.b != rhs.a then Failure(NotContiguous) else Success(lhs.lastResult + rhs.lastResult)
  }

  /** When both integrators have run on x*x with a Simpson-based method, their sum is the
      exact integral over the joined interval [lhs.a, rhs.b]. */
  lemma CombineExactForSquare(lhs: Integration, rhs: Integration, f: real -> real)
    requires forall x :: f(x) == x * x
    requires Defined(lhs.kind) && lhs.lastResult == Integrate(lhs.kind, f, lhs.a, lhs.b)
    requires Defined(rhs.kind) && rhs.lastResult == Integrate(rhs.kind, f, rhs.a, rhs.b)
    requires !lhs.kind.Trapezoidal? && !lhs.kind.AdaptiveTrapezoidal?
    requires !rhs.kind.Trapezoidal? && !rhs.kind.AdaptiveTrapezoidal?
    requires lhs.kind.NonAdaptiveIntegration? || lhs.kind.Simpson? ==> lhs.kind.numIntervals >= 1
    requires rhs.kind.NonAdaptiveIntegration? || rhs.kind.Simpson? ==> rhs.kind.numIntervals >= 1
    ensures Combine(lhs, rhs).Success? ==> Combine(lhs, rhs).value == (IM.Cube(rhs.b) - IM.Cube(lhs.a)) / 3.0
  {
    IntegrateExactForSquare(lhs.kind, f, lhs.a, lhs.b);
    IntegrateExactForSquare(rhs.kind, f, rhs.a, rhs.b);
  }

  function Sum(xs: seq<real>): real
    decreases |xs|
  {
    if xs == [] then 0.0 else Sum(xs[..|xs| - 1]) + xs[|xs| - 1]
  }

  /** CumulativeIntegration: a running total of the last results added to it. */
  class CumulativeIntegration {
    var totalResult: real
    /** The last results added so far, in order. */
    ghost var added: seq<real>

    ghost predicate Valid()
      reads this
    {
      totalResult == Sum(added)
    }

    constructor ()
      ensures Valid() && totalResult == 0.0 && added == []
    {
      totalResult, added := 0.0, [];
    }

    /** operator+: adds the integrator's last result and returns this same object. */
    method Add(integration: Integration) returns (self: CumulativeIntegration)
      requires Valid()
      modifies this
      ensures self == this && Valid()
      ensures added == old(added) + [integration.lastResult]
      ensures totalResult == old(totalResult) + integration.lastResult
    {
      totalResult := totalResult + integration.lastResult;
      added := added + [integration.lastResult];
      assert added[..|added| - 1] == old(added);
      self := this;
    }
  }

  /** IntegrationResults: one benchmark row. */
  datatype IntegrationResults = IntegrationResults(
    methodName: string,
    functionName: string,
    cacheType: string,
    nbIntervalsOrMaxDepth: int,
    recursive: bool,
    numericalResult: real,
    analyticalResult: real,
    absoluteError: real,
    executionTime: real)

  /** benchmarkIntegrationMethods: runs the integrator once and appends exactly one record
      whose error is |numerical - analytical|; `elapsed` stands for the measured time. */
  method BenchmarkIntegrationMethods(results: seq<IntegrationResults>, f: real -> real,
                                     methodName: string, functionName: string, cacheType: string,
                                     intervalsOrDepth: int, isRecursive: bool,
                                     integrator: Integration, analyticalResult: real, elapsed: real)
    returns (results': seq<IntegrationResults>)
    requires Defined(integrator.kind)
    modifies integrator
    ensures |results'| == |results| + 1 && results'[..|results|] == results
    ensures var row := results'[|results|];
            && row.numericalResult == integrator.lastResult == Integrate(integrator.kind, f, integrator.a, integrator.b)
            && row.absoluteError == IM.Abs(row.numericalResult - analyticalResult)
            && row.absoluteError >= 0.0
            && row == IntegrationResults(methodName, functionName, cacheType, intervalsOrDepth,
                                         isRecursive, row.numericalResult, analyticalResult,
                                         row.absoluteError, elapsed)
  {
    var numericalResult := integrator.Call(f, elapsed);
    var absoluteError := IM.Abs(numericalResult - analyticalResult);
    var row := IntegrationResults(methodName, functionName, cacheType, intervalsOrDepth,
                                  isRecursive, numericalResult, analyticalResult, absoluteError, 0.0);
    row := row.(executionTime := elapsed);
    results' := results + [row];
  }

  function Pow2(k: nat): (p: real)
    ensures p >= 1.0
  {
    if k == 0 then 1.0 else 2.0 * Pow2(k - 1)
  }

  /** std::numeric_limits<double>::max(), (2 - 2^-52) * 2^1023. */
  const DoubleMax: real := (2.0 - 1.0 / Pow2(52)) * Pow2(1023)

  /** The sum of the execution times, in list order. */
  function TotalTime(results: seq<IntegrationResults>): real
    decreases |results|
  {
    if results == [] then 0.0 else TotalTime(results[..|results| - 1]) + results[|results| - 1].executionTime
  }

  /** After the first i records: minError is at most every error seen; best is -1 exactly
      when no error seen was below DoubleMax, and otherwise the first record with the
      smallest error, whose name bestMethod holds. */
  ghost predicate BestSoFar(results: seq<IntegrationResults>, i: int, minError: real, bestMethod: string, best: int)
    requires 0 <= i <= |results|
  {
    && minError <= DoubleMax
    && (forall j :: 0 <= j < i ==> minError <= results[j].absoluteError)
    && (best == -1 <==> (forall j :: 0 <= j < i ==> results[j].absoluteError >= DoubleMax))
    && (best == -1 ==> minError == DoubleMax && bestMethod == "")
    && (best != -1 ==> 0 <= best < i && minError == results[best].absoluteError
                       && bestMethod == results[best].methodName
                       && forall j :: 0 <= j < best ==> results[j].absoluteError > minError)
  }

  /** The mirror image for the largest error, starting from 0. */
  ghost predicate WorstSoFar(results: seq<IntegrationResults>, i: int, maxError: real, worstMethod: string, worst: int)
    requires 0 <= i <= |results|
  {
    && maxError >= 0.0
    && (forall j :: 0 <= j < i ==> results[j].absoluteError <= maxError)
    && (worst == -1 <==> (forall j :: 0 <= j < i ==> results[j].absoluteError <= 0.0))
    && (worst == -1 ==> maxError == 0.0 && worstMethod == "")
    && (worst != -1 ==> 0 <= worst < i && maxError == results[worst].absoluteError
                        && worstMethod == results[worst].methodName
                        && forall j :: 0 <= j < worst ==> results[j].absoluteError < maxError)
  }

  lemma TotalTimeStep(results: seq<IntegrationResults>, i: int)
    requires 0 <= i < |results|
    ensures TotalTime(results[..i + 1]) == TotalTime(results[..i]) + results[i].executionTime
  {
    assert results[..i + 1][..i] == results[..i];
  }

  /** One record: a strictly smaller error takes over as best, anything else leaves it. */
  lemma BestStep(results: seq<IntegrationResults>, i: int, minError: real, bestMethod: string, best: int)
    requires 0 <= i < |results| && BestSoFar(results, i, minError, bestMethod, best)
    ensures results[i].absoluteError < minError ==>
              BestSoFar(results, i + 1, results[i].absoluteError, results[i].methodName, i)
    ensures results[i].absoluteError >= minError ==> BestSoFar(results, i + 1, minError, bestMethod, best)
  {
  }

  /** One record: a strictly larger error takes over as worst, anything else leaves it. */
  lemma WorstStep(results: seq<IntegrationResults>, i: int, maxError: real, worstMethod: string, worst: int)
    requires 0 <= i < |results| && WorstSoFar(results, i, maxError, worstMethod, worst)
    ensures results[i].absoluteError > maxError ==>
              WorstSoFar(results, i + 1, results[i].absoluteError, results[i].methodName, i)
    ensures results[i].absoluteError <= maxError ==> WorstSoFar(results, i + 1, maxError, worstMethod, worst)
  {
  }

  /** analyzeResults: the total time; the first record with the smallest error below
      DoubleMax (best) and the first with the largest error above 0 (worst). When no record
      improves on the starting values, the name stays empty and the starting value stays. */
  method AnalyzeResults(results: seq<IntegrationResults>)
    returns (totalTime: real, minError: real, bestMethod: string, maxError: real, worstMethod: string,
             ghost best: int, ghost worst: int)
    ensures totalTime == TotalTime(results)
    ensures minError <= DoubleMax && maxError >= 0.0
    ensures forall j :: 0 <= j < |results| ==> minError <= results[j].absoluteError <= maxError
    ensures best == -1 <==> (forall j :: 0 <= j < |results| ==> results[j].absoluteError >= DoubleMax)
    ensures best == -1 ==> minError == DoubleMax && bestMethod == ""
    ensures best != -1 ==> 0 <= best < |results| && minError == results[best].absoluteError
                           && bestMethod == results[best].methodName
                           && forall j :: 0 <= j < best ==> results[j].absoluteError > minError
    ensures worst == -1 <==> (forall j :: 0 <= j < |results| ==> results[j].absoluteError <= 0.0)
    ensures worst == -1 ==> maxError == 0.0 && worstMethod == ""
    ensures worst != -1 ==> 0 <= worst < |results| && maxError == results[worst].absoluteError
                            && worstMethod == results[worst].methodName
                            && forall j :: 0 <= j < worst ==> results[j].absoluteError < maxError
  {
    minError, maxError, totalTime := DoubleMax, 0.0, 0.0;
    bestMethod, worstMethod := "", "";
    best, worst := -1, -1;
    for i := 0 to |results|
      invariant totalTime == TotalTime(results[..i])
      invariant BestSoFar(results, i, minError, bestMethod, best)
      invariant WorstSoFar(results, i, maxError, worstMethod, worst)
    {
      var result := results[i];
      TotalTimeStep(results, i);
      BestStep(results, i, minError, bestMethod, best);
      WorstStep(results, i, maxError, worstMethod, worst);
      totalTime := totalTime + result.executionTime;
      if result.absoluteError < minError {
        minError := result.absoluteError;
        bestMethod := result.methodName;
        best := i;
      }
      if result.absoluteError > maxError {
        maxError := result.absoluteError;
        worstMethod := result.methodName;
        worst := i;
      }
    }
    assert results[..|results|] == results;
  }
}
