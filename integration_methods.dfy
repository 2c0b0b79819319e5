/** The quadrature routines of the integration library: the basic trapezoid and Simpson
    rules, their composite forms, the recursive adaptive forms with a depth guard and
    tolerance halving, and the explicit-stack adaptive trapezoid. Values are reals; the
    integrand is any total function. */
module IntegrationMethods {

  function Abs(x: real): real {
    if x < 0.0 then -x else x
  }

  /** The i-th sample point a + i*h. */
  function Point(a: real, h: real, i: int): real {
    a + (i as real) * h
  }

  function Cube(x: real): real {
    x * x * x
  }

  /** The trapezoid area 0.5*(b - a)*(fa + fb) from two endpoint values. */
  function TrapezoidArea(a: real, b: real, fa: real, fb: real): real {
    0.5 * (b - a) * (fa + fb)
  }

  /** basicTrapezoidal: 0.5*(b - a)*(f(a) + f(b)). */
  function BasicTrapezoidal(f: real -> real, a: real, b: real): real {
    TrapezoidArea(a, b, f(a), f(b))
  }

  /** basicSimpson: (h/3)*(f(a) + 4 f(mid) + f(b)) with h = (b - a)/2, mid = (a + b)/2. */
  function BasicSimpson(f: real -> real, a: real, b: real): real {
    var h := (b - a) / 2.0;
    var mid := (a + b) / 2.0;
    (h / 3.0) * (f(a) + 4.0 * f(mid) + f(b))
  }

  /** The inline one-panel Simpson value (b - a)(fa + 4 fc + fb)/6 that the adaptive routines
      compute as `whole`, `left` and `right` is basicSimpson on that panel. */
  lemma BasicSimpsonInline(f: real -> real, a: real, b: real)
    ensures BasicSimpson(f, a, b) == (b - a) * (f(a) + 4.0 * f((a + b) / 2.0) + f(b)) / 6.0
  {
    var s := f(a) + 4.0 * f((a + b) / 2.0) + f(b);
    assert ((b - a) / 2.0 / 3.0) * s == (b - a) * s / 6.0;
  }

  /** The trapezoid rule integrates affine functions exactly. */
  lemma BasicTrapezoidalExactForAffine(f: real -> real, m: real, c: real, p: real, q: real)
    requires forall x :: f(x) == m * x + c
    ensures BasicTrapezoidal(f, p, q) == m * (q * q - p * p) / 2.0 + c * (q - p)
  {
    assert f(p) + f(q) == m * (p + q) + 2.0 * c;
    assert (q - p) * (p + q) == q * q - p * p;
  }

  /** Simpson's rule integrates x*x exactly: the antiderivative is x^3/3. */
  lemma BasicSimpsonExactForSquare(f: real -> real, p: real, q: real)
    requires forall x :: f(x) == x * x
    ensures BasicSimpson(f, p, q) == (Cube(q) - Cube(p)) / 3.0
  {
    var mid := (p + q) / 2.0;
    assert 4.0 * f(mid) == (p + q) * (p + q);
    assert f(p) + 4.0 * f(mid) + f(q) == 2.0 * (p * p + p * q + q * q);
    assert (q - p) * (p * p + p * q + q * q) == Cube(q) - Cube(p);
  }

  // ---------------------------------------------------------------------------------------
  // composite trapezoid rule

  /** f(a + i*h) summed over lo <= i < hi. */
  function Samples(f: real -> real, a: real, h: real, lo: int, hi: int): real
    decreases hi - lo
  {
    if hi <= lo then 0.0 else Samples(f, a, h, lo, hi - 1) + f(Point(a, h, hi - 1))
  }

  /** What trapezoidalNonRecursive computes: h = (b - a)/n, endpoints weighted 1/2, the
      interior points a + i*h for 0 < i < n weighted 1, all times h. */
  function TrapezoidalRule(f: real -> real, a: real, b: real, n: int): real
    requires n != 0
  {
    var h := (b - a) / (n as real);
    TrapezoidFormula(h, f(a), f(b), Samples(f, a, h, 1, n))
  }

  /** The bracket of the composite trapezoid formula: half the two end values plus the
      interior samples. */
  function TrapezoidBracket(fa: real, fb: real, interior: real): real {
    0.5 * (fa + fb) + interior
  }

  /** The composite trapezoid formula: the bracket times the panel width h. */
  function TrapezoidFormula(h: real, fa: real, fb: real, interior: real): real {
    h * TrapezoidBracket(fa, fb, interior)
  }

  /** The values g(0), ..., g(k-1) added up. */
  function PanelSum(g: int -> real, k: nat): real {
    if k == 0 then 0.0 else PanelSum(g, k - 1) + g(k - 1)
  }

  /** Scaling every term scales the sum. */
  lemma {:induction false} PanelSumScaled(g: int -> real, g': int -> real, c: real, k: nat)
    requires forall j :: 0 <= j < k ==> g(j) == c * g'(j)
    ensures PanelSum(g, k) == c * PanelSum(g', k)
    decreases k
  {
    if k > 0 {
      PanelSumScaled(g, g', c, k - 1);
    }
  }

  /** Values that are h times panel means whose sum is the trapezoid bracket add up to the
      trapezoid formula. */
  lemma ScaledMeansFormula(g: int -> real, g': int -> real, h: real, k: nat, fa: real, fb: real, interior: real)
    requires forall j :: 0 <= j < k ==> g(j) == h * g'(j)
    requires PanelSum(g', k) == TrapezoidBracket(fa, fb, interior)
    ensures PanelSum(g, k) == TrapezoidFormula(h, fa, fb, interior)
  {
    PanelSumScaled(g, g', h, k);
  }

  /** Values that are the increases of F add up to F's total increase. */
  lemma {:induction false} PanelSumTelescopes(g: int -> real, F: int -> real, k: nat)
    requires forall j :: 0 <= j < k ==> g(j) == F(j + 1) - F(j)
    ensures PanelSum(g, k) == F(k) - F(0)
    decreases k
  {
    if k > 0 {
      PanelSumTelescopes(g, F, k - 1);
    }
  }

  /** basicTrapezoidal on panel i, the interval [a + i*h, a + (i+1)*h]. */
  function TrapezoidPanels(f: real -> real, a: real, h: real): int -> real {
    i => BasicTrapezoidal(f, Point(a, h, i), Point(a, h, i + 1))
  }

  /** The independent reading of the composite rule: the sum of basicTrapezoidal over the n
      panels [a + i*h, a + (i+1)*h]. */
  function PanelTrapezoids(f: real -> real, a: real, h: real, n: nat): real {
    PanelSum(TrapezoidPanels(f, a, h), n)
  }

  /** Panel i's mean end value (f(a + i*h) + f(a + (i+1)*h))/2. */
  function TrapezoidMean(f: real -> real, a: real, h: real, i: int): real {
    Mean(f(Point(a, h, i)), f(Point(a, h, i + 1)))
  }

  /** The average of two end values. */
  function Mean(x: real, y: real): real {
    0.5 * (x + y)
  }

  function TrapezoidMeans(f: real -> real, a: real, h: real): int -> real {
    i => TrapezoidMean(f, a, h, i)
  }

  /** Each panel is h times its mean end value. */
  lemma TrapezoidPanelsAreScaledMeans(f: real -> real, a: real, h: real)
    ensures forall i :: TrapezoidPanels(f, a, h)(i) == h * TrapezoidMeans(f, a, h)(i)
  {
    forall i ensures TrapezoidPanels(f, a, h)(i) == h * TrapezoidMeans(f, a, h)(i) {
      TrapezoidPanel(f, a, h, i);
    }
  }

  lemma TrapezoidPanel(f: real -> real, a: real, h: real, i: int)
    ensures TrapezoidPanels(f, a, h)(i) == h * TrapezoidMeans(f, a, h)(i)
  {
    var p, q := Point(a, h, i), Point(a, h, i + 1);
    TrapezoidAreaWidth(p, q, f(p), f(q), h);
  }

  /** A trapezoid of width h is h times its mean height. */
  lemma TrapezoidAreaWidth(p: real, q: real, fp: real, fq: real, h: real)
    requires q - p == h
    ensures TrapezoidArea(p, q, fp, fq) == h * Mean(fp, fq)
  {
  }

  /** The mean end values add up to half the end values plus the interior samples. */
  lemma {:induction false} TrapezoidMeansClosed(f: real -> real, a: real, h: real, n: nat)
    requires n >= 1
    ensures PanelSum(TrapezoidMeans(f, a, h), n) == TrapezoidBracket(f(a), f(Point(a, h, n)), Samples(f, a, h, 1, n))
  {
    if n == 1 {
      assert Point(a, h, 0) == a;
    } else {
      TrapezoidMeansClosed(f, a, h, n - 1);
      assert Samples(f, a, h, 1, n) == Samples(f, a, h, 1, n - 1) + f(Point(a, h, n - 1));
    }
  }

  lemma PanelTrapezoidsClosed(f: real -> real, a: real, h: real, n: nat)
    requires n >= 1
    ensures PanelTrapezoids(f, a, h, n) == TrapezoidFormula(h, f(a), f(Point(a, h, n)), Samples(f, a, h, 1, n))
  {
    TrapezoidMeansClosed(f, a, h, n);
    PanelTrapezoidsFromMeans(f, a, h, n, f(a), f(Point(a, h, n)), Samples(f, a, h, 1, n));
  }

  /** Once the panel means add up to a trapezoid bracket, the panels add up to its formula. */
  lemma PanelTrapezoidsFromMeans(f: real -> real, a: real, h: real, n: nat, fa: real, fb: real, interior: real)
    requires PanelSum(TrapezoidMeans(f, a, h), n) == TrapezoidBracket(fa, fb, interior)
    ensures PanelTrapezoids(f, a, h, n) == TrapezoidFormula(h, fa, fb, interior)
  {
    TrapezoidPanelsAreScaledMeans(f, a, h);
    ScaledMeansFormula(TrapezoidPanels(f, a, h), TrapezoidMeans(f, a, h), h, n, fa, fb, interior);
  }

  /** n equal panels of width (b - a)/n end at b. */
  lemma LastPoint(a: real, b: real, n: int)
    requires n != 0
    ensures Point(a, (b - a) / (n as real), n) == b
  {
  }

  /** For n >= 1 the composite trapezoid rule is the sum of the basic rule over its n panels. */
  lemma TrapezoidalRuleIsPanelSum(f: real -> real, a: real, b: real, n: int)
    requires n >= 1
    ensures TrapezoidalRule(f, a, b, n) == PanelTrapezoids(f, a, (b - a) / (n as real), n)
  {
    LastPoint(a, b, n);
    PanelTrapezoidsClosed(f, a, (b - a) / (n as real), n);
  }

  /** With a single interval the composite rule is basicTrapezoidal. */
  lemma TrapezoidalRuleOneInterval(f: real -> real, a: real, b: real)
    ensures TrapezoidalRule(f, a, b, 1) == BasicTrapezoidal(f, a, b)
  {
    TrapezoidalRuleIsPanelSum(f, a, b, 1);
    assert Point(a, b - a, 0) == a;
  }

  /** An antiderivative of x -> m*x + c. */
  function AffinePrimitive(m: real, c: real, x: real): real {
    m * x * x / 2.0 + c * x
  }

  lemma BasicTrapezoidalAffinePrimitive(f: real -> real, m: real, c: real, p: real, q: real)
    requires forall x :: f(x) == m * x + c
    ensures BasicTrapezoidal(f, p, q) == AffinePrimitive(m, c, q) - AffinePrimitive(m, c, p)
  {
    BasicTrapezoidalExactForAffine(f, m, c, p, q);
  }

  lemma PanelTrapezoidsExactForAffine(f: real -> real, m: real, c: real, a: real, h: real, n: nat)
    requires forall x :: f(x) == m * x + c
    ensures PanelTrapezoids(f, a, h, n) == AffinePrimitive(m, c, Point(a, h, n)) - AffinePrimitive(m, c, a)
  {
    TrapezoidPanelsTelescope(f, m, c, a, h);
    PanelSumTelescopes(TrapezoidPanels(f, a, h), PrimitiveAtPoints(m, c, a, h), n);
    assert Point(a, h, 0) == a;
  }

  /** The affine primitive at the sample points a + i*h. */
  function PrimitiveAtPoints(m: real, c: real, a: real, h: real): int -> real {
    i => AffinePrimitive(m, c, Point(a, h, i))
  }

  lemma TrapezoidPanelsTelescope(f: real -> real, m: real, c: real, a: real, h: real)
    requires forall x :: f(x) == m * x + c
    ensures forall i :: TrapezoidPanels(f, a, h)(i) == PrimitiveAtPoints(m, c, a, h)(i + 1) - PrimitiveAtPoints(m, c, a, h)(i)
  {
    forall i ensures TrapezoidPanels(f, a, h)(i) == PrimitiveAtPoints(m, c, a, h)(i + 1) - PrimitiveAtPoints(m, c, a, h)(i) {
      TrapezoidPanelAffine(f, m, c, a, h, i);
    }
  }

  /** For affine f, panel i is the primitive's increase across it. */
  lemma TrapezoidPanelAffine(f: real -> real, m: real, c: real, a: real, h: real, i: int)
    requires forall x :: f(x) == m * x + c
    ensures TrapezoidPanels(f, a, h)(i) == AffinePrimitive(m, c, Point(a, h, i + 1)) - AffinePrimitive(m, c, Point(a, h, i))
  {
    BasicTrapezoidalAffinePrimitive(f, m, c, Point(a, h, i), Point(a, h, i + 1));
  }

  /** For n >= 1 the composite trapezoid rule integrates affine functions exactly. */
  lemma TrapezoidalRuleExactForAffine(f: real -> real, m: real, c: real, a: real, b: real, n: int)
    requires forall x :: f(x) == m * x + c
    requires n >= 1
    ensures TrapezoidalRule(f, a, b, n) == m * (b * b - a * a) / 2.0 + c * (b - a)
  {
    var h := (b - a) / (n as real);
    TrapezoidalRuleIsPanelSum(f, a, b, n);
    PanelTrapezoidsExactForAffine(f, m, c, a, h, n);
    LastPoint(a, b, n);
    AffinePrimitiveDifference(m, c, a, b);
  }

  /** The antiderivative's increase over [a, b] in closed form. */
  lemma AffinePrimitiveDifference(m: real, c: real, a: real, b: real)
    ensures AffinePrimitive(m, c, b) - AffinePrimitive(m, c, a) == m * (b * b - a * a) / 2.0 + c * (b - a)
  {
  }

  /** trapezoidalNonRecursive: the loop adds f(a + i*h) for i = 1 .. n-1 to the endpoint
      half-weights and multiplies by h. n = 0 divides by zero in the source and is excluded. */
  method TrapezoidalNonRecursive(f: real -> real, a: real, b: real, nIntervals: int) returns (r: real)
    requires nIntervals != 0
    ensures r == TrapezoidalRule(f, a, b, nIntervals)
  {
    var h := (b - a) / (nIntervals as real);
    var sum := 0.5 * (f(a) + f(b));
    var i := 1;
    while i < nIntervals
      invariant 1 <= i <= (if nIntervals >= 1 then nIntervals else 1)
      invariant sum == TrapezoidBracket(f(a), f(b), Samples(f, a, h, 1, i))
    {
      var x := Point(a, h, i);
      assert Samples(f, a, h, 1, i + 1) == Samples(f, a, h, 1, i) + f(x);
      sum := sum + f(x);
      i := i + 1;
    }
    if nIntervals < 1 {
      assert Samples(f, a, h, 1, i) == 0.0 == Samples(f, a, h, 1, nIntervals);
    }
    r := h * sum;
  }

  // ---------------------------------------------------------------------------------------
  // composite Simpson rule

  /** The number of intervals simpsonNonRecursive uses: an odd count is bumped up by one.
      (C++ `n % 2 != 0` and Dafny's `n % 2 != 0` agree for negative n too.) */
  function EvenUp(n: int): (m: int)
    ensures m % 2 == 0 && (m == n || m == n + 1)
  {
    if n % 2 != 0 then n + 1 else n
  }

  /** Simpson weights: 4 at odd interior indices, 2 at even ones. */
  function SimpsonWeight(i: int): real {
    if i % 2 == 0 then 2.0 else 4.0
  }

  /** SimpsonWeight(i) * f(a + i*h) summed over lo <= i < hi. */
  function WeightedSamples(f: real -> real, a: real, h: real, lo: int, hi: int): real
    decreases hi - lo
  {
    if hi <= lo then 0.0 else WeightedSamples(f, a, h, lo, hi - 1) + SimpsonWeight(hi - 1) * f(Point(a, h, hi - 1))
  }

  /** What simpsonNonRecursive computes: h*(f(a) + f(b) + weighted interior)/3 over the even
      count EvenUp(n). */
  function SimpsonRule(f: real -> real, a: real, b: real, n: int): real
    requires EvenUp(n) != 0
  {
    var m := EvenUp(n);
    var h := (b - a) / (m as real);
    h * (f(a) + f(b) + WeightedSamples(f, a, h, 1, m)) / 3.0
  }

  /** basicSimpson on panel j, the interval [a + 2j*h, a + (2j+2)*h]. */
  function SimpsonPanels(f: real -> real, a: real, h: real): int -> real {
    j => BasicSimpson(f, Point(a, h, 2 * j), Point(a, h, 2 * j + 2))
  }

  /** The independent reading: basicSimpson summed over the first k panels. */
  function PanelSimpsons(f: real -> real, a: real, h: real, k: nat): real {
    PanelSum(SimpsonPanels(f, a, h), k)
  }

  /** Panel j's f0 + 4 f1 + f2. */
  function Bracket(f: real -> real, a: real, h: real, j: int): real {
    f(Point(a, h, 2 * j)) + 4.0 * f(Point(a, h, 2 * j + 1)) + f(Point(a, h, 2 * j + 2))
  }

  /** One Simpson panel of width 2h is (h/3)(f0 + 4 f1 + f2) at its three sample points. */
  lemma SimpsonPanel(f: real -> real, a: real, h: real, j: int)
    ensures BasicSimpson(f, Point(a, h, 2 * j), Point(a, h, 2 * j + 2)) == h * Bracket(f, a, h, j) / 3.0
  {
    var p, q := Point(a, h, 2 * j), Point(a, h, 2 * j + 2);
    assert (q - p) / 2.0 == h;
    assert (p + q) / 2.0 == Point(a, h, 2 * j + 1);
  }

  lemma WeightedSamplesTwoMore(f: real -> real, a: real, h: real, k: int)
    requires k >= 3
    ensures WeightedSamples(f, a, h, 1, k) == WeightedSamples(f, a, h, 1, k - 2)
              + SimpsonWeight(k - 2) * f(Point(a, h, k - 2)) + SimpsonWeight(k - 1) * f(Point(a, h, k - 1))
  {
    assert WeightedSamples(f, a, h, 1, k) == WeightedSamples(f, a, h, 1, k - 1) + SimpsonWeight(k - 1) * f(Point(a, h, k - 1));
    assert WeightedSamples(f, a, h, 1, k - 1) == WeightedSamples(f, a, h, 1, k - 2) + SimpsonWeight(k - 2) * f(Point(a, h, k - 2));
  }

  /** The bracket of the composite formula for 2k intervals: the end values plus the
      weighted interior samples. */
  function SimpsonSum(f: real -> real, a: real, h: real, k: int): real {
    f(a) + WeightedSamples(f, a, h, 1, 2 * k) + f(Point(a, h, 2 * k))
  }

  /** Panel j's bracket as a function of j. */
  function PanelBrackets(f: real -> real, a: real, h: real): int -> real {
    j => Bracket(f, a, h, j)
  }

  /** The brackets of the first k panels added up. */
  function Brackets(f: real -> real, a: real, h: real, k: nat): real {
    PanelSum(PanelBrackets(f, a, h), k)
  }

  /** Two more intervals add one panel's bracket to the composite bracket. */
  lemma SimpsonSumStep(f: real -> real, a: real, h: real, k: int)
    requires k >= 2
    ensures SimpsonSum(f, a, h, k) == SimpsonSum(f, a, h, k - 1) + Bracket(f, a, h, k - 1)
  {
    WeightedSamplesTwoMore(f, a, h, 2 * k);
    assert SimpsonWeight(2 * k - 2) == 2.0 && SimpsonWeight(2 * k - 1) == 4.0;
    assert 2 * (k - 1) == 2 * k - 2 && 2 * (k - 1) + 1 == 2 * k - 1 && 2 * (k - 1) + 2 == 2 * k;
  }

  /** The panel brackets add up to the composite bracket. */
  lemma {:induction false} BracketsClosed(f: real -> real, a: real, h: real, k: nat)
    requires k >= 1
    ensures Brackets(f, a, h, k) == SimpsonSum(f, a, h, k)
  {
    if k == 1 {
      assert Point(a, h, 0) == a;
      assert WeightedSamples(f, a, h, 1, 2) == 4.0 * f(Point(a, h, 1));
    } else {
      BracketsClosed(f, a, h, k - 1);
      SimpsonSumStep(f, a, h, k);
    }
  }

  /** Each panel is h/3 times its bracket. */
  lemma PanelsAreScaledBrackets(f: real -> real, a: real, h: real)
    ensures forall j :: SimpsonPanels(f, a, h)(j) == (h / 3.0) * PanelBrackets(f, a, h)(j)
  {
    forall j ensures SimpsonPanels(f, a, h)(j) == (h / 3.0) * PanelBrackets(f, a, h)(j) {
      SimpsonPanel(f, a, h, j);
    }
  }

  lemma PanelSimpsonsClosed(f: real -> real, a: real, h: real, k: nat)
    requires k >= 1
    ensures PanelSimpsons(f, a, h, k) == h * SimpsonSum(f, a, h, k) / 3.0
  {
    PanelsAreScaledBrackets(f, a, h);
    PanelSumScaled(SimpsonPanels(f, a, h), PanelBrackets(f, a, h), h / 3.0, k);
    BracketsClosed(f, a, h, k);
  }

  /** For n >= 1 the composite Simpson rule is the sum of basicSimpson over EvenUp(n)/2
      panels of width 2h. */
  lemma SimpsonRuleIsPanelSum(f: real -> real, a: real, b: real, n: int)
    requires n >= 1
    ensures SimpsonRule(f, a, b, n) == PanelSimpsons(f, a, (b - a) / (EvenUp(n) as real), EvenUp(n) / 2)
  {
    var m := EvenUp(n);
    LastPoint(a, b, m);
    assert 2 * (m / 2) == m;
    PanelSimpsonsClosed(f, a, (b - a) / (m as real), m / 2);
  }

  /** With one or two intervals the composite rule is basicSimpson on [a, b]. */
  lemma SimpsonRuleOneOrTwo(f: real -> real, a: real, b: real, n: int)
    requires n == 1 || n == 2
    ensures SimpsonRule(f, a, b, n) == BasicSimpson(f, a, b)
  {
    assert EvenUp(n) == 2;
    var h := (b - a) / 2.0;
    var mid := (a + b) / 2.0;
    assert Point(a, h, 1) == mid;
    assert WeightedSamples(f, a, h, 1, 2) == 4.0 * f(mid);
    var s := f(a) + 4.0 * f(mid) + f(b);
    assert SimpsonRule(f, a, b, n) == h * (f(a) + f(b) + 4.0 * f(mid)) / 3.0;
    assert h * (f(a) + f(b) + 4.0 * f(mid)) / 3.0 == (h / 3.0) * s;
  }

  lemma {:induction false} PanelSimpsonsExactForSquare(f: real -> real, a: real, h: real, k: nat)
    requires forall x :: f(x) == x * x
    ensures PanelSimpsons(f, a, h, k) == (Cube(Point(a, h, 2 * k)) - Cube(a)) / 3.0
  {
    if k == 0 {
      assert Point(a, h, 0) == a;
    } else {
      PanelSimpsonsExactForSquare(f, a, h, k - 1);
      BasicSimpsonExactForSquare(f, Point(a, h, 2 * k - 2), Point(a, h, 2 * k));
    }
  }

  /** For n >= 1 the composite Simpson rule integrates x*x exactly: (b^3 - a^3)/3, the value
      the drivers compare against. */
  lemma SimpsonRuleExactForSquare(f: real -> real, a: real, b: real, n: int)
    requires forall x :: f(x) == x * x
    requires n >= 1
    ensures SimpsonRule(f, a, b, n) == (Cube(b) - Cube(a)) / 3.0
  {
    var m := EvenUp(n);
    SimpsonRuleIsPanelSum(f, a, b, n);
    PanelSimpsonsExactForSquare(f, a, (b - a) / (m as real), m / 2);
    assert 2 * (m / 2) == m;
    LastPoint(a, b, m);
  }

  /** simpsonNonRecursive: rounds an odd count up, then the loop adds 4 f(x) at odd and
      2 f(x) at even interior indices. A count that becomes 0 (n = 0 or n = -1) divides by
      zero in the source and is excluded. */
  method SimpsonNonRecursive(f: real -> real, a: real, b: real, nIntervals: int) returns (r: real)
    requires EvenUp(nIntervals) != 0
    ensures r == SimpsonRule(f, a, b, nIntervals)
  {
    var n := nIntervals;
    if n % 2 != 0 {
      n := n + 1;
    }
    var h := (b - a) / (n as real);
    var sum := f(a) + f(b);
    var i := 1;
    while i < n
      invariant 1 <= i <= (if n >= 1 then n else 1)
      invariant sum == f(a) + f(b) + WeightedSamples(f, a, h, 1, i)
    {
      var x := Point(a, h, i);
      assert WeightedSamples(f, a, h, 1, i + 1) == WeightedSamples(f, a, h, 1, i) + SimpsonWeight(i) * f(x);
      sum := sum + (if i % 2 == 0 then 2.0 * f(x) else 4.0 * f(x));
      i := i + 1;
    }
    if n < 1 {
      assert WeightedSamples(f, a, h, 1, i) == 0.0 == WeightedSamples(f, a, h, 1, n);
    }
    r := h * sum / 3.0;
  }

  // ---------------------------------------------------------------------------------------
  // recursive adaptive rules

  /** adaptiveTrapezoidalRecursive: the basic rule at the depth limit; otherwise the two-panel
      value when it is within tol of the one-panel value, else both halves with tol/2. */
  function AdaptiveTrapezoidal(f: real -> real, a: real, b: real, tol: real, maxDepth: int, depth: int): real
    decreases maxDepth - depth
  {
    if depth >= maxDepth then
      BasicTrapezoidal(f, a, b)
    else
      var c := (a + b) / 2.0;
      var oneTrap := BasicTrapezoidal(f, a, b);
      var twoTrap := BasicTrapezoidal(f, a, c) + BasicTrapezoidal(f, c, b);
      if Abs(twoTrap - oneTrap) < tol then twoTrap
      else AdaptiveTrapezoidal(f, a, c, tol / 2.0, maxDepth, depth + 1)
           + AdaptiveTrapezoidal(f, c, b, tol / 2.0, maxDepth, depth + 1)
  }

  /** When basicTrapezoidal is exact for f on every interval, with primitive F, so is
      adaptive refinement, whatever the tolerance and depth: each accepted or recursed split
      adds up to the whole. */
  lemma {:induction false} AdaptiveTrapezoidalExact(f: real -> real, F: real -> real, a: real, b: real, tol: real, maxDepth: int, depth: int)
    requires forall p, q {:trigger BasicTrapezoidal(f, p, q)} :: BasicTrapezoidal(f, p, q) == F(q) - F(p)
    ensures AdaptiveTrapezoidal(f, a, b, tol, maxDepth, depth) == F(b) - F(a)
    decreases maxDepth - depth
  {
    if depth < maxDepth {
      var c := (a + b) / 2.0;
      AdaptiveTrapezoidalExact(f, F, a, c, tol / 2.0, maxDepth, depth + 1);
      AdaptiveTrapezoidalExact(f, F, c, b, tol / 2.0, maxDepth, depth + 1);
      AdaptiveTrapezoidalStepExact(f, F, a, c, b, tol, maxDepth, depth);
    }
  }

  /** One adaptive trapezoid step, with midpoint c, is exact when basicTrapezoidal is exact
      on the panel and its halves and both recursive halves are. */
  lemma AdaptiveTrapezoidalStepExact(f: real -> real, F: real -> real, a: real, c: real, b: real, tol: real, maxDepth: int, depth: int)
    requires depth < maxDepth && c == (a + b) / 2.0
    requires BasicTrapezoidal(f, a, b) == F(b) - F(a)
    requires BasicTrapezoidal(f, a, c) == F(c) - F(a)
    requires BasicTrapezoidal(f, c, b) == F(b) - F(c)
    requires AdaptiveTrapezoidal(f, a, c, tol / 2.0, maxDepth, depth + 1) == F(c) - F(a)
    requires AdaptiveTrapezoidal(f, c, b, tol / 2.0, maxDepth, depth + 1) == F(b) - F(c)
    ensures AdaptiveTrapezoidal(f, a, b, tol, maxDepth, depth) == F(b) - F(a)
  {
  }

  /** Whatever the tolerance and depth, adaptive refinement integrates affine functions
      exactly. */
  lemma AdaptiveTrapezoidalExactForAffine(f: real -> real, m: real, c: real,
                                          a: real, b: real, tol: real, maxDepth: int, depth: int)
    requires forall x :: f(x) == m * x + c
    ensures AdaptiveTrapezoidal(f, a, b, tol, maxDepth, depth) == m * (b * b - a * a) / 2.0 + c * (b - a)
  {
    forall p, q ensures BasicTrapezoidal(f, p, q) == AffinePrimitive(m, c, q) - AffinePrimitive(m, c, p) {
      BasicTrapezoidalAffinePrimitive(f, m, c, p, q);
    }
    AdaptiveTrapezoidalExact(f, x => AffinePrimitive(m, c, x), a, b, tol, maxDepth, depth);
  }

  /** adaptiveSimpsonRecursive: basicSimpson at the depth limit; otherwise the inline
      whole/left/right panels, accepting left + right (no correction term) when within tol,
      else both halves with tol/2. */
  function AdaptiveSimpson(f: real -> real, a: real, b: real, tol: real, maxDepth: int, depth: int): real
    decreases maxDepth - depth
  {
    if depth >= maxDepth then
      BasicSimpson(f, a, b)
    else
      var c := (a + b) / 2.0;
      var fa, fb, fc := f(a), f(b), f(c);
      var whole := (b - a) * (fa + 4.0 * fc + fb) / 6.0;
      var left := (c - a) * (fa + 4.0 * f((a + c) / 2.0) + fc) / 6.0;
      var right := (b - c) * (fc + 4.0 * f((c + b) / 2.0) + fb) / 6.0;
      if Abs(left + right - whole) < tol then left + right
      else AdaptiveSimpson(f, a, c, tol / 2.0, maxDepth, depth + 1)
           + AdaptiveSimpson(f, c, b, tol / 2.0, maxDepth, depth + 1)
  }

  /** The inline panels of one adaptive Simpson step are basicSimpson on [a,b], [a,c], [c,b]. */
  lemma AdaptiveSimpsonPanels(f: real -> real, a: real, b: real)
    ensures var c := (a + b) / 2.0;
            && (b - a) * (f(a) + 4.0 * f(c) + f(b)) / 6.0 == BasicSimpson(f, a, b)
            && (c - a) * (f(a) + 4.0 * f((a + c) / 2.0) + f(c)) / 6.0 == BasicSimpson(f, a, c)
            && (b - c) * (f(c) + 4.0 * f((c + b) / 2.0) + f(b)) / 6.0 == BasicSimpson(f, c, b)
  {
    var c := (a + b) / 2.0;
    BasicSimpsonInline(f, a, b);
    BasicSimpsonInline(f, a, c);
    BasicSimpsonInline(f, c, b);
  }

  /** One adaptive Simpson step in terms of basicSimpson on the whole panel and its halves. */
  lemma AdaptiveSimpsonStep(f: real -> real, a: real, b: real, tol: real, maxDepth: int, depth: int)
    requires depth < maxDepth
    ensures var c := (a + b) / 2.0;
            var whole, left, right := BasicSimpson(f, a, b), BasicSimpson(f, a, c), BasicSimpson(f, c, b);
            AdaptiveSimpson(f, a, b, tol, maxDepth, depth)
            == if Abs(left + right - whole) < tol then left + right
               else AdaptiveSimpson(f, a, c, tol / 2.0, maxDepth, depth + 1) + AdaptiveSimpson(f, c, b, tol / 2.0, maxDepth, depth + 1)
  {
    AdaptiveSimpsonPanels(f, a, b);
  }

  /** One adaptive Simpson step is exact when basicSimpson is exact on the panel and its
      halves and both recursive halves are. */
  lemma AdaptiveSimpsonStepExact(f: real -> real, F: real -> real, a: real, c: real, b: real, tol: real, maxDepth: int, depth: int)
    requires depth < maxDepth && c == (a + b) / 2.0
    requires BasicSimpson(f, a, b) == F(b) - F(a)
    requires BasicSimpson(f, a, c) == F(c) - F(a)
    requires BasicSimpson(f, c, b) == F(b) - F(c)
    requires AdaptiveSimpson(f, a, c, tol / 2.0, maxDepth, depth + 1) == F(c) - F(a)
    requires AdaptiveSimpson(f, c, b, tol / 2.0, maxDepth, depth + 1) == F(b) - F(c)
    ensures AdaptiveSimpson(f, a, b, tol, maxDepth, depth) == F(b) - F(a)
  {
    AdaptiveSimpsonStep(f, a, b, tol, maxDepth, depth);
  }

  /** With basicSimpson exact everywhere, a step is exact once both halves are. */
  lemma AdaptiveSimpsonCombine(f: real -> real, F: real -> real, a: real, c: real, b: real, tol: real, maxDepth: int, depth: int)
    requires depth < maxDepth && c == (a + b) / 2.0
    requires forall p, q {:trigger BasicSimpson(f, p, q)} :: BasicSimpson(f, p, q) == F(q) - F(p)
    requires AdaptiveSimpson(f, a, c, tol / 2.0, maxDepth, depth + 1) == F(c) - F(a)
    requires AdaptiveSimpson(f, c, b, tol / 2.0, maxDepth, depth + 1) == F(b) - F(c)
    ensures AdaptiveSimpson(f, a, b, tol, maxDepth, depth) == F(b) - F(a)
  {
    AdaptiveSimpsonStepExact(f, F, a, c, b, tol, maxDepth, depth);
  }

  /** When basicSimpson is exact for f on every interval, with primitive F, so is adaptive
      Simpson, whatever the tolerance and depth. */
  lemma {:induction false} AdaptiveSimpsonExact(f: real -> real, F: real -> real, a: real, b: real, tol: real, maxDepth: int, depth: int)
    requires forall p, q {:trigger BasicSimpson(f, p, q)} :: BasicSimpson(f, p, q) == F(q) - F(p)
    ensures AdaptiveSimpson(f, a, b, tol, maxDepth, depth) == F(b) - F(a)
    decreases maxDepth - depth
  {
    if depth < maxDepth {
      var c := (a + b) / 2.0;
      AdaptiveSimpsonExact(f, F, a, c, tol / 2.0, maxDepth, depth + 1);
      AdaptiveSimpsonExact(f, F, c, b, tol / 2.0, maxDepth, depth + 1);
      AdaptiveSimpsonCombine(f, F, a, c, b, tol, maxDepth, depth);
    }
  }

  /** For x*x, adaptive Simpson returns (b^3 - a^3)/3 whatever the tolerance and depth. */
  lemma AdaptiveSimpsonExactForSquare(f: real -> real, a: real, b: real, tol: real, maxDepth: int, depth: int)
    requires forall x :: f(x) == x * x
    ensures AdaptiveSimpson(f, a, b, tol, maxDepth, depth) == (Cube(b) - Cube(a)) / 3.0
  {
    forall p, q ensures BasicSimpson(f, p, q) == Cube(q) / 3.0 - Cube(p) / 3.0 {
      BasicSimpsonExactForSquare(f, p, q);
    }
    AdaptiveSimpsonExact(f, x => Cube(x) / 3.0, a, b, tol, maxDepth, depth);
  }

  /** simpsonNonAdaptiveRecursive: despite its name, the same adaptive routine. */
  function SimpsonNonAdaptiveRecursive(f: real -> real, a: real, b: real, tol: real, maxDepth: int, depth: int): real
    decreases maxDepth - depth
  {
    if depth >= maxDepth then
      BasicSimpson(f, a, b)
    else
      var c := (a + b) / 2.0;
      var fa, fb, fc := f(a), f(b), f(c);
      var whole := (b - a) * (fa + 4.0 * fc + fb) / 6.0;
      var left := (c - a) * (fa + 4.0 * f((a + c) / 2.0) + fc) / 6.0;
      var right := (b - c) * (fc + 4.0 * f((c + b) / 2.0) + fb) / 6.0;
      if Abs(left + right - whole) < tol then left + right
      else SimpsonNonAdaptiveRecursive(f, a, c, tol / 2.0, maxDepth, depth + 1)
           + SimpsonNonAdaptiveRecursive(f, c, b, tol / 2.0, maxDepth, depth + 1)
  }

  lemma {:induction false} SimpsonNonAdaptiveIsAdaptive(f: real -> real, a: real, b: real, tol: real, maxDepth: int, depth: int)
    ensures SimpsonNonAdaptiveRecursive(f, a, b, tol, maxDepth, depth) == AdaptiveSimpson(f, a, b, tol, maxDepth, depth)
    decreases maxDepth - depth
  {
    if depth < maxDepth {
      var c := (a + b) / 2.0;
      SimpsonNonAdaptiveIsAdaptive(f, a, c, tol / 2.0, maxDepth, depth + 1);
      SimpsonNonAdaptiveIsAdaptive(f, c, b, tol / 2.0, maxDepth, depth + 1);
    }
  }

  // ---------------------------------------------------------------------------------------
  // explicit-stack adaptive trapezoid

  /** struct Interval: bounds, cached endpoint values, trapezoid area and depth. */
  datatype Interval = Interval(a: real, b: real, fa: real, fb: real, area: real, depth: int)

  /** The adaptive trapezoid that the stack loop computes: like AdaptiveTrapezoidal, but the
      same tolerance is used at every depth. */
  function FixedTolTrapezoidal(f: real -> real, a: real, b: real, tol: real, maxDepth: int, depth: int): real
    decreases maxDepth - depth
  {
    if depth >= maxDepth then
      BasicTrapezoidal(f, a, b)
    else
      var mid := (a + b) / 2.0;
      var left := BasicTrapezoidal(f, a, mid);
      var right := BasicTrapezoidal(f, mid, b);
      if Abs(left + right - BasicTrapezoidal(f, a, b)) < tol then left + right
      else FixedTolTrapezoidal(f, a, mid, tol, maxDepth, depth + 1)
           + FixedTolTrapezoidal(f, mid, b, tol, maxDepth, depth + 1)
  }

  /** Both adaptive trapezoids integrate affine functions exactly. */
  lemma {:induction false} FixedTolTrapezoidalExactForAffine(f: real -> real, m: real, c: real,
                                                             a: real, b: real, tol: real, maxDepth: int, depth: int)
    requires forall x :: f(x) == m * x + c
    ensures FixedTolTrapezoidal(f, a, b, tol, maxDepth, depth) == m * (b * b - a * a) / 2.0 + c * (b - a)
    decreases maxDepth - depth
  {
    BasicTrapezoidalExactForAffine(f, m, c, a, b);
    if depth < maxDepth {
      var mid := (a + b) / 2.0;
      BasicTrapezoidalExactForAffine(f, m, c, a, mid);
      BasicTrapezoidalExactForAffine(f, m, c, mid, b);
      FixedTolTrapezoidalExactForAffine(f, m, c, a, mid, tol, maxDepth, depth + 1);
      FixedTolTrapezoidalExactForAffine(f, m, c, mid, b, tol, maxDepth, depth + 1);
    }
  }

  /** An interval record whose cached values and area agree with f. */
  predicate Cached(f: real -> real, iv: Interval) {
    iv.fa == f(iv.a) && iv.fb == f(iv.b) && iv.area == TrapezoidArea(iv.a, iv.b, iv.fa, iv.fb)
  }

  /** The value the intervals still on the stack will contribute. */
  function Pending(f: real -> real, stack: seq<Interval>, tol: real, maxDepth: int): real {
    if stack == [] then 0.0
    else
      var top := stack[|stack| - 1];
      Pending(f, stack[..|stack| - 1], tol, maxDepth) + FixedTolTrapezoidal(f, top.a, top.b, tol, maxDepth, top.depth)
  }

  /** A bound on the number of loop iterations one interval at depth d can still cause. */
  function Work(d: int, maxDepth: int): (w: nat)
    ensures w >= 1
    ensures d < maxDepth ==> w == 2 * Work(d + 1, maxDepth) + 1
    decreases maxDepth - d
  {
    if d >= maxDepth then 1 else 2 * Work(d + 1, maxDepth) + 1
  }

  function StackWork(stack: seq<Interval>, maxDepth: int): nat {
    if stack == [] then 0 else StackWork(stack[..|stack| - 1], maxDepth) + Work(stack[|stack| - 1].depth, maxDepth)
  }

  /** What one popped interval contributes, in terms of its cached values: its area at the
      depth limit; otherwise the two half areas when they are within tol of its area, else
      the contributions of the two halves one level deeper. */
  lemma IntervalValue(f: real -> real, iv: Interval, tol: real, maxDepth: int)
    requires Cached(f, iv)
    ensures var mid := (iv.a + iv.b) / 2.0;
            var leftArea := TrapezoidArea(iv.a, mid, iv.fa, f(mid));
            var rightArea := TrapezoidArea(mid, iv.b, f(mid), iv.fb);
            FixedTolTrapezoidal(f, iv.a, iv.b, tol, maxDepth, iv.depth)
            == if iv.depth >= maxDepth then iv.area
               else if Abs(leftArea + rightArea - iv.area) < tol then leftArea + rightArea
               else FixedTolTrapezoidal(f, iv.a, mid, tol, maxDepth, iv.depth + 1)
                    + FixedTolTrapezoidal(f, mid, iv.b, tol, maxDepth, iv.depth + 1)
  {
  }

  /** Replacing the top interval by its right and then its left half: the pending value
      and the remaining work after the push. */
  lemma PushHalves(f: real -> real, rest: seq<Interval>, right: Interval, left: Interval, tol: real, maxDepth: int)
    ensures Pending(f, rest + [right] + [left], tol, maxDepth)
            == Pending(f, rest, tol, maxDepth)
               + FixedTolTrapezoidal(f, right.a, right.b, tol, maxDepth, right.depth)
               + FixedTolTrapezoidal(f, left.a, left.b, tol, maxDepth, left.depth)
    ensures StackWork(rest + [right] + [left], maxDepth)
            == StackWork(rest, maxDepth) + Work(right.depth, maxDepth) + Work(left.depth, maxDepth)
  {
    var st := rest + [right] + [left];
    assert st[..|st| - 1] == rest + [right];
    assert (rest + [right])[..|rest|] == rest;
  }

  /** The pieces run contiguously from lo to hi, left to right. */
  ghost predicate Chain(pieces: seq<(real, real)>, lo: real, hi: real)
    decreases |pieces|
  {
    if pieces == [] then lo == hi
    else Chain(pieces[..|pieces| - 1], lo, pieces[|pieces| - 1].0) && pieces[|pieces| - 1].1 == hi
  }

  /** The stack, read from its top down, runs contiguously from lo to hi. */
  ghost predicate StackChain(stack: seq<Interval>, lo: real, hi: real)
    decreases |stack|
  {
    if stack == [] then lo == hi
    else stack[|stack| - 1].a == lo && StackChain(stack[..|stack| - 1], stack[|stack| - 1].b, hi)
  }

  /** basicTrapezoidal summed over a list of pieces. */
  function PieceSum(f: real -> real, pieces: seq<(real, real)>): real {
    if pieces == [] then 0.0
    else PieceSum(f, pieces[..|pieces| - 1]) + BasicTrapezoidal(f, pieces[|pieces| - 1].0, pieces[|pieces| - 1].1)
  }

  /** The loop invariant of the stack variant: cached values agree with f; what has been
      added plus what the stack will add is the fixed-tolerance value on [a, b]; the pieces
      added so far run from a to `cursor` and the stack, top first, from `cursor` to b; and
      the total is the sum of the pieces' areas. */
  ghost predicate StackInv(f: real -> real, a: real, b: real, tol: real, maxDepth: int,
                           stack: seq<Interval>, total: real, pieces: seq<(real, real)>, cursor: real)
  {
    && (forall iv :: iv in stack ==> Cached(f, iv))
    && total + Pending(f, stack, tol, maxDepth) == FixedTolTrapezoidal(f, a, b, tol, maxDepth, 0)
    && Chain(pieces, a, cursor) && StackChain(stack, cursor, b)
    && total == PieceSum(f, pieces)
  }

  lemma StackStart(f: real -> real, a: real, b: real, tol: real, maxDepth: int)
    ensures StackInv(f, a, b, tol, maxDepth, [Interval(a, b, f(a), f(b), TrapezoidArea(a, b, f(a), f(b)), 0)], 0.0, [], a)
  {
    var stack := [Interval(a, b, f(a), f(b), TrapezoidArea(a, b, f(a), f(b)), 0)];
    assert stack[..0] == [];
  }

  /** Popping an interval at the depth limit adds its area as one piece. */
  lemma StackStepLimit(f: real -> real, a: real, b: real, tol: real, maxDepth: int,
                       stack: seq<Interval>, total: real, pieces: seq<(real, real)>, cursor: real)
    requires StackInv(f, a, b, tol, maxDepth, stack, total, pieces, cursor)
    requires stack != [] && stack[|stack| - 1].depth >= maxDepth
    ensures var top, rest := stack[|stack| - 1], stack[..|stack| - 1];
            && StackInv(f, a, b, tol, maxDepth, rest, total + top.area, pieces + [(top.a, top.b)], top.b)
            && StackWork(rest, maxDepth) < StackWork(stack, maxDepth)
  {
    var top, rest := stack[|stack| - 1], stack[..|stack| - 1];
    assert Cached(f, top);
    IntervalValue(f, top, tol, maxDepth);
    var pieces' := pieces + [(top.a, top.b)];
    assert pieces'[..|pieces'| - 1] == pieces;
  }

  /** Splitting an interval and accepting both halves adds them as two pieces. */
  lemma StackStepAccept(f: real -> real, a: real, b: real, tol: real, maxDepth: int,
                        stack: seq<Interval>, total: real, pieces: seq<(real, real)>, cursor: real,
                        left: Interval, right: Interval)
    requires StackInv(f, a, b, tol, maxDepth, stack, total, pieces, cursor)
    requires stack != [] && stack[|stack| - 1].depth < maxDepth
    requires var top := stack[|stack| - 1];
             var mid := (top.a + top.b) / 2.0;
             && left == Interval(top.a, mid, top.fa, f(mid), TrapezoidArea(top.a, mid, top.fa, f(mid)), top.depth + 1)
             && right == Interval(mid, top.b, f(mid), top.fb, TrapezoidArea(mid, top.b, f(mid), top.fb), top.depth + 1)
             && Abs(left.area + right.area - top.area) < tol
    ensures var top, rest := stack[|stack| - 1], stack[..|stack| - 1];
            && StackInv(f, a, b, tol, maxDepth, rest, total + (left.area + right.area),
                        pieces + [(top.a, left.b), (left.b, top.b)], top.b)
            && StackWork(rest, maxDepth) < StackWork(stack, maxDepth)
  {
    var top, rest := stack[|stack| - 1], stack[..|stack| - 1];
    assert Cached(f, top);
    IntervalValue(f, top, tol, maxDepth);
    var pieces' := pieces + [(top.a, left.b), (left.b, top.b)];
    assert pieces'[..|pieces'| - 1] == pieces + [(top.a, left.b)];
    assert pieces'[..|pieces'| - 1][..|pieces|] == pieces;
  }

  /** Splitting an interval and rejecting the halves pushes the right one, then the left. */
  lemma StackStepSplit(f: real -> real, a: real, b: real, tol: real, maxDepth: int,
                       stack: seq<Interval>, total: real, pieces: seq<(real, real)>, cursor: real,
                       left: Interval, right: Interval)
    requires StackInv(f, a, b, tol, maxDepth, stack, total, pieces, cursor)
    requires stack != [] && stack[|stack| - 1].depth < maxDepth
    requires var top := stack[|stack| - 1];
             var mid := (top.a + top.b) / 2.0;
             && left == Interval(top.a, mid, top.fa, f(mid), TrapezoidArea(top.a, mid, top.fa, f(mid)), top.depth + 1)
             && right == Interval(mid, top.b, f(mid), top.fb, TrapezoidArea(mid, top.b, f(mid), top.fb), top.depth + 1)
             && !(Abs(left.area + right.area - top.area) < tol)
    ensures var rest := stack[..|stack| - 1];
            && StackInv(f, a, b, tol, maxDepth, rest + [right] + [left], total, pieces, cursor)
            && StackWork(rest + [right] + [left], maxDepth) < StackWork(stack, maxDepth)
  {
    var top, rest := stack[|stack| - 1], stack[..|stack| - 1];
    assert Cached(f, top);
    IntervalSplitValue(f, top, left, right, tol, maxDepth);
    ReplaceTop(f, stack, right, left, tol, maxDepth, cursor, b);
  }

  /** A rejected split owes what its two halves owe one level deeper. */
  lemma IntervalSplitValue(f: real -> real, iv: Interval, left: Interval, right: Interval, tol: real, maxDepth: int)
    requires Cached(f, iv) && iv.depth < maxDepth
    requires var mid := (iv.a + iv.b) / 2.0;
             && left == Interval(iv.a, mid, iv.fa, f(mid), TrapezoidArea(iv.a, mid, iv.fa, f(mid)), iv.depth + 1)
             && right == Interval(mid, iv.b, f(mid), iv.fb, TrapezoidArea(mid, iv.b, f(mid), iv.fb), iv.depth + 1)
             && !(Abs(left.area + right.area - iv.area) < tol)
    ensures Cached(f, left) && Cached(f, right)
    ensures FixedTolTrapezoidal(f, iv.a, iv.b, tol, maxDepth, iv.depth)
            == FixedTolTrapezoidal(f, left.a, left.b, tol, maxDepth, left.depth)
               + FixedTolTrapezoidal(f, right.a, right.b, tol, maxDepth, right.depth)
  {
    IntervalValue(f, iv, tol, maxDepth);
  }

  /** Replacing the top of a stack by two halves that tile it, are cached, owe between them
      what it owed and each cost less than half its work keeps the stack's pending value,
      cached values and chain, and lowers its work. */
  lemma ReplaceTop(f: real -> real, stack: seq<Interval>, right: Interval, left: Interval,
                   tol: real, maxDepth: int, cursor: real, b: real)
    requires stack != [] && StackChain(stack, cursor, b)
    requires forall iv :: iv in stack ==> Cached(f, iv)
    requires Cached(f, left) && Cached(f, right)
    requires var top := stack[|stack| - 1];
             && left.a == top.a && left.b == right.a && right.b == top.b
             && left.depth == right.depth == top.depth + 1 && top.depth < maxDepth
             && FixedTolTrapezoidal(f, top.a, top.b, tol, maxDepth, top.depth)
                == FixedTolTrapezoidal(f, left.a, left.b, tol, maxDepth, left.depth)
                   + FixedTolTrapezoidal(f, right.a, right.b, tol, maxDepth, right.depth)
    ensures var stack' := stack[..|stack| - 1] + [right] + [left];
            && Pending(f, stack', tol, maxDepth) == Pending(f, stack, tol, maxDepth)
            && StackChain(stack', cursor, b)
            && (forall iv :: iv in stack' ==> Cached(f, iv))
            && StackWork(stack', maxDepth) < StackWork(stack, maxDepth)
  {
    var top, rest := stack[|stack| - 1], stack[..|stack| - 1];
    PushHalves(f, rest, right, left, tol, maxDepth);
    var stack' := rest + [right] + [left];
    assert stack'[..|stack'| - 1] == rest + [right];
    assert stack'[..|stack'| - 1][..|rest|] == rest;
    assert StackChain(stack', cursor, b);
    forall iv | iv in stack'
      ensures Cached(f, iv)
    {
      if iv != left && iv != right {
        assert iv in rest;
      }
    }
  }

  /** One pass of adaptiveTrapezoidalNonRecursive's loop: pops the top interval; at the depth
      limit adds its area; otherwise evaluates f once at the midpoint, builds both halves
      from the cached endpoint values, and either adds them (within `tolerance`, never
      halved) or pushes the right half and then the left. The loop invariant is kept and
      the remaining work drops. */
  method StackPass(f: real -> real, a: real, b: real, tolerance: real, maxDepth: int,
                   intervals: seq<Interval>, total: real, ghost pieces: seq<(real, real)>, ghost cursor: real)
    returns (intervals': seq<Interval>, total': real, ghost pieces': seq<(real, real)>, ghost cursor': real)
    requires intervals != [] && StackInv(f, a, b, tolerance, maxDepth, intervals, total, pieces, cursor)
    ensures StackInv(f, a, b, tolerance, maxDepth, intervals', total', pieces', cursor')
    ensures StackWork(intervals', maxDepth) < StackWork(intervals, maxDepth)
  {
    var interval := intervals[|intervals| - 1];
    intervals' := intervals[..|intervals| - 1];
    if interval.depth >= maxDepth {
      StackStepLimit(f, a, b, tolerance, maxDepth, intervals, total, pieces, cursor);
      total' := total + interval.area;
      pieces' := pieces + [(interval.a, interval.b)];
      cursor' := interval.b;
      return;
    }
    var mid := (interval.a + interval.b) / 2.0;
    var fMid := f(mid);
    var left := Interval(interval.a, mid, interval.fa, fMid, TrapezoidArea(interval.a, mid, interval.fa, fMid), interval.depth + 1);
    var right := Interval(mid, interval.b, fMid, interval.fb, TrapezoidArea(mid, interval.b, fMid, interval.fb), interval.depth + 1);
    var error := Abs(left.area + right.area - interval.area);
    if error < tolerance {
      StackStepAccept(f, a, b, tolerance, maxDepth, intervals, total, pieces, cursor, left, right);
      total' := total + (left.area + right.area);
      pieces' := pieces + [(interval.a, mid), (mid, interval.b)];
      cursor' := interval.b;
    } else {
      StackStepSplit(f, a, b, tolerance, maxDepth, intervals, total, pieces, cursor, left, right);
      intervals' := intervals' + [right];
      intervals' := intervals' + [left];
      total', pieces', cursor' := total, pieces, cursor;
    }
  }

  /** adaptiveTrapezoidalNonRecursive: starts from [a, b] at depth 0 and runs the loop pass
      until the stack is empty. The result is the fixed-tolerance adaptive trapezoid, and
      the pieces whose areas were added tile [a, b] from left to right. */
  method AdaptiveTrapezoidalNonRecursive(f: real -> real, a: real, b: real, tolerance: real, maxDepth: int)
    returns (total: real, ghost pieces: seq<(real, real)>)
    ensures total == FixedTolTrapezoidal(f, a, b, tolerance, maxDepth, 0)
    ensures Chain(pieces, a, b) && total == PieceSum(f, pieces)
  {
    var intervals: seq<Interval> := [];
    total := 0.0;
    var fa, fb := f(a), f(b);
    intervals := intervals + [Interval(a, b, fa, fb, TrapezoidArea(a, b, fa, fb), 0)];
    pieces := [];
    ghost var cursor := a;
    StackStart(f, a, b, tolerance, maxDepth);
    while intervals != []
      invariant StackInv(f, a, b, tolerance, maxDepth, intervals, total, pieces, cursor)
      decreases StackWork(intervals, maxDepth)
    {
      intervals, total, pieces, cursor := StackPass(f, a, b, tolerance, maxDepth, intervals, total, pieces, cursor);
    }
  }
}
