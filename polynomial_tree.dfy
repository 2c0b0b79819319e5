/** The polynomial expression tree: nodes are constants, variables or binary operators, and
    a child pointer may be null. `differentiate` applies the sum and product rules
    symbolically, `evaluate` computes the value at x, and `definePolynomial` builds the
    product of (x - z) over a list of zeros. */
module PolynomialTree {

  /** A `std::shared_ptr<Node>`: Null is the null pointer. */
  datatype Expr =
    | Null
    | Constant(value: real)
    | Variable(name: char)
    | Operator(op: char, left: Expr, right: Expr)

  /** differentiate: null stays null, a constant becomes 0, any variable becomes 1, '+' uses
      the sum rule, '*' the product rule, and any other operator yields null. */
  function Differentiate(e: Expr): Expr {
    match e
    case Null => Null
    case Constant(_) => Constant(0.0)
    case Variable(_) => Constant(1.0)
    case Operator(op, l, r) =>
      if op == '+' then
        Operator('+', Differentiate(l), Differentiate(r))
      else if op == '*' then
        Operator('+', Operator('*', Differentiate(l), r), Operator('*', l, Differentiate(r)))
      else
        Null
  }

  /** Real multiplication, named so that proofs can rewrite its operands by equality. */
  function Mul(a: real, b: real): real { a * b }

  /** evaluate: null is 0, a constant its value, every variable (whatever its name) is x,
      '+' and '*' add and multiply, any other operator is 0. */
  function Evaluate(e: Expr, x: real): real {
    match e
    case Null => 0.0
    case Constant(v) => v
    case Variable(_) => x
    case Operator(op, l, r) =>
      if op == '+' then Evaluate(l, x) + Evaluate(r, x)
      else if op == '*' then Mul(Evaluate(l, x), Evaluate(r, x))
      else 0.0
  }

  /** A tree built only from constants, variables, '+' and '*', with no null pointer. */
  predicate Polynomial(e: Expr) {
    match e
    case Null => false
    case Constant(_) => true
    case Variable(_) => true
    case Operator(op, l, r) => (op == '+' || op == '*') && Polynomial(l) && Polynomial(r)
  }

  /** An independent definition of the derivative: forward-mode evaluation on dual numbers
      (value, slope), where the slope of a product follows the product rule. Every node
      that `evaluate` maps to a constant has slope 0. */
  datatype DualNumber = DualNumber(value: real, slope: real)

  function Dual(e: Expr, x: real): DualNumber {
    match e
    case Null => DualNumber(0.0, 0.0)
    case Constant(v) => DualNumber(v, 0.0)
    case Variable(_) => DualNumber(x, 1.0)
    case Operator(op, l, r) =>
      var dl := Dual(l, x);
      var dr := Dual(r, x);
      if op == '+' then DualNumber(dl.value + dr.value, dl.slope + dr.slope)
      else if op == '*' then DualNumber(Mul(dl.value, dr.value), Mul(dl.slope, dr.value) + Mul(dl.value, dr.slope))
      else DualNumber(0.0, 0.0)
  }

  lemma {:induction false} DualValue(e: Expr, x: real)
    ensures Dual(e, x).value == Evaluate(e, x)
  {
    match e
    case Null =>
    case Constant(_) =>
    case Variable(_) =>
    case Operator(op, l, r) =>
      DualValue(l, x);
      DualValue(r, x);
  }

  /** The symbolic derivative evaluates to the slope that forward-mode differentiation
      computes, for every tree and every x: the sum and product rules are applied correctly. */
  lemma {:induction false} DifferentiateIsDerivative(e: Expr, x: real)
    ensures Evaluate(Differentiate(e), x) == Dual(e, x).slope
  {
    match e
    case Null =>
    case Constant(_) =>
    case Variable(_) =>
    case Operator(op, l, r) =>
      DifferentiateIsDerivative(l, x);
      DifferentiateIsDerivative(r, x);
      DualValue(l, x);
      DualValue(r, x);
  }

  /** On polynomial trees differentiate never returns null and yields a polynomial tree. */
  lemma {:induction false} DifferentiatePreservesPolynomial(e: Expr)
    requires Polynomial(e)
    ensures Differentiate(e) != Null && Polynomial(Differentiate(e))
  {
    match e
    case Constant(_) =>
    case Variable(_) =>
    case Operator(op, l, r) =>
      DifferentiatePreservesPolynomial(l);
      DifferentiatePreservesPolynomial(r);
  }

  /** An operator other than '+' or '*' differentiates to null, and evaluates to 0 at every x. */
  lemma UnknownOperatorDifferentiatesToNull(op: char, l: Expr, r: Expr)
    requires op != '+' && op != '*'
    ensures Differentiate(Operator(op, l, r)) == Null
    ensures forall x :: Evaluate(Operator(op, l, r), x) == 0.0
  {
  }

  /** The product of (x + (-z)) over the zeros, in the order the loop multiplies them in. */
  function RootProduct(zeros: seq<real>, x: real): real
    decreases |zeros|
  {
    if zeros == [] then 1.0
    else RootProduct(zeros[..|zeros| - 1], x) * (x + -zeros[|zeros| - 1])
  }

  /** A product with a vanishing factor vanishes: the polynomial is zero at every listed zero. */
  lemma {:induction false} RootProductVanishes(zeros: seq<real>, k: int)
    requires 0 <= k < |zeros|
    ensures RootProduct(zeros, zeros[k]) == 0.0
    decreases |zeros|
  {
    var last := |zeros| - 1;
    if k < last {
      assert zeros[..last][k] == zeros[k];
      RootProductVanishes(zeros[..last], k);
    }
  }

  /** definePolynomial: null for no zeros; otherwise, starting from the constant 1, the loop
      wraps the tree so far in '*'(poly, '+'(x, -zero)) once per zero. */
  method DefinePolynomial(zeros: seq<real>) returns (poly: Expr)
    ensures zeros == [] <==> poly == Null
    ensures zeros != [] ==> Polynomial(poly)
    ensures zeros != [] ==> forall x :: Evaluate(poly, x) == RootProduct(zeros, x)
  {
    if zeros == [] {
      return Null;
    }
    poly := Constant(1.0);
    for i := 0 to |zeros|
      invariant Polynomial(poly)
      invariant forall x :: Evaluate(poly, x) == RootProduct(zeros[..i], x)
    {
      var term := Operator('*', poly, Operator('+', Variable('x'), Constant(-zeros[i])));
      assert zeros[..i + 1][..i] == zeros[..i];
      forall x
        ensures Evaluate(term, x) == RootProduct(zeros[..i + 1], x)
      {
        var factor := Operator('+', Variable('x'), Constant(-zeros[i]));
        assert Evaluate(factor, x) == x + -zeros[i];
        assert Evaluate(term, x) == Evaluate(poly, x) * Evaluate(factor, x);
      }
      poly := term;
    }
    assert zeros[..|zeros|] == zeros;
  }

  /** A polynomial built from zeros evaluates to 0 at each of them. */
  lemma DefinedPolynomialVanishesAtZeros(zeros: seq<real>, poly: Expr, k: int)
    requires forall x :: Evaluate(poly, x) == RootProduct(zeros, x)
    requires 0 <= k < |zeros|
    ensures Evaluate(poly, zeros[k]) == 0.0
  {
    RootProductVanishes(zeros, k);
  }

  /** PolynomialBinaryTree: holds the root of one expression tree. */
  class PolynomialBinaryTree {
    var root: Expr

    constructor ()
      ensures root == Null
    {
      root := Null;
    }

    /** addNode: installs the node as root only while the tree is empty; otherwise the
        placeholder branch leaves the tree as it was. */
    method AddNode(newNode: Expr)
      modifies this
      ensures old(root) == Null ==> root == newNode
      ensures old(root) != Null ==> root == old(root)
    {
      if root == Null {
        root := newNode;
      }
    }
  }
}
