/** The second particle program: a Vector whose operator+ and dot product throw
    runtime_error on a size mismatch, a free norm function, and a Particle pushed by a
    time-dependent force (sin 2t, cos 2t[, cos 1.5t]) that ignores its mass. sin and cos
    are parameters. */
module CheckedVectorParticle {
  import opened Wrappers
  import opened VectorCommon

  datatype Vector = Vector(components: seq<real>) {
    /** size(): the number of components. */
    function Size(): (n: int)
      ensures n == |components| && n >= 0
    {
      |components|
    }

    /** operator[]: out_of_range exactly outside [0, size), else component i. */
    function At(i: int): (r: Result<real, VectorError>)
      ensures r.Failure? <==> i < 0 || i >= Size()
      ensures r.Failure? ==> r.error == OutOfRange
      ensures r.Success? ==> r.value == components[i]
    {
      if i < 0 || i >= Size() then Failure(OutOfRange) else Success(components[i])
    }
  }

  /** The value of a size-checked operator+: runtime_error on different sizes, else the
      component-wise sum. */
  function Sum(u: seq<real>, v: seq<real>): (r: Result<seq<real>, VectorError>)
    ensures r.Failure? <==> |u| != |v|
    ensures r.Failure? ==> r.error == RuntimeError
    ensures r.Success? ==> |r.value| == |u| && forall i :: 0 <= i < |u| ==> r.value[i] == u[i] + v[i]
  {
    if |u| != |v| then Failure(RuntimeError) else Success(Plus(u, v))
  }

  /** The value of a size-checked dot product. */
  function CheckedDot(u: seq<real>, v: seq<real>): (r: Result<real, VectorError>)
    ensures r.Failure? <==> |u| != |v|
    ensures r.Failure? ==> r.error == RuntimeError
  {
    if |u| != |v| then Failure(RuntimeError) else Success(Dot(u, v))
  }

  /** A checked sum succeeds in either order or in neither, with the same value. */
  lemma SumCommutes(u: seq<real>, v: seq<real>)
    ensures Sum(u, v) == Sum(v, u)
  {
    if |u| == |v| {
      PlusCommutes(u, v);
    }
  }

  /** A checked dot product succeeds in either order or in neither, with the same value. */
  lemma CheckedDotSymmetric(u: seq<real>, v: seq<real>)
    ensures CheckedDot(u, v) == CheckedDot(v, u)
  {
    if |u| == |v| {
      DotSymmetric(u, v);
    }
  }

  /** operator+: the size check, then a zero-filled result of this size written in place. */
  method Add(u: Vector, other: Vector) returns (r: Result<Vector, VectorError>)
    ensures r.Failure? <==> Sum(u.components, other.components).Failure?
    ensures r.Failure? ==> r.error == RuntimeError
    ensures r.Success? ==> r.value.components == Sum(u.components, other.components).value
  {
    if u.Size() != other.Size() {
      return Failure(RuntimeError);
    }
    var result := new real[u.Size()](_ => 0.0);
    for i := 0 to u.Size()
      invariant forall j :: 0 <= j < i ==> result[j] == u.components[j] + other.components[j]
    {
      result[i] := u.components[i] + other.components[i];
    }
    return Success(Vector(result[..]));
  }

  /** operator*(double): a zero-filled result of this size, written component by component. */
  method Scale(u: Vector, scalar: real) returns (r: Vector)
    ensures r.components == Scaled(u.components, scalar)
  {
    var result := new real[u.Size()](_ => 0.0);
    for i := 0 to u.Size()
      invariant forall j :: 0 <= j < i ==> result[j] == u.components[j] * scalar
    {
      result[i] := u.components[i] * scalar;
    }
    assert forall j :: 0 <= j < u.Size() ==> result[..][j] == Scaled(u.components, scalar)[j];
    r := Vector(result[..]);
  }

  /** operator*(double, Vector): forwards to v * scalar. */
  method ScaleLeft(scalar: real, v: Vector) returns (r: Vector)
    ensures r.components == Scaled(v.components, scalar)
  {
    r := Scale(v, scalar);
  }

  /** operator*(Vector): the size check, then the sum of products. */
  method DotProduct(u: Vector, other: Vector) returns (r: Result<real, VectorError>)
    ensures r == CheckedDot(u.components, other.components)
  {
    if u.Size() != other.Size() {
      return Failure(RuntimeError);
    }
    var d := 0.0;
    for i := 0 to u.Size()
      invariant d == Dot(u.components[..i], other.components)
    {
      assert u.components[..i + 1][..i] == u.components[..i];
      d := d + u.components[i] * other.components[i];
    }
    assert u.components[..u.Size()] == u.components;
    return Success(d);
  }

  /** The free function norm(v, type): one loop over the components per known type. */
  method VectorNorm(v: Vector, normType: string, sqrt: real -> real) returns (r: Result<real, VectorError>)
    ensures r == Norm(v.components, normType, sqrt)
  {
    var c := v.components;
    var result := 0.0;
    if normType == "L1" {
      for i := 0 to |c|
        invariant result == SumOfAbs(c[..i])
      {
        assert c[..i + 1][..i] == c[..i];
        result := result + Abs(c[i]);
      }
    } else if normType == "L2" {
      for i := 0 to |c|
        invariant result == SumOfSquares(c[..i])
      {
        assert c[..i + 1][..i] == c[..i];
        result := result + c[i] * c[i];
      }
      assert c[..|c|] == c;
      result := sqrt(result);
    } else if normType == "Linf" {
      for i := 0 to |c|
        invariant result == MaxAbs(c[..i])
      {
        assert c[..i + 1][..i] == c[..i];
        result := Max(result, Abs(c[i]));
      }
    } else {
      return Failure(InvalidArgument);
    }
    assert c[..|c|] == c;
    return Success(result);
  }

  /** force2D(t) = (sin 2t, cos 2t). */
  function Force2D(sin: real -> real, cos: real -> real, t: real): (f: Vector)
    ensures f.Size() == 2
  {
    Vector([sin(2.0 * t), cos(2.0 * t)])
  }

  /** force3D(t) = (sin 2t, cos 2t, cos 1.5t). */
  function Force3D(sin: real -> real, cos: real -> real, t: real): (f: Vector)
    ensures f.Size() == 3
  {
    Vector([sin(2.0 * t), cos(2.0 * t), cos(1.5 * t)])
  }

  /** The force update uses at time t. */
  function CurrentForce(sin: real -> real, cos: real -> real, t: real, is3D: bool): Vector {
    if is3D then Force3D(sin, cos, t) else Force2D(sin, cos, t)
  }

  /** What update does to (velocity, position), and whether it throws: v' = v + F*dt fails
      when v and F differ in size and then nothing changes; otherwise the velocity is
      replaced, and x' = x + v'*dt fails when x and v' differ in size, leaving the position
      (but not the new velocity) in place. The mass takes no part. */
  function Moved(position: seq<real>, velocity: seq<real>, force: seq<real>, dt: real)
    : (seq<real>, seq<real>, Outcome<VectorError>)
  {
    match Sum(velocity, Scaled(force, dt))
    case Failure(e) => (velocity, position, Fail(e))
    case Success(velocity') =>
      match Sum(position, Scaled(velocity', dt))
      case Failure(e) => (velocity', position, Fail(e))
      case Success(position') => (velocity', position', Pass)
  }

  /** A particle whose position and velocity have as many components as the force it is
      driven by updates without throwing and keeps those sizes. */
  lemma MovedMatchingSizes(position: seq<real>, velocity: seq<real>, force: seq<real>, dt: real)
    requires |position| == |velocity| == |force|
    ensures Moved(position, velocity, force, dt).2 == Pass
    ensures |Moved(position, velocity, force, dt).0| == |velocity|
    ensures |Moved(position, velocity, force, dt).1| == |position|
  {
  }

  /** A velocity whose size differs from the force's makes update throw and change nothing. */
  lemma MovedVelocityMismatch(position: seq<real>, velocity: seq<real>, force: seq<real>, dt: real)
    requires |velocity| != |force|
    ensures Moved(position, velocity, force, dt) == (velocity, position, Fail(RuntimeError))
  {
  }

  /** Over a zero time step a matching particle stays where it is. */
  lemma MovedZeroStep(position: seq<real>, velocity: seq<real>, force: seq<real>)
    requires |position| == |velocity| == |force|
    ensures Moved(position, velocity, force, 0.0) == (velocity, position, Pass)
  {
    var velocity' := Plus(velocity, Scaled(force, 0.0));
    assert velocity' == velocity;
    assert Plus(position, Scaled(velocity', 0.0)) == position;
  }

  class Particle {
    var mass: real
    var position: Vector
    var velocity: Vector

    constructor (mass: real, position: Vector, velocity: Vector)
      ensures this.mass == mass && this.position == position && this.velocity == velocity
    {
      this.mass, this.position, this.velocity := mass, position, velocity;
    }

    /** update(t, dt, is3D): evaluates the current force and takes one Euler step with it,
        as Moved says; the mass is never read. */
    method Update(t: real, dt: real, is3D: bool, sin: real -> real, cos: real -> real)
      returns (r: Outcome<VectorError>)
      modifies this
      ensures (velocity.components, position.components, r)
              == Moved(old(position.components), old(velocity.components), CurrentForce(sin, cos, t, is3D).components, dt)
      ensures mass == old(mass)
    {
      var currentForce := CurrentForce(sin, cos, t, is3D);
      var increment := Scale(currentForce, dt);
      var newVelocity := Add(velocity, increment);
      if newVelocity.Failure? {
        return Fail(newVelocity.error);
      }
      velocity := newVelocity.value;
      var step := Scale(velocity, dt);
      var newPosition := Add(position, step);
      if newPosition.Failure? {
        return Fail(newPosition.error);
      }
      position := newPosition.value;
      return Pass;
    }

    /** getPositionComponent(index): bounds-checked through operator[]. */
    function GetPositionComponent(index: int): (r: Result<real, VectorError>)
      reads this
      ensures r.Failure? <==> index < 0 || index >= position.Size()
      ensures r.Success? ==> r.value == position.components[index]
    {
      position.At(index)
    }
  }

  /** The values the vector tests check: (1,2)+(3,4) = (4,6), (1,2)*2 = (2,4), (1,2).(3,4)
      = 11, size 2, and components 1 and 2. */
  lemma VectorTestValues()
    ensures Sum([1.0, 2.0], [3.0, 4.0]) == Success([4.0, 6.0])
    ensures Scaled([1.0, 2.0], 2.0) == [2.0, 4.0]
    ensures CheckedDot([1.0, 2.0], [3.0, 4.0]) == Success(11.0)
    ensures Vector([1.0, 2.0]).Size() == 2
    ensures Vector([1.0, 2.0]).At(0) == Success(1.0) && Vector([1.0, 2.0]).At(1) == Success(2.0)
  {
    assert [1.0, 2.0][..1] == [1.0] && [1.0][..0] == [];
    assert Scaled([1.0, 2.0], 2.0)[0] == 2.0 && Scaled([1.0, 2.0], 2.0)[1] == 4.0;
    assert Plus([1.0, 2.0], [3.0, 4.0])[0] == 4.0 && Plus([1.0, 2.0], [3.0, 4.0])[1] == 6.0;
    assert Plus([1.0, 2.0], [3.0, 4.0]) == [4.0, 6.0];
  }
}
