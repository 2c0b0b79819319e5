/** The first particle program: a Vector of 2 or 3 (or any number of) components whose
    operator+ and dot product run over the left operand's size without checking the right
    one, and a Particle that moves by Euler steps under a constant stored force. */
module VectorParticle {
  import opened Wrappers
  import opened VectorCommon

  datatype Vector = Vector(components: seq<real>) {
    /** size(): the number of components. */
    function Size(): (n: int)
      ensures n == |components| && n >= 0
    {
      |components|
    }

    /** operator[]: out_of_range exactly outside [0, size), else component i. */
    function At(i: int): (r: Result<real, VectorError>)
      ensures r.Failure? <==> i < 0 || i >= Size()
      ensures r.Failure? ==> r.error == OutOfRange
      ensures r.Success? ==> r.value == components[i]
    {
      if i < 0 || i >= Size() then Failure(OutOfRange) else Success(components[i])
    }
  }

  /** Vector(x, y). */
  function Vector2(x: real, y: real): (v: Vector)
    ensures v.Size() == 2 && v.At(0) == Success(x) && v.At(1) == Success(y)
  {
    Vector([x, y])
  }

  /** Vector(x, y, z). */
  function Vector3(x: real, y: real, z: real): (v: Vector)
    ensures v.Size() == 3 && v.At(0) == Success(x) && v.At(1) == Success(y) && v.At(2) == Success(z)
  {
    Vector([x, y, z])
  }

  /** operator+: pushes components_[i] + other.components_[i] for i below this vector's size.
      Nothing checks other's size, so the caller must give at least as many components. */
  method Add(u: Vector, other: Vector) returns (r: Vector)
    requires other.Size() >= u.Size()
    ensures r.components == Plus(u.components, other.components)
  {
    var result: seq<real> := [];
    var i := 0;
    while i < u.Size()
      invariant 0 <= i <= u.Size()
      invariant result == Plus(u.components[..i], other.components)
    {
      result := result + [u.components[i] + other.components[i]];
      i := i + 1;
    }
    assert u.components[..i] == u.components;
    r := Vector(result);
  }

  /** operator*(double): every component times the scalar. */
  method Scale(u: Vector, scalar: real) returns (r: Vector)
    ensures r.components == Scaled(u.components, scalar)
  {
    var result: seq<real> := [];
    for i := 0 to u.Size()
      invariant result == Scaled(u.components[..i], scalar)
    {
      result := result + [u.components[i] * scalar];
      assert forall j :: 0 <= j <= i ==> result[j] == Scaled(u.components[..i + 1], scalar)[j];
    }
    assert u.components[..u.Size()] == u.components;
    r := Vector(result);
  }

  /** operator*(double, Vector): forwards to v * scalar, so s*v and v*s agree. */
  method ScaleLeft(scalar: real, v: Vector) returns (r: Vector)
    ensures r.components == Scaled(v.components, scalar)
  {
    r := Scale(v, scalar);
  }

  /** operator*(Vector): the sum of products over this vector's size; other must be at
      least as long. */
  method DotProduct(u: Vector, other: Vector) returns (d: real)
    requires other.Size() >= u.Size()
    ensures d == Dot(u.components, other.components)
  {
    d := 0.0;
    for i := 0 to u.Size()
      invariant d == Dot(u.components[..i], other.components)
    {
      assert u.components[..i + 1][..i] == u.components[..i];
      d := d + u.components[i] * other.components[i];
    }
    assert u.components[..u.Size()] == u.components;
  }

  /** norm(type): the loops for L1, L2 and Linf, or invalid_argument for any other type. */
  method VectorNorm(u: Vector, normType: string, sqrt: real -> real) returns (r: Result<real, VectorError>)
    ensures r == Norm(u.components, normType, sqrt)
  {
    var c := u.components;
    if normType == "L1" {
      var sum := 0.0;
      for i := 0 to |c|
        invariant sum == SumOfAbs(c[..i])
      {
        assert c[..i + 1][..i] == c[..i];
        sum := sum + Abs(c[i]);
      }
      assert c[..|c|] == c;
      return Success(sum);
    } else if normType == "L2" {
      var sumSquares := 0.0;
      for i := 0 to |c|
        invariant sumSquares == SumOfSquares(c[..i])
      {
        assert c[..i + 1][..i] == c[..i];
        sumSquares := sumSquares + c[i] * c[i];
      }
      assert c[..|c|] == c;
      return Success(sqrt(sumSquares));
    } else if normType == "Linf" {
      var maxVal := 0.0;
      for i := 0 to |c|
        invariant maxVal == MaxAbs(c[..i])
      {
        assert c[..i + 1][..i] == c[..i];
        maxVal := Max(maxVal, Abs(c[i]));
      }
      assert c[..|c|] == c;
      return Success(maxVal);
    } else {
      return Failure(InvalidArgument);
    }
  }

  /** The free function force(f, t): assigns f * t to the caller's vector and returns a
      reference to it; f' is the caller's vector afterwards and also what is returned. */
  method Force(f: Vector, t: real) returns (f': Vector)
    ensures f'.components == Scaled(f.components, t)
  {
    f' := Scale(f, t);
  }

  /** The velocity and position after one update: a = F*(1/m), v' = v + a*dt, and then
      x' = x + v'*dt with the new velocity. */
  function EulerStep(mass: real, position: seq<real>, velocity: seq<real>, force: seq<real>, dt: real): (seq<real>, seq<real>)
    requires mass != 0.0
    requires |position| <= |velocity| <= |force|
  {
    var velocity' := Plus(velocity, Scaled(Scaled(force, 1.0 / mass), dt));
    (velocity', Plus(position, Scaled(velocity', dt)))
  }

  /** A step keeps the sizes of position and velocity. */
  lemma EulerStepKeepsSizes(mass: real, position: seq<real>, velocity: seq<real>, force: seq<real>, dt: real)
    requires mass != 0.0
    requires |position| <= |velocity| <= |force|
    ensures |EulerStep(mass, position, velocity, force, dt).0| == |velocity|
    ensures |EulerStep(mass, position, velocity, force, dt).1| == |position|
  {
  }

  /** Under zero force, update keeps the velocity and moves like updatePosition(dt). */
  lemma ZeroForceStep(mass: real, position: seq<real>, velocity: seq<real>, force: seq<real>, dt: real)
    requires mass != 0.0
    requires |position| <= |velocity| <= |force|
    requires forall i :: 0 <= i < |force| ==> force[i] == 0.0
    ensures EulerStep(mass, position, velocity, force, dt).0 == velocity
    ensures EulerStep(mass, position, velocity, force, dt).1 == Plus(position, Scaled(velocity, dt))
  {
    var velocity' := EulerStep(mass, position, velocity, force, dt).0;
    assert forall i :: 0 <= i < |velocity| ==> velocity'[i] == velocity[i];
  }

  /** The velocity after k steps, each adding the constant increment F*(1/m)*dt. */
  function Velocities(mass: real, velocity: seq<real>, force: seq<real>, dt: real, k: nat): (v: seq<real>)
    requires mass != 0.0 && |velocity| <= |force|
    ensures |v| == |velocity|
  {
    if k == 0 then velocity else Plus(Velocities(mass, velocity, force, dt, k - 1), Scaled(Scaled(force, 1.0 / mass), dt))
  }

  /** The stored force never changes, so after k updates component i of the velocity has
      grown by exactly k times its per-step increment F[i]*(1/m)*dt. */
  lemma {:induction false} VelocityGrowsLinearly(mass: real, velocity: seq<real>, force: seq<real>, dt: real, k: nat, i: int)
    requires mass != 0.0 && |velocity| <= |force|
    requires 0 <= i < |velocity|
    ensures Velocities(mass, velocity, force, dt, k)[i] == velocity[i] + (k as real) * ((force[i] * (1.0 / mass)) * dt)
  {
    if k > 0 {
      VelocityGrowsLinearly(mass, velocity, force, dt, k - 1, i);
      var c := (force[i] * (1.0 / mass)) * dt;
      assert Scaled(Scaled(force, 1.0 / mass), dt)[i] == c;
      assert ((k - 1) as real) * c + c == (k as real) * c;
    }
  }

  class Particle {
    var mass: real
    var position: Vector
    var velocity: Vector
    var force: Vector

    constructor (mass: real, position: Vector, velocity: Vector, force: Vector)
      ensures this.mass == mass && this.position == position
      ensures this.velocity == velocity && this.force == force
    {
      this.mass, this.position, this.velocity, this.force := mass, position, velocity, force;
    }

    /** getPosition: a copy of the position. */
    function GetPosition(): (p: Vector)
      reads this
      ensures p == position
    {
      position
    }

    /** updatePosition(time): x' = x + v*time, over the position's size; the velocity must
        have at least as many components. */
    method UpdatePosition(time: real)
      requires velocity.Size() >= position.Size()
      modifies this
      ensures mass == old(mass) && velocity == old(velocity) && force == old(force)
      ensures position.components == Plus(old(position.components), Scaled(velocity.components, time))
    {
      var step := Scale(velocity, time);
      position := Add(position, step);
    }

    /** update(t, dt): one Euler step under the stored force, then printState, which throws
        runtime_error when the velocity has no components (after the state has changed).
        t is only printed. */
    method Update(t: real, dt: real) returns (r: Outcome<VectorError>)
      requires mass != 0.0
      requires position.Size() <= velocity.Size() <= force.Size()
      modifies this
      ensures (velocity.components, position.components)
              == EulerStep(old(mass), old(position.components), old(velocity.components), old(force.components), dt)
      ensures mass == old(mass) && force == old(force)
      ensures r.Fail? <==> velocity.Size() == 0
      ensures r.Fail? ==> r.error == RuntimeError
    {
      var acceleration := Scale(force, 1.0 / mass);
      var increment := Scale(acceleration, dt);
      velocity := Add(velocity, increment);
      var step := Scale(velocity, dt);
      position := Add(position, step);
      if velocity.Size() == 0 {
        return Fail(RuntimeError);
      }
      return Pass;
    }
  }

  /** main's 3D particle gets a three-component velocity but the two-component force
      Vector(0., 0.), so its update would read past the force: it is outside update's
      contract. */
  lemma MainThreeDParticleForceTooShort()
    ensures !(Vector3(0.0, 0.0, 0.0).Size() <= Vector3(1.0, 2.0, 3.0).Size() <= Vector2(0.0, 0.0).Size())
  {
  }

  /** The values test_operators prints, for v1 = (1, 2) and v2 = (3, 4). */
  lemma TestOperatorsValues()
    ensures Scaled([1.0, 2.0], 3.2) == [3.2, 6.4]
    ensures Plus([1.0, 2.0], [3.0, 4.0]) == [4.0, 6.0]
    ensures Dot(Plus(Scaled([1.0, 2.0], 2.0), Scaled([3.0, 4.0], 3.0)), Plus([1.0, 2.0], [3.0, 4.0])) == 140.0
    ensures Dot(Plus(Scaled([1.0, 2.0], 2.0), Scaled([3.0, 4.0], 3.0)), [1.0, 2.0]) == 43.0
    ensures Dot([1.0, 2.0], [3.0, 4.0]) == 11.0
  {
    assert Plus(Scaled([1.0, 2.0], 2.0), Scaled([3.0, 4.0], 3.0)) == [11.0, 16.0];
    var p := [11.0, 16.0];
    assert p[..1] == [11.0] && [11.0][..0] == [];
    assert Plus([1.0, 2.0], [3.0, 4.0]) == [4.0, 6.0];
    assert [1.0, 2.0][..1] == [1.0] && [1.0][..0] == [];
  }
}
