/** Three-component vectors (pt/vector.go), over Dafny's reals in place of float64. */
module Vectors {

  /** Go's math.Min on two finite values. */
  function MinReal(a: real, b: real): real { if a <= b then a else b }

  /** Go's math.Max on two finite values. */
  function MaxReal(a: real, b: real): real { if a >= b then a else b }

  /** Go's math.Abs. */
  function Abs(a: real): real { if a < 0.0 then -a else a }

  /** A position, a direction or a color: an immutable value; every operation builds a new one. */
  datatype Vector = Vector(x: real, y: real, z: real) {

    /** Componentwise `<=`. */
    predicate AtMost(b: Vector) { x <= b.x && y <= b.y && z <= b.z }

    predicate NonNegative() { 0.0 <= x && 0.0 <= y && 0.0 <= z }

    function Dot(b: Vector): real {
      x * b.x + y * b.y + z * b.z
    }

    /** The cross product is orthogonal to both of its factors. */
    function Cross(b: Vector): (r: Vector)
      ensures this.Dot(r) == 0.0 && b.Dot(r) == 0.0
    {
      Vector(y * b.z - z * b.y, z * b.x - x * b.z, x * b.y - y * b.x)
    }

    function Add(b: Vector): Vector {
      Vector(x + b.x, y + b.y, z + b.z)
    }

    /** Subtracting `b` undoes adding `b`. */
    function Sub(b: Vector): (r: Vector)
      ensures r.Add(b) == this
    {
      Vector(x - b.x, y - b.y, z - b.z)
    }

    function Mul(b: Vector): Vector {
      Vector(x * b.x, y * b.y, z * b.z)
    }

    /** Componentwise division; Go yields infinities or NaN for a zero component, so it is excluded. */
    function Div(b: Vector): (r: Vector)
      requires b.x != 0.0 && b.y != 0.0 && b.z != 0.0
      ensures r.Mul(b) == this
    {
      Vector(x / b.x, y / b.y, z / b.z)
    }

    function MulScalar(b: real): Vector {
      Vector(x * b, y * b, z * b)
    }

    /** Division by a nonzero scalar; scaling back by `b` recovers the vector. */
    function DivScalar(b: real): (r: Vector)
      requires b != 0.0
      ensures r.MulScalar(b) == this
    {
      Vector(x / b, y / b, z / b)
    }

    /** Componentwise minimum: below both arguments, and equal to one of them on each axis. */
    function Min(b: Vector): (r: Vector)
      ensures r.AtMost(this) && r.AtMost(b)
      ensures (r.x == x || r.x == b.x) && (r.y == y || r.y == b.y) && (r.z == z || r.z == b.z)
    {
      Vector(MinReal(x, b.x), MinReal(y, b.y), MinReal(z, b.z))
    }

    /** Componentwise maximum: above both arguments, and equal to one of them on each axis. */
    function Max(b: Vector): (r: Vector)
      ensures this.AtMost(r) && b.AtMost(r)
      ensures (r.x == x || r.x == b.x) && (r.y == y || r.y == b.y) && (r.z == z || r.z == b.z)
    {
      Vector(MaxReal(x, b.x), MaxReal(y, b.y), MaxReal(z, b.z))
    }

    /** Reflection of `i` about the plane with unit normal `this`: the normal component changes sign. */
    function Reflect(i: Vector): (r: Vector)
      ensures this.Dot(this) == 1.0 ==> this.Dot(r) == -this.Dot(i)
    {
      i.Sub(this.MulScalar(2.0 * this.Dot(i)))
    }

    /**
     * The basis vector of an axis along which this vector is shortest;
     * ties go to X, then Y, then Z.
     */
    function MinAxis(): (r: Vector)
      ensures r == Vector(1.0, 0.0, 0.0) || r == Vector(0.0, 1.0, 0.0) || r == Vector(0.0, 0.0, 1.0)
      ensures Abs(r.Dot(this)) <= Abs(x) && Abs(r.Dot(this)) <= Abs(y) && Abs(r.Dot(this)) <= Abs(z)
      ensures r.y == 1.0 ==> Abs(y) < Abs(x)
      ensures r.z == 1.0 ==> Abs(z) < Abs(x) && Abs(z) < Abs(y)
    {
      var ax, ay, az := Abs(x), Abs(y), Abs(z);
      if ax <= ay && ax <= az then Vector(1.0, 0.0, 0.0)
      else if ay <= ax && ay <= az then Vector(0.0, 1.0, 0.0)
      else Vector(0.0, 0.0, 1.0)
    }

    /**
     * Euclidean length. Go's math.Sqrt is not available over the reals,
     * so the square root is supplied by the caller.
     */
    function Length(sqrt: real -> real): real {
      sqrt(this.Dot(this))
    }

    /**
     * The vector divided by its length. A zero length (NaN components in Go)
     * leaves the vector as it is.
     */
    function Normalize(sqrt: real -> real): (r: Vector)
      ensures Length(sqrt) != 0.0 ==> r.MulScalar(Length(sqrt)) == this
      ensures Length(sqrt) == 0.0 ==> r == this
    {
      var d := Length(sqrt);
      if d == 0.0 then this else Vector(x / d, y / d, z / d)
    }
  }

  /** The zero vector; as a color, no light. */
  const Zero := Vector(0.0, 0.0, 0.0)

  lemma AddCommutative(a: Vector, b: Vector)
    ensures a.Add(b) == b.Add(a)
  {
  }

  lemma AddSubCancel(a: Vector, b: Vector)
    ensures a.Add(b).Sub(b) == a
  {
  }

  lemma DotSymmetric(a: Vector, b: Vector)
    ensures a.Dot(b) == b.Dot(a)
  {
  }

  /** A vector's dot product with itself, its squared length, is never negative. */
  lemma DotSelfNonNegative(a: Vector)
    ensures a.Dot(a) >= 0.0
  {
  }

  lemma MulCommutative(a: Vector, b: Vector)
    ensures a.Mul(b) == b.Mul(a)
  {
  }

  lemma CrossAntiCommutative(a: Vector, b: Vector)
    ensures a.Cross(b) == b.Cross(a).MulScalar(-1.0)
  {
  }

  lemma MinIdempotent(a: Vector)
    ensures a.Min(a) == a && a.Max(a) == a
  {
  }

  lemma MulScalarDivScalar(a: Vector, b: real)
    requires b != 0.0
    ensures a.MulScalar(b).DivScalar(b) == a
  {
  }

  /** Reflecting twice about the same unit normal gives back the original vector. */
  lemma ReflectInvolution(n: Vector, i: Vector)
    requires n.Dot(n) == 1.0
    ensures n.Reflect(n.Reflect(i)) == i
  {
    var r := n.Reflect(i);
    assert n.Dot(r) == -n.Dot(i);
  }

  /** A nonzero vector normalized with a square root that is exact at its squared length has unit length. */
  lemma NormalizeUnit(a: Vector, sqrt: real -> real)
    requires a.Dot(a) != 0.0 && sqrt(a.Dot(a)) * sqrt(a.Dot(a)) == a.Dot(a)
    ensures a.Normalize(sqrt).Dot(a.Normalize(sqrt)) == 1.0
  {
    var d := a.Length(sqrt);
    var r := a.Normalize(sqrt);
    var k := a.Dot(a);
    var s := r.Dot(r);
    assert d * d == k && d != 0.0;
    assert a == Vector(r.x * d, r.y * d, r.z * d);
    calc {
      s * k;
      (r.x * r.x + r.y * r.y + r.z * r.z) * (d * d);
      (r.x * d) * (r.x * d) + (r.y * d) * (r.y * d) + (r.z * d) * (r.z * d);
      k;
    }
    CancelFactor(s, k);
  }

  /** A factor that leaves a nonzero value unchanged is one. */
  lemma CancelFactor(x: real, k: real)
    requires k != 0.0 && x * k == k
    ensures x == 1.0
  {
    assert (x - 1.0) * k == 0.0;
  }

  /** Sums, products and nonnegative multiples of nonnegative vectors are nonnegative. */
  lemma NonNegativeClosed(a: Vector, b: Vector, w: real)
    requires a.NonNegative() && b.NonNegative() && w >= 0.0
    ensures a.Add(b).NonNegative() && a.Mul(b).NonNegative() && a.MulScalar(w).NonNegative()
    ensures w > 0.0 ==> a.DivScalar(w).NonNegative()
  {
  }
}
