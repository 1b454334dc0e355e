/**
 * The slice of the 2-D geometry provider that the physics rules consume:
 * an immutable vector value with addition, subtraction, scaling, the dot
 * product and a perpendicular ("normal") vector. Points and vectors share
 * one representation here.
 */
module Geometry {

  datatype Vec = Vec(x: real, y: real)

  /** A position on the plane; the game's Point carries the same two coordinates. */
  type Point = Vec

  const Zero: Vec := Vec(0.0, 0.0)

  function Add(a: Vec, b: Vec): Vec {
    Vec(a.x + b.x, a.y + b.y)
  }

  function Sub(a: Vec, b: Vec): Vec {
    Vec(a.x - b.x, a.y - b.y)
  }

  function Scale(a: Vec, k: real): Vec {
    Vec(a.x * k, a.y * k)
  }

  function Neg(a: Vec): Vec {
    Vec(-a.x, -a.y)
  }

  function Dot(a: Vec, b: Vec): real {
    a.x * b.x + a.y * b.y
  }

  /** The 2-D cross product: zero exactly when `a` and `b` are parallel. */
  function Cross(a: Vec, b: Vec): real {
    a.x * b.y - a.y * b.x
  }

  /**
   * The left-hand normal of a wall direction. The provider's own definition
   * is not part of this model; LanderPhysics.BounceAnyPerpendicular shows
   * that the bounce does not depend on which non-zero perpendicular is used.
   */
  function NormalA(w: Vec): (n: Vec)
    ensures Dot(n, w) == 0.0 && Dot(n, n) == Dot(w, w)
  {
    Vec(-w.y, w.x)
  }

  /** A product is zero only when a factor is. */
  lemma ZeroProduct(p: real, q: real)
    requires p * q == 0.0 && q != 0.0
    ensures p == 0.0
  {
  }

  /** A non-zero factor cancels. */
  lemma CancelFactor(k: real, p: real, q: real)
    requires k != 0.0 && k * p == k * q
    ensures p == q
  {
    assert (p - q) * k == k * p - k * q;
    ZeroProduct(p - q, k);
  }

  /** A factor `k` of `y` can be pulled out in front of a product `f * y`. */
  lemma Regroup(f: real, k: real, x: real, y: real)
    requires y == k * x
    ensures f * y == k * (f * x)
  {
  }

  /** Squaring is strictly increasing on the non-negative reals. */
  lemma SquareLess(p: real, q: real)
    requires 0.0 <= p < q
    ensures p * p < q * q
  {
    var d := q - p;
    assert q * q == p * p + 2.0 * p * d + d * d;
    assert p * d >= 0.0;
    assert d * d > 0.0;
  }

  lemma ScaleProducts(a: Vec, k: real, b: Vec)
    ensures Dot(Scale(a, k), b) == k * Dot(a, b)
    ensures Cross(Scale(a, k), b) == k * Cross(a, b)
  {
    assert a.x * k * b.x + a.y * k * b.y == k * (a.x * b.x + a.y * b.y);
    assert a.x * k * b.y - a.y * k * b.x == k * (a.x * b.y - a.y * b.x);
  }

  lemma SubProducts(a: Vec, c: Vec, n: Vec)
    ensures Dot(Sub(a, c), n) == Dot(a, n) - Dot(c, n)
    ensures Cross(Sub(a, c), n) == Cross(a, n) - Cross(c, n)
  {
    assert (a.x - c.x) * n.x == a.x * n.x - c.x * n.x;
    assert (a.y - c.y) * n.y == a.y * n.y - c.y * n.y;
    assert (a.x - c.x) * n.y == a.x * n.y - c.x * n.y;
    assert (a.y - c.y) * n.x == a.y * n.x - c.y * n.x;
  }

  lemma ScaledAgainst(a: Vec, n: Vec, k: real)
    ensures Dot(a, Scale(n, k)) == k * Dot(a, n)
    ensures Cross(a, Scale(n, k)) == k * Cross(a, n)
  {
    assert a.x * (n.x * k) + a.y * (n.y * k) == k * (a.x * n.x + a.y * n.y);
    assert a.x * (n.y * k) - a.y * (n.x * k) == k * (a.x * n.y - a.y * n.x);
  }

  /** Against the left-hand normal of `w`, the dot and cross products of `a` trade places. */
  lemma NormalAProducts(a: Vec, w: Vec)
    ensures Dot(a, NormalA(w)) == -Cross(a, w)
    ensures Cross(a, NormalA(w)) == Dot(a, w)
  {
  }

  lemma CrossSelf(a: Vec)
    ensures Cross(a, a) == 0.0
  {
    assert a.x * a.y == a.y * a.x;
  }

  /** A vector is determined by its dot and cross products with any non-zero vector. */
  lemma DeterminedByDotAndCross(a: Vec, c: Vec, n: Vec)
    requires Dot(n, n) > 0.0
    requires Dot(a, n) == Dot(c, n) && Cross(a, n) == Cross(c, n)
    ensures a == c
  {
    var d := Sub(a, c);
    assert Dot(d, n) == 0.0 && Cross(d, n) == 0.0;
    assert d.x * Dot(n, n) == n.x * Dot(d, n) + n.y * Cross(d, n);
    assert d.y * Dot(n, n) == n.y * Dot(d, n) - n.x * Cross(d, n);
    ZeroProduct(d.x, Dot(n, n));
    ZeroProduct(d.y, Dot(n, n));
  }

  /**
   * Lagrange's identity in the plane: a vector's squared length times that
   * of a reference vector is the sum of the squares of its dot and cross
   * products with it.
   */
  lemma Lagrange(a: Vec, n: Vec)
    ensures Dot(a, n) * Dot(a, n) + Cross(a, n) * Cross(a, n) == Dot(a, a) * Dot(n, n)
  {
    var p, q, r, s := a.x, a.y, n.x, n.y;
    calc {
      Dot(a, n) * Dot(a, n) + Cross(a, n) * Cross(a, n);
      (p * r + q * s) * (p * r + q * s) + (p * s - q * r) * (p * s - q * r);
      p * p * r * r + q * q * s * s + p * p * s * s + q * q * r * r;
      (p * p + q * q) * (r * r + s * s);
    }
  }
}
