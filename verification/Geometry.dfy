/** Vectors of real coordinates, and the Euclidean distance as a nonnegative root. */
module Geometry {
  import opened Common

  datatype Point = Point(x: real, y: real, z: real)

  function Minus(a: Point, b: Point): Point {
    Point(a.x - b.x, a.y - b.y, a.z - b.z)
  }

  function Dot(a: Point, b: Point): real {
    a.x * b.x + a.y * b.y + a.z * b.z
  }

  function Cross(a: Point, b: Point): Point {
    Point(a.y * b.z - a.z * b.y, a.z * b.x - a.x * b.z, a.x * b.y - a.y * b.x)
  }

  function Square(a: Point): real {
    Dot(a, a)
  }

  /** The library's sqrt of a sum of squares is known only by this. Kept folded. */
  ghost predicate IsDistance(distance: (Point, Point) -> real) {
    forall u :: Unfold(u) ==>
      forall a, b :: distance(a, b) >= 0.0 && distance(a, b) * distance(a, b) == Square(Minus(a, b))
  }

  lemma SquareNonNegative(x: real)
    ensures x * x >= 0.0
  {
  }

  lemma Distribute(a: real, b: real, c: real, d: real, e: real, f: real)
    ensures (a + b + c) * (d + e + f) == a * d + a * e + a * f + b * d + b * e + b * f + c * d + c * e + c * f
  {
    assert (a + b + c) * (d + e + f) == a * (d + e + f) + b * (d + e + f) + c * (d + e + f);
    assert a * (d + e + f) == a * d + a * e + a * f;
    assert b * (d + e + f) == b * d + b * e + b * f;
    assert c * (d + e + f) == c * d + c * e + c * f;
  }

  lemma Exchange(a: real, b: real, c: real, d: real)
    ensures (a * b) * (c * d) == (a * c) * (b * d)
  {
    assert (a * b) * (c * d) == a * (b * (c * d));
    assert b * (c * d) == c * (b * d);
    assert a * (c * (b * d)) == (a * c) * (b * d);
  }

  lemma SquareOfDifference(a: real, b: real)
    ensures (a - b) * (a - b) == a * a - 2.0 * (a * b) + b * b
  {
  }

  /** Lagrange's identity. */
  lemma Lagrange(u: Point, v: Point)
    ensures Square(u) * Square(v) == Dot(u, v) * Dot(u, v) + Square(Cross(u, v))
  {
    var a, b, c, d, e, f := u.x, u.y, u.z, v.x, v.y, v.z;
    Distribute(a * a, b * b, c * c, d * d, e * e, f * f);
    Exchange(a, a, d, d);
    Exchange(a, a, e, e);
    Exchange(a, a, f, f);
    Exchange(b, b, d, d);
    Exchange(b, b, e, e);
    Exchange(b, b, f, f);
    Exchange(c, c, d, d);
    Exchange(c, c, e, e);
    Exchange(c, c, f, f);
    Distribute(a * d, b * e, c * f, a * d, b * e, c * f);
    SquareOfDifference(b * f, c * e);
    SquareOfDifference(c * d, a * f);
    SquareOfDifference(a * e, b * d);
    Exchange(a, d, b, e);
    Exchange(a, e, b, d);
    Exchange(a, d, c, f);
    Exchange(c, d, a, f);
    Exchange(b, e, c, f);
    Exchange(b, f, c, e);
    Lagrange9(a * d, a * e, a * f, b * d, b * e, b * f, c * d, c * e, c * f, u, v);
  }

  lemma Lagrange9(ad: real, ae: real, af: real, bd: real, be: real, bf: real, cd: real, ce: real, cf: real, u: Point,
                  v: Point)
    requires ad == u.x * v.x && ae == u.x * v.y && af == u.x * v.z && bd == u.y * v.x && be == u.y * v.y
    requires bf == u.y * v.z && cd == u.z * v.x && ce == u.z * v.y && cf == u.z * v.z
    requires Square(u) * Square(v) ==
      ad * ad + ae * ae + af * af + bd * bd + be * be + bf * bf + cd * cd + ce * ce + cf * cf
    requires (ad + be + cf) * (ad + be + cf) ==
      ad * ad + ad * be + ad * cf + be * ad + be * be + be * cf + cf * ad + cf * be + cf * cf
    requires ad * be == ae * bd && ad * cf == cd * af && be * cf == bf * ce
    requires (bf - ce) * (bf - ce) == bf * bf - 2.0 * (bf * ce) + ce * ce
    requires (cd - af) * (cd - af) == cd * cd - 2.0 * (cd * af) + af * af
    requires (ae - bd) * (ae - bd) == ae * ae - 2.0 * (ae * bd) + bd * bd
    ensures Square(u) * Square(v) == Dot(u, v) * Dot(u, v) + Square(Cross(u, v))
  {
    assert Dot(u, v) == ad + be + cf;
    assert Cross(u, v) == Point(bf - ce, cd - af, ae - bd);
  }

  lemma CauchySchwarz(u: Point, v: Point)
    ensures Dot(u, v) * Dot(u, v) <= Square(u) * Square(v)
  {
    Lagrange(u, v);
    var w := Cross(u, v);
    SquareNonNegative(w.x);
    SquareNonNegative(w.y);
    SquareNonNegative(w.z);
  }

  lemma ProductSigns(q: real, d: real)
    requires q >= 0.0 && d > 0.0
    ensures q * d >= 0.0 && d * d > 0.0
  {
  }

  lemma RootOrder(p: real, q: real)
    requires q >= 0.0 && p * p <= q * q
    ensures p <= q
  {
    if p > q {
      var d := p - q;
      ProductSigns(q, d);
      SquareOfSumOne(q, d);
    }
  }

  lemma TriangleInequality(distance: (Point, Point) -> real, a: Point, b: Point, c: Point)
    requires IsDistance(distance)
    ensures distance(a, c) <= distance(a, b) + distance(b, c)
  {
    assert Unfold(0);
    var u, v, w := Minus(a, b), Minus(b, c), Minus(a, c);
    var p, q, r := distance(a, b), distance(b, c), distance(a, c);
    assert p * p == Square(u) && q * q == Square(v) && r * r == Square(w);
    CauchySchwarz(u, v);
    var d := Dot(u, v);
    assert (p * q) * (p * q) == (p * p) * (q * q);
    RootOrder(d, p * q);
    SquareOfSum(u, v, w);
    assert (p + q) * (p + q) == p * p + 2.0 * (p * q) + q * q;
    RootOrder(r, p + q);
  }

  lemma SquareOfSum(u: Point, v: Point, w: Point)
    requires w == Point(u.x + v.x, u.y + v.y, u.z + v.z)
    ensures Square(w) == Square(u) + 2.0 * Dot(u, v) + Square(v)
  {
    SquareOfSumOne(u.x, v.x);
    SquareOfSumOne(u.y, v.y);
    SquareOfSumOne(u.z, v.z);
  }

  lemma SquareOfSumOne(a: real, b: real)
    ensures (a + b) * (a + b) == a * a + 2.0 * (a * b) + b * b
  {
  }
}
