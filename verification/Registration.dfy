/** pythonCodegen/register_three_points.py: the rigid motion that takes three points a1, a2, a3
    closest to b1, b2, b3, in closed form. */
module Registration {
  import opened Vectors
  import opened CameraModel

  /** Three points; the columns of A or B in the source. */
  datatype Triple = Triple(p1: V3, p2: V3, p3: V3)

  datatype Motion = Motion(rot: M3, t: V3)

  function Divide(v: V3, n: real): V3
    requires n != 0.0
  {
    V3(v.x / n, v.y / n, v.z / n)
  }

  predicate NonCollinear(a: Triple) {
    Cross(Sub(a.p2, a.p1), Sub(a.p3, a.p1)) != ZERO
  }

  lemma SqrtIsPositive(sqrt: real -> real, x: real)
    requires IsSqrt(sqrt) && x > 0.0
    ensures sqrt(x) > 0.0
  {
    var y := sqrt(x);
    assert y * y == x;
    if y == 0.0 {
      assert false;
    }
  }

  lemma DivideIsScale(v: V3, n: real)
    requires n != 0.0
    ensures Divide(v, n) == Scale(1.0 / n, v)
  {
  }

  lemma ScaledNorm(v: V3, k: real)
    ensures Norm2(Scale(k, v)) == k * k * Norm2(v)
  {
    DotScale(k, v, v);
    DotScale(k, v, Scale(k, v));
    assert Norm2(Scale(k, v)) == k * Dot(v, Scale(k, v)) == k * (k * Norm2(v));
  }

  /** normalize_numeric */
  function Normalize(sqrt: real -> real, v: V3): V3
    requires IsSqrt(sqrt) && v != ZERO
  {
    NormIsPositive(v);
    SqrtIsPositive(sqrt, Norm2(v));
    Divide(v, sqrt(Norm2(v)))
  }

  /** A unit vector in the same direction. */
  lemma NormalizeIsUnit(sqrt: real -> real, v: V3) returns (k: real)
    requires IsSqrt(sqrt) && v != ZERO
    ensures k > 0.0 && Normalize(sqrt, v) == Scale(k, v)
    ensures Norm2(Normalize(sqrt, v)) == 1.0
  {
    NormIsPositive(v);
    var n := sqrt(Norm2(v));
    SqrtIsPositive(sqrt, Norm2(v));
    k := 1.0 / n;
    DivideIsScale(v, n);
    ScaledNorm(v, k);
    UnitLength(n, k, Norm2(v));
  }

  lemma UnitLength(n: real, k: real, m: real)
    requires n > 0.0 && k == 1.0 / n && n * n == m
    ensures k > 0.0 && k * k * m == 1.0
  {
    assert k * n == 1.0;
    assert k * k * m == (k * n) * (k * n);
  }

  lemma CrossCoordinate(k: real, u1: real, u2: real, v1: real, v2: real, ku1: real, ku2: real, c: real)
    requires ku1 == k * u1 && ku2 == k * u2 && c == u1 * v2 - u2 * v1
    ensures ku1 * v2 - ku2 * v1 == k * c
  {
  }

  lemma CrossScaleLeft(k: real, u: V3, v: V3)
    ensures Cross(Scale(k, u), v) == Scale(k, Cross(u, v))
  {
    var a, c := Scale(k, u), Cross(u, v);
    CrossCoordinate(k, u.y, u.z, v.y, v.z, a.y, a.z, c.x);
    CrossCoordinate(k, u.z, u.x, v.z, v.x, a.z, a.x, c.y);
    CrossCoordinate(k, u.x, u.y, v.x, v.y, a.x, a.y, c.z);
  }

  lemma CrossSwap(u: V3, v: V3)
    ensures Cross(u, v) == Scale(-1.0, Cross(v, u))
  {
  }

  lemma CrossScaleRight(k: real, u: V3, v: V3)
    ensures Cross(u, Scale(k, v)) == Scale(k, Cross(u, v))
  {
    CrossSwap(u, Scale(k, v));
    CrossScaleLeft(k, v, u);
    CrossSwap(u, v);
    ScaleScale(-1.0, k, Cross(v, u));
    ScaleScale(k, -1.0, Cross(v, u));
  }

  lemma CrossScale(k: real, u: V3, l: real, v: V3)
    ensures Cross(Scale(k, u), Scale(l, v)) == Scale(k * l, Cross(u, v))
  {
    CrossScaleLeft(k, u, Scale(l, v));
    CrossScaleRight(l, u, v);
    ScaleScale(k, l, Cross(u, v));
  }

  lemma ScaleScale(k: real, l: real, v: V3)
    ensures Scale(k, Scale(l, v)) == Scale(k * l, v)
  {
  }

  lemma ScaleOfNonZero(k: real, v: V3)
    requires k > 0.0 && v != ZERO
    ensures Scale(k, v) != ZERO
  {
    if v.x != 0.0 {
      assert k * v.x != 0.0;
    } else if v.y != 0.0 {
      assert k * v.y != 0.0;
    } else {
      assert k * v.z != 0.0;
    }
  }

  /** Edges of a non-degenerate triangle are not zero, nor is the cross product of their directions. */
  lemma EdgesAreIndependent(sqrt: real -> real, u: V3, v: V3) returns (k: real)
    requires IsSqrt(sqrt) && Cross(u, v) != ZERO
    ensures u != ZERO && v != ZERO
    ensures k > 0.0 && Cross(Normalize(sqrt, u), Normalize(sqrt, v)) == Scale(k, Cross(u, v)) != ZERO
  {
    CrossWithZero(u, v);
    var a := NormalizeIsUnit(sqrt, u);
    var b := NormalizeIsUnit(sqrt, v);
    CrossScale(a, u, b, v);
    k := a * b;
    Positive(a, b, k);
    ScaleOfNonZero(k, Cross(u, v));
  }

  lemma CrossWithZero(u: V3, v: V3)
    requires Cross(u, v) != ZERO
    ensures u != ZERO && v != ZERO
  {
  }

  lemma FrameIsDefined(sqrt: real -> real, u: V3, v: V3)
    requires IsSqrt(sqrt) && Cross(u, v) != ZERO
    ensures u != ZERO && v != ZERO && Cross(Normalize(sqrt, u), Normalize(sqrt, v)) != ZERO
  {
    var k := EdgesAreIndependent(sqrt, u, v);
  }

  /** The rows temp3, temp1 and n that carry the plane of the points into the x-y plane. */
  function Frame(sqrt: real -> real, a: Triple): M3
    requires IsSqrt(sqrt) && NonCollinear(a)
  {
    FrameIsDefined(sqrt, Sub(a.p2, a.p1), Sub(a.p3, a.p1));
    var temp1 := Normalize(sqrt, Sub(a.p2, a.p1));
    var temp2 := Normalize(sqrt, Sub(a.p3, a.p1));
    var n := Normalize(sqrt, Cross(temp1, temp2));
    var temp3 := Cross(temp1, n);
    M3(temp3, temp1, n)
  }

  /** The frame is a rotation, and its last row is the unit normal on the side that a1, a2, a3
      are seen counter-clockwise from. */
  lemma FrameIsARotation(sqrt: real -> real, a: Triple) returns (k: real)
    requires IsSqrt(sqrt) && NonCollinear(a)
    ensures IsRotation(Frame(sqrt, a))
    ensures k > 0.0 && Frame(sqrt, a).r3 == Scale(k, Cross(Sub(a.p2, a.p1), Sub(a.p3, a.p1)))
  {
    var u, v := Sub(a.p2, a.p1), Sub(a.p3, a.p1);
    FrameIsDefined(sqrt, u, v);
    var c := Cross(Normalize(sqrt, u), Normalize(sqrt, v));
    var i := EdgesAreIndependent(sqrt, u, v);
    var j := NormalizeIsUnit(sqrt, c);
    var l := NormalizeIsUnit(sqrt, u);
    k := j * i;
    Positive(j, i, k);
    ScaleScale(j, i, Cross(u, v));
    var t, n := Normalize(sqrt, u), Normalize(sqrt, c);
    OrthogonalToEdge(j, t, Normalize(sqrt, v));
    RightHanded(t, n);
  }

  lemma OrthogonalToEdge(j: real, t: V3, w: V3)
    ensures Dot(Scale(j, Cross(t, w)), t) == 0.0
  {
    CrossIsOrthogonal(t, w);
    DotScale(j, Cross(t, w), t);
  }

  lemma RightHanded(t: V3, n: V3)
    requires Norm2(t) == 1.0 && Norm2(n) == 1.0 && Dot(n, t) == 0.0
    ensures IsRotation(M3(Cross(t, n), t, n))
  {
    var m := M3(Cross(t, n), t, n);
    Lagrange(t, n, t, n);
    assert Dot(t, n) == 0.0;
    CrossIsOrthogonal(t, n);
    TripleProduct(t, n, t);
    ScaleOneAndZero(n, t);
    FrameIsRotation(m);
  }

  lemma ScaleOneAndZero(n: V3, t: V3)
    ensures Sub(Scale(1.0, n), Scale(0.0, t)) == n
  {
  }

  // ---- The closed form ----

  function ApplyAll(m: M3, a: Triple): Triple {
    Triple(Apply(m, a.p1), Apply(m, a.p2), Apply(m, a.p3))
  }

  function Mean(a: Triple): V3 {
    var s := Add(Add(a.p1, a.p2), a.p3);
    V3(s.x / 3.0, s.y / 3.0, s.z / 3.0)
  }

  function Centred(a: Triple): Triple {
    Triple(Sub(a.p1, Mean(a)), Sub(a.p2, Mean(a)), Sub(a.p3, Mean(a)))
  }

  /** The sums of products of one coordinate of q with one of p. */
  datatype Covariance = Covariance(xx: real, xy: real, yx: real, yy: real)

  function Det2(k: Covariance): real { k.xx * k.yy - k.xy * k.yx }

  /** The squared length of (xx + yy, yx - xy). */
  function Length2(k: Covariance): real {
    (k.xx + k.yy) * (k.xx + k.yy) + (k.yx - k.xy) * (k.yx - k.xy)
  }

  function Correlate(p: Triple, q: Triple): Covariance {
    Covariance(q.p1.x * p.p1.x + q.p2.x * p.p2.x + q.p3.x * p.p3.x,
               q.p1.x * p.p1.y + q.p2.x * p.p2.y + q.p3.x * p.p3.y,
               q.p1.y * p.p1.x + q.p2.y * p.p2.x + q.p3.y * p.p3.x,
               q.p1.y * p.p1.y + q.p2.y * p.p2.y + q.p3.y * p.p3.y)
  }

  /** (aRow1*bRow1 + aRow2*bRow2).sum() and (aRow1*bRow2 - aRow2*bRow1).sum() */
  function G(p: Triple, q: Triple): real {
    (p.p1.x * q.p1.x + p.p1.y * q.p1.y) + (p.p2.x * q.p2.x + p.p2.y * q.p2.y) + (p.p3.x * q.p3.x + p.p3.y * q.p3.y)
  }

  function H(p: Triple, q: Triple): real {
    (p.p1.x * q.p1.y - p.p1.y * q.p1.x) + (p.p2.x * q.p2.y - p.p2.y * q.p2.x) + (p.p3.x * q.p3.y - p.p3.y * q.p3.x)
  }

  lemma SumsFromCovariance(p: Triple, q: Triple)
    ensures G(p, q) == Correlate(p, q).xx + Correlate(p, q).yy
    ensures H(p, q) == Correlate(p, q).yx - Correlate(p, q).xy
  {
  }

  function PlaneRotation(g: real, h: real): M3 {
    M3(V3(g, -h, 0.0), V3(h, g, 0.0), V3(0.0, 0.0, 1.0))
  }

  /** Twice the signed area of the triangle in the x-y plane. */
  function Area(p: Triple): real {
    (p.p2.x - p.p1.x) * (p.p3.y - p.p1.y) - (p.p2.y - p.p1.y) * (p.p3.x - p.p1.x)
  }

  predicate IsCentred(p: Triple) {
    Add(Add(p.p1, p.p2), p.p3) == ZERO
  }

  lemma CentredIsCentred(a: Triple)
    ensures IsCentred(Centred(a))
  {
  }

  function Cross2(u: V3, v: V3): real { u.x * v.y - u.y * v.x }

  lemma AreaOfCentred(p: Triple)
    requires IsCentred(p)
    ensures Area(p) == 3.0 * Cross2(p.p1, p.p2)
  {
    assert p.p3.x == -(p.p1.x + p.p2.x) && p.p3.y == -(p.p1.y + p.p2.y);
  }

  /** The determinant of the in-plane covariance, for p3 = -(p1 + p2) and q3 = -(q1 + q2). */
  lemma CovarianceDeterminant(a: real, b: real, c: real, d: real, e: real, f: real, g: real, h: real,
                              xx: real, xy: real, yx: real, yy: real)
    requires xx == 2.0 * e * a + 2.0 * g * c + e * c + g * a
    requires xy == 2.0 * e * b + 2.0 * g * d + e * d + g * b
    requires yx == 2.0 * f * a + 2.0 * h * c + f * c + h * a
    requires yy == 2.0 * f * b + 2.0 * h * d + f * d + h * b
    ensures xx * yy - xy * yx == 3.0 * ((a * d - b * c) * (e * h - f * g))
  {
  }

  lemma CentredProduct(e: real, g: real, r: real, a: real, c: real, s: real)
    requires r == -(e + g) && s == -(a + c)
    ensures e * a + g * c + r * s == 2.0 * e * a + 2.0 * g * c + e * c + g * a
  {
  }

  lemma CentredDeterminant(p: Triple, q: Triple)
    requires IsCentred(p) && IsCentred(q)
    ensures Det2(Correlate(p, q)) == 3.0 * (Cross2(p.p1, p.p2) * Cross2(q.p1, q.p2))
  {
    var k := Correlate(p, q);
    CentredProduct(q.p1.x, q.p2.x, q.p3.x, p.p1.x, p.p2.x, p.p3.x);
    CentredProduct(q.p1.x, q.p2.x, q.p3.x, p.p1.y, p.p2.y, p.p3.y);
    CentredProduct(q.p1.y, q.p2.y, q.p3.y, p.p1.x, p.p2.x, p.p3.x);
    CentredProduct(q.p1.y, q.p2.y, q.p3.y, p.p1.y, p.p2.y, p.p3.y);
    CovarianceDeterminant(p.p1.x, p.p1.y, p.p2.x, p.p2.y, q.p1.x, q.p1.y, q.p2.x, q.p2.y, k.xx, k.xy, k.yx, k.yy);
  }

  /** AHat and BHat: the points in their own frame, about their mean. */
  function InPlane(sqrt: real -> real, a: Triple): Triple
    requires IsSqrt(sqrt) && NonCollinear(a)
  {
    Centred(ApplyAll(Frame(sqrt, a), a))
  }

  lemma ApplyDifference(m: M3, u: V3, v: V3)
    ensures Apply(m, Sub(u, v)) == Sub(Apply(m, u), Apply(m, v))
  {
    DotSub(u, v, m.r1);
    DotSub(u, v, m.r2);
    DotSub(u, v, m.r3);
  }

  lemma AreaOfMoved(m: M3, a: Triple)
    requires IsRotation(m)
    ensures Area(Centred(ApplyAll(m, a))) == Dot(m.r3, Cross(Sub(a.p2, a.p1), Sub(a.p3, a.p1)))
  {
    var u, v := Sub(a.p2, a.p1), Sub(a.p3, a.p1);
    ApplyDifference(m, a.p2, a.p1);
    ApplyDifference(m, a.p3, a.p1);
    RotationKeepsCross(m, u, v);
    var p := Centred(ApplyAll(m, a));
    assert p.p2.x - p.p1.x == Apply(m, u).x && p.p2.y - p.p1.y == Apply(m, u).y;
    assert p.p3.x - p.p1.x == Apply(m, v).x && p.p3.y - p.p1.y == Apply(m, v).y;
  }

  /** In its own frame the triangle is counter-clockwise. */
  lemma AreaIsPositive(sqrt: real -> real, a: Triple)
    requires IsSqrt(sqrt) && NonCollinear(a)
    ensures Cross2(InPlane(sqrt, a).p1, InPlane(sqrt, a).p2) > 0.0
  {
    var m, c := Frame(sqrt, a), Cross(Sub(a.p2, a.p1), Sub(a.p3, a.p1));
    var k := FrameIsARotation(sqrt, a);
    AreaOfMoved(m, a);
    DotScale(k, c, c);
    NormIsPositive(c);
    Positive(k, Norm2(c), k * Norm2(c));
    CentredIsCentred(ApplyAll(m, a));
    AreaOfCentred(InPlane(sqrt, a));
  }

  lemma LengthIsPositive(k: Covariance)
    requires Det2(k) > 0.0
    ensures Length2(k) > 0.0
  {
    var d, o := k.xx - k.yy, k.yx + k.xy;
    Square(d, d * d);
    Square(o, o * o);
    assert Length2(k) == d * d + o * o + 4.0 * Det2(k);
  }

  lemma CovarianceIsPositive(sqrt: real -> real, a: Triple, b: Triple)
    requires IsSqrt(sqrt) && NonCollinear(a) && NonCollinear(b)
    ensures Det2(Correlate(InPlane(sqrt, a), InPlane(sqrt, b))) > 0.0
  {
    var p, q := InPlane(sqrt, a), InPlane(sqrt, b);
    CentredIsCentred(ApplyAll(Frame(sqrt, a), a));
    CentredIsCentred(ApplyAll(Frame(sqrt, b), b));
    CentredDeterminant(p, q);
    AreaIsPositive(sqrt, a);
    AreaIsPositive(sqrt, b);
    Positive(Cross2(p.p1, p.p2), Cross2(q.p1, q.p2), Cross2(p.p1, p.p2) * Cross2(q.p1, q.p2));
  }

  lemma StrengthIsLength(p: Triple, q: Triple)
    ensures Strength(p, q) == Length2(Correlate(p, q))
  {
    SumsFromCovariance(p, q);
  }

  /** The square root in the closed form is never taken of zero. */
  lemma GainIsPositive(sqrt: real -> real, a: Triple, b: Triple)
    requires IsSqrt(sqrt) && NonCollinear(a) && NonCollinear(b)
    ensures Strength(InPlane(sqrt, a), InPlane(sqrt, b)) > 0.0
  {
    CovarianceIsPositive(sqrt, a, b);
    StrengthIsLength(InPlane(sqrt, a), InPlane(sqrt, b));
    LengthIsPositive(Correlate(InPlane(sqrt, a), InPlane(sqrt, b)));
  }

  /** g*g + h*h */
  function Strength(p: Triple, q: Triple): real {
    G(p, q) * G(p, q) + H(p, q) * H(p, q)
  }

  predicate IsRootOf(w: real, x: real) { w > 0.0 && w * w == x }

  /** temp */
  function Root(sqrt: real -> real, a: Triple, b: Triple): (w: real)
    requires IsSqrt(sqrt) && NonCollinear(a) && NonCollinear(b)
    ensures IsRootOf(w, Strength(InPlane(sqrt, a), InPlane(sqrt, b)))
  {
    GainIsPositive(sqrt, a, b);
    SqrtIsPositive(sqrt, Strength(InPlane(sqrt, a), InPlane(sqrt, b)));
    sqrt(Strength(InPlane(sqrt, a), InPlane(sqrt, b)))
  }

  /** Rxy */
  function Turn(sqrt: real -> real, a: Triple, b: Triple): M3
    requires IsSqrt(sqrt) && NonCollinear(a) && NonCollinear(b)
  {
    var w := Root(sqrt, a, b);
    PlaneRotation(G(InPlane(sqrt, a), InPlane(sqrt, b)) / w, H(InPlane(sqrt, a), InPlane(sqrt, b)) / w)
  }

  /** register_three_points. Collinear points make the source divide by zero. */
  function Register(sqrt: real -> real, a: Triple, b: Triple): Motion
    requires IsSqrt(sqrt) && NonCollinear(a) && NonCollinear(b)
  {
    var ra, rb := Frame(sqrt, a), Frame(sqrt, b);
    var mua, mub := Mean(ApplyAll(ra, a)), Mean(ApplyAll(rb, b));
    var rxy := Turn(sqrt, a, b);
    Motion(Mul(Mul(Transpose(rb), rxy), ra),
           Add(Negate(Apply(Transpose(rb), Apply(rxy, mua))), Apply(Transpose(rb), mub)))
  }
}
