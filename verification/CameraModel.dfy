/** pythonCodegen/camera_model.py and the SE(3) functions of rotation_matrices.py: pinhole
    projection, and triangulation from two calibrated cameras. */
module CameraModel {
  import opened Vectors
  import opened Lines
  import opened Wrappers

  datatype V2 = V2(x: real, y: real)

  function Minus(u: V2, v: V2): V2 { V2(u.x - v.x, u.y - v.y) }

  /** numpy.sqrt, as a function with the property that defines it. */
  ghost predicate IsSqrt(sqrt: real -> real) {
    forall x :: x >= 0.0 ==> sqrt(x) >= 0.0 && sqrt(x) * sqrt(x) == x
  }

  // ---- Homogeneous vectors and matrices ----

  datatype V4 = V4(v: V3, w: real)
  datatype M4 = M4(rot: M3, t: V3, bottom: V3, corner: real)

  function ApplyH(m: M4, u: V4): V4 {
    V4(Add(Apply(m.rot, u.v), Scale(u.w, m.t)), Dot(m.bottom, u.v) + m.corner * u.w)
  }

  function PackSe3(r: M3, t: V3): M4 {
    M4(r, t, ZERO, 1.0)
  }

  function Negate(v: V3): V3 { V3(-v.x, -v.y, -v.z) }

  /** invert_se3, which looks only at the rotation and the translation. */
  function InvertSe3(m: M4): M4 {
    M4(Transpose(m.rot), Negate(Apply(Transpose(m.rot), m.t)), ZERO, 1.0)
  }

  // ---- Projection ----

  /** project, for a point with a non-zero depth; otherwise the source divides by zero. */
  function Project(f: V2, c: V2, p: V3): Option<V2> {
    if p.z == 0.0 then None
    else Some(V2((p.x * f.x + p.z * c.x) / p.z, (p.y * f.y + p.z * c.y) / p.z))
  }

  /** project, for a homogeneous point */
  function ProjectH(f: V2, c: V2, p: V4): Option<V2> {
    if p.w == 0.0 then None
    else Project(f, c, V3(p.v.x / p.w, p.v.y / p.w, p.v.z / p.w))
  }

  function Unproject(f: V2, c: V2, x: V2): V3
    requires f.x != 0.0 && f.y != 0.0
  {
    V3(1.0 / f.x * (x.x - c.x), 1.0 / f.y * (x.y - c.y), 1.0)
  }

  datatype Estimate = Estimate(m: V3, eSpace: real, ePixel: real, m1: V2, m2: V2)

  function Norm(sqrt: real -> real, v: V2): real {
    sqrt(v.x * v.x + v.y * v.y)
  }

  /** The shortest segment between the rays of two image points, in the first camera's frame. */
  function Rays(f1: V2, c1: V2, f2: V2, c2: V2, T: M4, x1: V2, x2: V2): Option<Segment>
    requires f1.x != 0.0 && f1.y != 0.0 && f2.x != 0.0 && f2.y != 0.0
  {
    var a2 := Unproject(f1, c1, x1);
    var b1 := ApplyH(T, V4(ZERO, 1.0)).v;
    var b2 := ApplyH(T, V4(Unproject(f2, c2, x2), 1.0)).v;
    LineLineIntersect(ZERO, a2, b1, b2)
  }

  /** The errors in space and in the images of a point m3 with images m1 and m2. */
  function Score(sqrt: real -> real, m3: V3, gap: V3, m1: Option<V2>, m2: Option<V2>, x1: V2, x2: V2)
    : Option<Estimate>
  {
    if m1.None? || m2.None? then None
    else
      var e1, e2 := Norm(sqrt, Minus(m1.value, x1)), Norm(sqrt, Minus(m2.value, x2));
      Some(Estimate(m3, sqrt(Norm2(gap)), (e1 + e2) * 0.5, m1.value, m2.value))
  }

  /** The midpoint of the segment and its reprojection. */
  function Reproject(sqrt: real -> real, f1: V2, c1: V2, f2: V2, c2: V2, Tinv: M4, x1: V2, x2: V2, s: Segment)
    : Option<Estimate>
  {
    var m3 := Scale(0.5, Add(s.pa, s.pb));
    Score(sqrt, m3, Sub(s.pa, s.pb), Project(f1, c1, m3), ProjectH(f2, c2, ApplyH(Tinv, V4(m3, 1.0))), x1, x2)
  }

  /** triangulateNumpy; None is a failed assertion of the line intersection, or a
      reprojection with zero depth. */
  function Triangulate(sqrt: real -> real, f1: V2, c1: V2, f2: V2, c2: V2, T: M4, Tinv: M4, x1: V2, x2: V2)
    : Option<Estimate>
    requires f1.x != 0.0 && f1.y != 0.0 && f2.x != 0.0 && f2.y != 0.0
  {
    var s := Rays(f1, c1, f2, c2, T, x1, x2);
    if s.None? then None else Reproject(sqrt, f1, c1, f2, c2, Tinv, x1, x2, s.value)
  }

  // ---- Correctness ----

  /** The inverse takes a point of the first camera's frame to the second's, and back. */
  lemma InverseUndoes(r: M3, t: V3, p: V3)
    requires IsRotation(r)
    ensures var q := ApplyH(InvertSe3(PackSe3(r, t)), V4(p, 1.0));
            q.w == 1.0 && q.v == Apply(Transpose(r), Sub(p, t))
    ensures var q := ApplyH(InvertSe3(PackSe3(r, t)), V4(p, 1.0)); ApplyH(PackSe3(r, t), q) == V4(p, 1.0)
  {
    var rt := Transpose(r);
    ApplySub(rt, p, t);
    TransposeIsRotation(r);
    TransposeUndoes(rt, Sub(p, t));
    assert Transpose(rt) == r;
  }

  lemma ApplySub(m: M3, p: V3, t: V3)
    ensures Apply(m, Sub(p, t)) == Add(Apply(m, p), Negate(Apply(m, t)))
  {
    DotSub(p, t, m.r1);
    DotSub(p, t, m.r2);
    DotSub(p, t, m.r3);
  }

  lemma ApplyScale(m: M3, k: real, p: V3)
    ensures Apply(m, Scale(k, p)) == Scale(k, Apply(m, p))
  {
    DotScale(k, p, m.r1);
    DotScale(k, p, m.r2);
    DotScale(k, p, m.r3);
  }

  /** The ray of a projected point goes through the point, at its depth. */
  lemma UnprojectInvertsProject(f: V2, c: V2, p: V3)
    requires f.x != 0.0 && f.y != 0.0 && p.z != 0.0
    ensures Scale(p.z, Unproject(f, c, Project(f, c, p).value)) == p
  {
    UnprojectCoordinate(f.x, c.x, p.x, p.z);
    UnprojectCoordinate(f.y, c.y, p.y, p.z);
  }

  lemma UnprojectCoordinate(f: real, c: real, x: real, z: real)
    requires f != 0.0 && z != 0.0
    ensures z * (1.0 / f * ((x * f + z * c) / z - c)) == x
  {
    var q := (x * f + z * c) / z;
    assert q * z == x * f + z * c;
    var d := q - c;
    assert d * z == x * f;
    var g := 1.0 / f;
    assert g * f == 1.0;
    assert z * (g * d) == g * (d * z) == g * (x * f) == (g * f) * x;
  }

  lemma ApplyZero(m: M3)
    ensures Apply(m, ZERO) == ZERO
  {
  }

  lemma ScaleOne(t: V3)
    ensures Scale(1.0, t) == t
  {
  }

  /** The second camera's centre, and a direction seen from it, in the first camera's frame. */
  lemma SecondRay(r: M3, t: V3, u: V3)
    ensures ApplyH(PackSe3(r, t), V4(ZERO, 1.0)).v == t
    ensures ApplyH(PackSe3(r, t), V4(u, 1.0)).v == Add(Apply(r, u), t)
  {
    ApplyZero(r);
    ScaleOne(t);
    assert Add(ZERO, t) == t;
  }

  /** Seen from the second camera: p is at depth k of the ray through u. */
  lemma SecondRayMeets(r: M3, t: V3, p: V3, u: V3, k: real)
    requires IsRotation(r) && Scale(k, u) == Apply(Transpose(r), Sub(p, t))
    ensures On(t, Add(Apply(r, u), t), k) == p
  {
    ApplyScale(r, k, u);
    TransposeIsRotation(r);
    TransposeUndoes(Transpose(r), Sub(p, t));
    assert Transpose(Transpose(r)) == r;
    assert Sub(Add(Apply(r, u), t), t) == Apply(r, u);
    assert Add(t, Sub(p, t)) == p;
  }

  lemma FirstRayMeets(p: V3, u: V3, k: real)
    requires Scale(k, u) == p
    ensures On(ZERO, u, k) == p
  {
    assert Sub(u, ZERO) == u;
  }

  /** A rotated ray direction is never negligible, so only the denominator can fail. */
  lemma RaysAreLong(r: M3, u: V3)
    requires IsRotation(r) && u.z == 1.0
    ensures !Negligible(u) && !Negligible(Apply(r, u))
  {
    RotationKeepsDot(r, u, u);
    Square(u.x, u.x * u.x);
    Square(u.y, u.y * u.y);
    assert Norm2(Apply(r, u)) >= 1.0;
    if Negligible(Apply(r, u)) {
      NegligibleIsShort(Apply(r, u));
    }
  }

  lemma LessThanItself(y: real, z: real, q: real)
    requires y >= 0.0 && z >= 0.0 && z == 1.0 - y && q == y * z
    ensures y * y <= y
  {
    assert q == y - y * y;
    if y > 0.0 && z > 0.0 {
      Positive(y, z, q);
    }
  }

  lemma SmallSquare(x: real, p: real)
    requires Abs(x) < EPS && p == x * x
    ensures p < 0.1
  {
    var y := Abs(x);
    assert p == y * y;
    LessThanItself(y, 1.0 - y, y * (1.0 - y));
  }

  lemma NegligibleIsShort(v: V3)
    requires Negligible(v)
    ensures Norm2(v) < 1.0
  {
    SmallSquare(v.x, v.x * v.x);
    SmallSquare(v.y, v.y * v.y);
    SmallSquare(v.z, v.z * v.z);
  }

  /** Both rays meet in p, and the intersection finds it unless they are too nearly parallel. */
  lemma RaysMeet(r: M3, t: V3, p: V3, u1: V3, u2: V3, k1: real, k2: real)
    requires IsRotation(r) && u1.z == 1.0 && u2.z == 1.0
    requires Scale(k1, u1) == p && Scale(k2, u2) == Apply(Transpose(r), Sub(p, t))
    ensures LineLineIntersect(ZERO, u1, t, Add(Apply(r, u2), t))
         == if Abs(Denom(u1, Apply(r, u2))) < EPS then None else Some(Segment(p, p, k1, k2))
  {
    var b2 := Add(Apply(r, u2), t);
    assert Sub(u1, ZERO) == u1 && Sub(b2, t) == Apply(r, u2);
    RaysAreLong(r, u2);
    RaysAreLong(IDENTITY, u1);
    if Abs(Denom(u1, Apply(r, u2))) >= EPS {
      FirstRayMeets(p, u1, k1);
      SecondRayMeets(r, t, p, u2, k2);
      MeetingPointIsFound(ZERO, u1, t, b2, k1, k2);
    }
  }

  lemma Midpoint(p: V3)
    ensures Scale(0.5, Add(p, p)) == p && Sub(p, p) == ZERO
  {
  }

  lemma SqrtOfZero(sqrt: real -> real)
    requires IsSqrt(sqrt)
    ensures sqrt(0.0) == 0.0
  {
    var y := sqrt(0.0);
    if y > 0.0 {
      Positive(y, y, y * y);
    }
  }

  lemma NoError(sqrt: real -> real, x: V2)
    requires sqrt(0.0) == 0.0
    ensures Norm(sqrt, Minus(x, x)) == 0.0
  {
    assert Minus(x, x) == V2(0.0, 0.0);
  }

  lemma NoGap(sqrt: real -> real)
    requires sqrt(0.0) == 0.0
    ensures sqrt(Norm2(ZERO)) == 0.0
  {
    NormOfZero();
  }

  lemma ExactScore(sqrt: real -> real, p: V3, x1: V2, x2: V2)
    requires sqrt(0.0) == 0.0
    ensures Score(sqrt, p, ZERO, Some(x1), Some(x2), x1, x2) == Some(Estimate(p, 0.0, 0.0, x1, x2))
  {
    NoGap(sqrt);
    NoError(sqrt, x1);
    NoError(sqrt, x2);
  }

  /** If the rays meet in p, and the images are those of p, the estimate is exact. */
  lemma ExactEstimate(sqrt: real -> real, f1: V2, c1: V2, f2: V2, c2: V2, Tinv: M4, x1: V2, x2: V2,
                      p: V3, k1: real, k2: real)
    requires IsSqrt(sqrt)
    requires Project(f1, c1, p) == Some(x1)
    requires ProjectH(f2, c2, ApplyH(Tinv, V4(p, 1.0))) == Some(x2)
    ensures Reproject(sqrt, f1, c1, f2, c2, Tinv, x1, x2, Segment(p, p, k1, k2)) == Some(Estimate(p, 0.0, 0.0, x1, x2))
  {
    Midpoint(p);
    SqrtOfZero(sqrt);
    ExactScore(sqrt, p, x1, x2);
  }

  /** The image of a point in the second camera. */
  lemma SecondImage(f: V2, c: V2, r: M3, t: V3, p: V3)
    requires IsRotation(r)
    ensures var q := ApplyH(InvertSe3(PackSe3(r, t)), V4(p, 1.0));
            q == V4(Apply(Transpose(r), Sub(p, t)), 1.0) && ProjectH(f, c, q) == Project(f, c, q.v)
  {
    InverseUndoes(r, t, p);
    var q := Apply(Transpose(r), Sub(p, t));
    assert V3(q.x / 1.0, q.y / 1.0, q.z / 1.0) == q;
  }

  /** Triangulation inverts projection: from the two images of a point p with non-zero depth
      in both cameras it gives back p, without error in space or in the images, exactly
      when the two rays pass the parallelism test. */
  lemma TriangulationInvertsProjection(sqrt: real -> real, f1: V2, c1: V2, f2: V2, c2: V2, r: M3, t: V3, p: V3,
                                       x1: V2, x2: V2)
    requires IsSqrt(sqrt) && IsRotation(r)
    requires f1.x != 0.0 && f1.y != 0.0 && f2.x != 0.0 && f2.y != 0.0
    requires Project(f1, c1, p) == Some(x1)
    requires ProjectH(f2, c2, ApplyH(InvertSe3(PackSe3(r, t)), V4(p, 1.0))) == Some(x2)
    ensures Triangulate(sqrt, f1, c1, f2, c2, PackSe3(r, t), InvertSe3(PackSe3(r, t)), x1, x2)
         == if Abs(Denom(Unproject(f1, c1, x1), Apply(r, Unproject(f2, c2, x2)))) < EPS then None
            else Some(Estimate(p, 0.0, 0.0, x1, x2))
  {
    var q := Apply(Transpose(r), Sub(p, t));
    SecondImage(f2, c2, r, t, p);
    var u1, u2 := Unproject(f1, c1, x1), Unproject(f2, c2, x2);
    UnprojectInvertsProject(f1, c1, p);
    UnprojectInvertsProject(f2, c2, q);
    SecondRay(r, t, u2);
    RaysMeet(r, t, p, u1, u2, p.z, q.z);
    if Abs(Denom(u1, Apply(r, u2))) >= EPS {
      ExactEstimate(sqrt, f1, c1, f2, c2, InvertSe3(PackSe3(r, t)), x1, x2, p, p.z, q.z);
    }
  }
}
