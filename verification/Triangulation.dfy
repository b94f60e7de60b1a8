/** pythonCodegen/camera_model.py, triangulateNumpy, for any two images: also for those whose rays miss
    each other, as those of measured points do. */
module Triangulation {
  import opened Vectors
  import opened Lines
  import opened CameraModel
  import opened Wrappers

  // ---- A pinhole ----

  /** The image of a point is to the focal length as the point is to its depth. */
  lemma ProjectIsPinhole(f: V2, c: V2, p: V3)
    requires p.z != 0.0
    ensures var u := Project(f, c, p).value;
            (u.x - c.x) * p.z == f.x * p.x && (u.y - c.y) * p.z == f.y * p.y
  {
    PinholeCoordinate(f.x, c.x, p.x, p.z, Project(f, c, p).value.x);
    PinholeCoordinate(f.y, c.y, p.y, p.z, Project(f, c, p).value.y);
  }

  lemma PinholeCoordinate(f: real, c: real, x: real, z: real, u: real)
    requires z != 0.0 && u == (x * f + z * c) / z
    ensures (u - c) * z == f * x
  {
    assert u * z == x * f + z * c;
  }

  /** Every point of the ray of an image, but the camera itself, has that image. */
  lemma ProjectInvertsUnproject(f: V2, c: V2, x: V2, k: real)
    requires f.x != 0.0 && f.y != 0.0 && k != 0.0
    ensures Project(f, c, Scale(k, Unproject(f, c, x))) == Some(x)
  {
    var p := Scale(k, Unproject(f, c, x));
    assert p.z == k;
    RayCoordinate(f.x, c.x, x.x, p.z, p.x);
    RayCoordinate(f.y, c.y, x.y, p.z, p.y);
    var u := Project(f, c, p).value;
    assert u.x == x.x && u.y == x.y;
  }

  lemma RayCoordinate(f: real, c: real, x: real, k: real, p: real)
    requires f != 0.0 && k != 0.0 && p == k * (1.0 / f * (x - c))
    ensures (p * f + k * c) / k == x
  {
    var g := 1.0 / f;
    assert g * f == 1.0;
    assert p * f == k * ((g * f) * (x - c)) == k * x - k * c;
    assert (k * x) / k == x;
  }

  // ---- Images in two cameras ----

  /** A point seen at x1 in the first camera and one seen at x2 in the second. */
  predicate SeenFirst(f: V2, c: V2, x: V2, q: V3) {
    Project(f, c, q) == Some(x)
  }

  predicate SeenSecond(f: V2, c: V2, r: M3, t: V3, x: V2, q: V3) {
    Project(f, c, Apply(Transpose(r), Sub(q, t))) == Some(x)
  }

  lemma SeenIsOnFirstRay(f: V2, c: V2, x: V2, q: V3)
    requires f.x != 0.0 && f.y != 0.0 && SeenFirst(f, c, x, q)
    ensures On(ZERO, Unproject(f, c, x), q.z) == q
  {
    UnprojectInvertsProject(f, c, q);
    FirstRayMeets(q, Unproject(f, c, x), q.z);
  }

  lemma SeenIsOnSecondRay(f: V2, c: V2, r: M3, t: V3, x: V2, q: V3) returns (k: real)
    requires IsRotation(r) && f.x != 0.0 && f.y != 0.0 && SeenSecond(f, c, r, t, x, q)
    ensures On(t, Add(Apply(r, Unproject(f, c, x)), t), k) == q
  {
    var d := Apply(Transpose(r), Sub(q, t));
    UnprojectInvertsProject(f, c, d);
    k := d.z;
    SecondRayMeets(r, t, q, Unproject(f, c, x), k);
  }

  // ---- The midpoint ----

  lemma ParallelogramCoordinate(p: real, a: real, b: real, m: real)
    requires m == 0.5 * (a + b)
    ensures (p - a) * (p - a) + (p - b) * (p - b) == 2.0 * ((p - m) * (p - m)) + 0.5 * ((a - b) * (a - b))
  {
  }

  /** The squared distances of p to two points, from those of their midpoint and of each other. */
  lemma Parallelogram(p: V3, a: V3, b: V3)
    ensures Norm2(Sub(p, a)) + Norm2(Sub(p, b))
         == 2.0 * Norm2(Sub(p, Scale(0.5, Add(a, b)))) + 0.5 * Norm2(Sub(a, b))
  {
    var m := Scale(0.5, Add(a, b));
    ParallelogramCoordinate(p.x, a.x, b.x, m.x);
    ParallelogramCoordinate(p.y, a.y, b.y, m.y);
    ParallelogramCoordinate(p.z, a.z, b.z, m.z);
  }

  lemma MidpointDistances(a: V3, b: V3)
    ensures var m := Scale(0.5, Add(a, b)); Norm2(Sub(m, a)) + Norm2(Sub(m, b)) == 0.5 * Norm2(Sub(a, b))
  {
    var m := Scale(0.5, Add(a, b));
    Parallelogram(m, a, b);
    assert Sub(m, m) == ZERO;
    NormOfZero();
  }

  /** The midpoint of the shortest segment has the least sum of squared distances to the two lines,
      and no other point has it. */
  lemma MidpointIsClosest(p1: V3, p2: V3, p3: V3, p4: V3, p: V3, s: real, t: real)
    requires LineLineIntersect(p1, p2, p3, p4).Some?
    ensures var g := LineLineIntersect(p1, p2, p3, p4).value;
            var m := Scale(0.5, Add(g.pa, g.pb));
            var best := Norm2(Sub(m, g.pa)) + Norm2(Sub(m, g.pb));
            var other := Norm2(Sub(p, On(p1, p2, s))) + Norm2(Sub(p, On(p3, p4, t)));
            best <= other && (p != m ==> best < other)
  {
    var g := LineLineIntersect(p1, p2, p3, p4).value;
    var m, q1, q2 := Scale(0.5, Add(g.pa, g.pb)), On(p1, p2, s), On(p3, p4, t);
    MidpointDistances(g.pa, g.pb);
    Parallelogram(p, q1, q2);
    NormIsPositive(Sub(p, Scale(0.5, Add(q1, q2))));
    SegmentIsShortest(p1, p2, p3, p4, s, t);
    if s != g.mua || t != g.mub {
      OthersAreLonger(p1, p2, p3, p4, s, t);
    } else if p != m {
      DifferentPoints(p, m);
    }
  }

  lemma DifferentPoints(p: V3, q: V3)
    requires p != q
    ensures Norm2(Sub(p, q)) > 0.0
  {
    assert Sub(p, q) != ZERO;
    NormIsPositive(Sub(p, q));
  }

  // ---- What triangulation returns ----

  /** The directions of the two rays, in the frame of the first camera. */
  function Ray1(f1: V2, c1: V2, x1: V2): V3
    requires f1.x != 0.0 && f1.y != 0.0
  {
    Unproject(f1, c1, x1)
  }

  function Ray2(f2: V2, c2: V2, r: M3, x2: V2): V3
    requires f2.x != 0.0 && f2.y != 0.0
  {
    Apply(r, Unproject(f2, c2, x2))
  }

  lemma RaysAreLines(f1: V2, c1: V2, f2: V2, c2: V2, r: M3, t: V3, x1: V2, x2: V2)
    requires f1.x != 0.0 && f1.y != 0.0 && f2.x != 0.0 && f2.y != 0.0
    ensures Rays(f1, c1, f2, c2, PackSe3(r, t), x1, x2)
         == LineLineIntersect(ZERO, Ray1(f1, c1, x1), t, Add(Ray2(f2, c2, r, x2), t))
  {
    SecondRay(r, t, Unproject(f2, c2, x2));
  }

  /** For any two images: no point of space has a smaller sum of squared distances to what the first
      camera sees at x1 and the second at x2 than the point that is returned, no other point has an
      equal one, and the points that are measured from are the closest. */
  lemma TriangulationIsClosest(sqrt: real -> real, f1: V2, c1: V2, f2: V2, c2: V2, r: M3, t: V3, x1: V2, x2: V2,
                               p: V3, q1: V3, q2: V3)
    requires IsRotation(r) && f1.x != 0.0 && f1.y != 0.0 && f2.x != 0.0 && f2.y != 0.0
    requires Triangulate(sqrt, f1, c1, f2, c2, PackSe3(r, t), InvertSe3(PackSe3(r, t)), x1, x2).Some?
    requires SeenFirst(f1, c1, x1, q1) && SeenSecond(f2, c2, r, t, x2, q2)
    ensures Rays(f1, c1, f2, c2, PackSe3(r, t), x1, x2).Some?
    ensures var m := Triangulate(sqrt, f1, c1, f2, c2, PackSe3(r, t), InvertSe3(PackSe3(r, t)), x1, x2).value.m;
            var g := Rays(f1, c1, f2, c2, PackSe3(r, t), x1, x2).value;
            var best, other := Norm2(Sub(m, g.pa)) + Norm2(Sub(m, g.pb)), Norm2(Sub(p, q1)) + Norm2(Sub(p, q2));
            best <= other && (p != m ==> best < other) && Norm2(Sub(g.pa, g.pb)) <= Norm2(Sub(q1, q2))
  {
    var u1, u2 := Ray1(f1, c1, x1), Ray2(f2, c2, r, x2);
    RaysAreLines(f1, c1, f2, c2, r, t, x1, x2);
    SeenIsOnFirstRay(f1, c1, x1, q1);
    var k := SeenIsOnSecondRay(f2, c2, r, t, x2, q2);
    MidpointIsClosest(ZERO, u1, t, Add(u2, t), p, q1.z, k);
    SegmentIsShortest(ZERO, u1, t, Add(u2, t), q1.z, k);
  }

  /** The ends of the shortest segment are points of the rays: unless they are at a camera, they are
      seen at x1 and x2. */
  lemma ClosestPointsAreSeen(f1: V2, c1: V2, f2: V2, c2: V2, r: M3, t: V3, x1: V2, x2: V2)
    requires IsRotation(r) && f1.x != 0.0 && f1.y != 0.0 && f2.x != 0.0 && f2.y != 0.0
    requires Rays(f1, c1, f2, c2, PackSe3(r, t), x1, x2).Some?
    ensures var g := Rays(f1, c1, f2, c2, PackSe3(r, t), x1, x2).value;
            && (g.mua != 0.0 ==> SeenFirst(f1, c1, x1, g.pa)) && (g.mua == 0.0 ==> g.pa == ZERO)
            && (g.mub != 0.0 ==> SeenSecond(f2, c2, r, t, x2, g.pb)) && (g.mub == 0.0 ==> g.pb == t)
  {
    var g := Rays(f1, c1, f2, c2, PackSe3(r, t), x1, x2).value;
    RaysAreLines(f1, c1, f2, c2, r, t, x1, x2);
    EndsOfSegment(Ray1(f1, c1, x1), t, Ray2(f2, c2, r, x2));
    BackInSecond(r, t, Unproject(f2, c2, x2), g.mub, g.pb);
    if g.mua != 0.0 {
      ProjectInvertsUnproject(f1, c1, x1, g.mua);
    }
    if g.mub != 0.0 {
      ProjectInvertsUnproject(f2, c2, x2, g.mub);
    }
  }

  lemma EndsOfSegment(u1: V3, t: V3, u2: V3)
    requires LineLineIntersect(ZERO, u1, t, Add(u2, t)).Some?
    ensures var g := LineLineIntersect(ZERO, u1, t, Add(u2, t)).value;
            g.pa == Scale(g.mua, u1) && g.pb == Add(t, Scale(g.mub, u2))
  {
    assert Sub(u1, ZERO) == u1 && Sub(Add(u2, t), t) == u2;
  }

  /** Seen from the second camera, a point of its ray is a multiple of the direction. */
  lemma BackInSecond(r: M3, t: V3, u: V3, k: real, q: V3)
    requires IsRotation(r) && q == Add(t, Scale(k, Apply(r, u)))
    ensures Apply(Transpose(r), Sub(q, t)) == Scale(k, u) && (k == 0.0 ==> q == t)
  {
    assert Sub(q, t) == Scale(k, Apply(r, u));
    ApplyScale(r, k, u);
    TransposeUndoes(r, Scale(k, u));
  }

  lemma RootOf(sqrt: real -> real, x: real)
    requires IsSqrt(sqrt) && x >= 0.0
    ensures sqrt(x) >= 0.0 && sqrt(x) * sqrt(x) == x
  {
  }

  /** The squared length of a vector in the image. */
  function SquaredNorm(v: V2): real { v.x * v.x + v.y * v.y }

  lemma PixelDistance(sqrt: real -> real, v: V2) returns (d: real)
    requires IsSqrt(sqrt)
    ensures d == Norm(sqrt, v) && d >= 0.0 && d * d == SquaredNorm(v)
  {
    Square(v.x, v.x * v.x);
    Square(v.y, v.y * v.y);
    d := Norm(sqrt, v);
  }

  /** The error in space is the distance of the two rays. */
  lemma SpaceError(sqrt: real -> real, f1: V2, c1: V2, f2: V2, c2: V2, Tinv: M4, x1: V2, x2: V2, g: Segment)
    requires IsSqrt(sqrt) && Reproject(sqrt, f1, c1, f2, c2, Tinv, x1, x2, g).Some?
    ensures var e := Reproject(sqrt, f1, c1, f2, c2, Tinv, x1, x2, g).value;
            e.eSpace >= 0.0 && e.eSpace * e.eSpace == Norm2(Sub(g.pa, g.pb))
  {
    NormIsPositive(Sub(g.pa, g.pb));
    RootOf(sqrt, Norm2(Sub(g.pa, g.pb)));
  }

  /** The error in the images is the mean of two distances. */
  lemma PixelError(sqrt: real -> real, f1: V2, c1: V2, f2: V2, c2: V2, Tinv: M4, x1: V2, x2: V2, g: Segment)
      returns (d1: real, d2: real)
    requires IsSqrt(sqrt) && Reproject(sqrt, f1, c1, f2, c2, Tinv, x1, x2, g).Some?
    ensures var e := Reproject(sqrt, f1, c1, f2, c2, Tinv, x1, x2, g).value;
            && d1 >= 0.0 && d1 * d1 == SquaredNorm(Minus(e.m1, x1))
            && d2 >= 0.0 && d2 * d2 == SquaredNorm(Minus(e.m2, x2))
            && 2.0 * e.ePixel == d1 + d2
  {
    var e := Reproject(sqrt, f1, c1, f2, c2, Tinv, x1, x2, g).value;
    d1 := PixelDistance(sqrt, Minus(e.m1, x1));
    d2 := PixelDistance(sqrt, Minus(e.m2, x2));
  }

  lemma ReprojectedImages(sqrt: real -> real, f1: V2, c1: V2, f2: V2, c2: V2, r: M3, t: V3, x1: V2, x2: V2, g: Segment)
    requires IsRotation(r) && Reproject(sqrt, f1, c1, f2, c2, InvertSe3(PackSe3(r, t)), x1, x2, g).Some?
    ensures var e := Reproject(sqrt, f1, c1, f2, c2, InvertSe3(PackSe3(r, t)), x1, x2, g).value;
            SeenFirst(f1, c1, e.m1, e.m) && SeenSecond(f2, c2, r, t, e.m2, e.m)
  {
    SecondImage(f2, c2, r, t, Scale(0.5, Add(g.pa, g.pb)));
  }

  /** The errors: eSpace is the distance of the two rays; m1 and m2 are the images of the returned
      point; ePixel is the mean of their distances d1 and d2 from the given images. */
  lemma TriangulationErrors(sqrt: real -> real, f1: V2, c1: V2, f2: V2, c2: V2, r: M3, t: V3, x1: V2, x2: V2)
      returns (d1: real, d2: real)
    requires IsSqrt(sqrt) && IsRotation(r) && f1.x != 0.0 && f1.y != 0.0 && f2.x != 0.0 && f2.y != 0.0
    requires Triangulate(sqrt, f1, c1, f2, c2, PackSe3(r, t), InvertSe3(PackSe3(r, t)), x1, x2).Some?
    ensures Rays(f1, c1, f2, c2, PackSe3(r, t), x1, x2).Some?
    ensures var e := Triangulate(sqrt, f1, c1, f2, c2, PackSe3(r, t), InvertSe3(PackSe3(r, t)), x1, x2).value;
            var g := Rays(f1, c1, f2, c2, PackSe3(r, t), x1, x2).value;
            && e.eSpace >= 0.0 && e.eSpace * e.eSpace == Norm2(Sub(g.pa, g.pb))
            && SeenFirst(f1, c1, e.m1, e.m) && SeenSecond(f2, c2, r, t, e.m2, e.m)
            && d1 >= 0.0 && d1 * d1 == SquaredNorm(Minus(e.m1, x1))
            && d2 >= 0.0 && d2 * d2 == SquaredNorm(Minus(e.m2, x2))
            && 2.0 * e.ePixel == d1 + d2
  {
    var Tinv := InvertSe3(PackSe3(r, t));
    var g := Rays(f1, c1, f2, c2, PackSe3(r, t), x1, x2).value;
    SpaceError(sqrt, f1, c1, f2, c2, Tinv, x1, x2, g);
    ReprojectedImages(sqrt, f1, c1, f2, c2, r, t, x1, x2, g);
    d1, d2 := PixelError(sqrt, f1, c1, f2, c2, Tinv, x1, x2, g);
  }

  /** Triangulation fails exactly if the rays are too nearly parallel, or the point is at depth zero
      in a camera. */
  lemma TriangulationFailsExactly(sqrt: real -> real, f1: V2, c1: V2, f2: V2, c2: V2, r: M3, t: V3, x1: V2, x2: V2)
    requires IsRotation(r) && f1.x != 0.0 && f1.y != 0.0 && f2.x != 0.0 && f2.y != 0.0
    ensures var g := Rays(f1, c1, f2, c2, PackSe3(r, t), x1, x2);
            && (g.None? <==> Abs(Denom(Ray1(f1, c1, x1), Ray2(f2, c2, r, x2))) < EPS)
            && (Triangulate(sqrt, f1, c1, f2, c2, PackSe3(r, t), InvertSe3(PackSe3(r, t)), x1, x2).None? <==>
                  g.None? || Failing(r, t, Scale(0.5, Add(g.value.pa, g.value.pb))))
  {
    var u1, u2 := Ray1(f1, c1, x1), Ray2(f2, c2, r, x2);
    RaysAreLines(f1, c1, f2, c2, r, t, x1, x2);
    RaysAreLong(r, Unproject(f2, c2, x2));
    RaysAreLong(IDENTITY, u1);
    assert Sub(u1, ZERO) == u1 && Sub(Add(u2, t), t) == u2;
    var g := Rays(f1, c1, f2, c2, PackSe3(r, t), x1, x2);
    if g.Some? {
      SecondImage(f2, c2, r, t, Scale(0.5, Add(g.value.pa, g.value.pb)));
    }
  }

  predicate Failing(r: M3, t: V3, m: V3) {
    m.z == 0.0 || Apply(Transpose(r), Sub(m, t)).z == 0.0
  }
}
