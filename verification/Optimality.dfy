/** Why the closed form of register_three_points is the least-squares rigid motion: among all
    rotations and all translations, not only those in the plane of the points. */
module Optimality {
  import opened Vectors
  import opened Lines
  import opened CameraModel
  import opened Registration

  // ---- Two-dimensional estimates ----

  lemma ProductOfSums(a: real, b: real, c: real, d: real, m: real, n: real)
    requires m == a * c + b * d && n == a * d - b * c
    ensures m * m + n * n == (a * a + b * b) * (c * c + d * d)
  {
    assert m * m == a * c * a * c + 2.0 * (a * c * b * d) + b * d * b * d;
    assert n * n == a * d * a * d - 2.0 * (a * c * b * d) + b * c * b * c;
  }

  lemma NoLarger(m: real, r: real, w: real)
    requires r >= 0.0 && w >= 0.0 && m * m <= (r * r) * (w * w)
    ensures m <= r * w
  {
    var p := r * w;
    assert p >= 0.0;
    assert p * p == (r * r) * (w * w);
    if m > p {
      SquareGrows(p, m);
    }
  }

  lemma SquareGrows(p: real, m: real)
    requires 0.0 <= p < m
    ensures p * p < m * m
  {
    assert p * p <= p * m;
    Positive(m, m - p, m * (m - p));
    assert m * (m - p) == m * m - p * m;
  }

  lemma ScaledBound(r2: real, x: real, y: real)
    requires r2 >= 0.0 && x <= y
    ensures r2 * x <= r2 * y
  {
  }

  /** Cauchy and Schwarz in the plane, for a vector of length r and one no longer than w. */
  lemma CauchySchwarz(a: real, b: real, c: real, d: real, r: real, w: real, m: real)
    requires m == a * c + b * d && r >= 0.0 && w >= 0.0 && a * a + b * b == r * r && c * c + d * d <= w * w
    ensures m <= r * w
  {
    var n := a * d - b * c;
    ProductOfSums(a, b, c, d, m, n);
    Square(n, n * n);
    Square(r, r * r);
    ScaledBound(r * r, c * c + d * d, w * w);
    NoLarger(m, r, w);
  }

  // ---- The upper left block of a rotation ----

  lemma BlockEntries(p: M3)
    requires IsRotation(p)
    ensures p.r3.z == p.r1.x * p.r2.y - p.r1.y * p.r2.x
    ensures p.r1.x * p.r1.x + p.r1.y * p.r1.y + p.r1.z * p.r1.z == 1.0
    ensures p.r2.x * p.r2.x + p.r2.y * p.r2.y + p.r2.z * p.r2.z == 1.0
    ensures p.r1.z * p.r1.z + p.r2.z * p.r2.z + p.r3.z * p.r3.z == 1.0
  {
    RotationRows(p);
    TransposeIsRotation(p);
    RotationRows(Transpose(p));
  }

  /** Sum and difference of the block's diagonals have lengths 1 + m and 1 - m, m the third diagonal entry. */
  lemma BlockLengths(p: M3)
    requires IsRotation(p)
    ensures var m := p.r3.z;
            && -1.0 <= m <= 1.0
            && (p.r1.x + p.r2.y) * (p.r1.x + p.r2.y) + (p.r2.x - p.r1.y) * (p.r2.x - p.r1.y) == (1.0 + m) * (1.0 + m)
            && (p.r1.x - p.r2.y) * (p.r1.x - p.r2.y) + (p.r1.y + p.r2.x) * (p.r1.y + p.r2.x) == (1.0 - m) * (1.0 - m)
  {
    BlockEntries(p);
    Lengths(p.r1.x, p.r1.y, p.r1.z, p.r2.x, p.r2.y, p.r2.z, p.r3.z);
  }

  lemma Lengths(a: real, b: real, x: real, c: real, d: real, y: real, m: real)
    requires m == a * d - b * c
    requires a * a + b * b + x * x == 1.0 && c * c + d * d + y * y == 1.0 && x * x + y * y + m * m == 1.0
    ensures -1.0 <= m <= 1.0
    ensures (a + d) * (a + d) + (c - b) * (c - b) == (1.0 + m) * (1.0 + m)
    ensures (a - d) * (a - d) + (b + c) * (b + c) == (1.0 - m) * (1.0 - m)
  {
    var block := a * a + b * b + c * c + d * d;
    BlockSquares(a, b, x, c, d, y, m, block);
    BlockIdentity(a, b, c, d, m, block);
    Square(x, x * x);
    Square(y, y * y);
    AtMostOne(m);
  }

  lemma AtMostOne(m: real)
    requires m * m <= 1.0
    ensures -1.0 <= m <= 1.0
  {
    if m > 1.0 {
      SquareGrows(1.0, m);
    }
    var n := -m;
    assert n * n == m * m;
    if n > 1.0 {
      SquareGrows(1.0, n);
    }
  }

  lemma BlockSquares(a: real, b: real, x: real, c: real, d: real, y: real, m: real, block: real)
    requires a * a + b * b + x * x == 1.0 && c * c + d * d + y * y == 1.0 && x * x + y * y + m * m == 1.0
    requires block == a * a + b * b + c * c + d * d
    ensures block == 1.0 + m * m
  {
  }

  lemma BlockIdentity(a: real, b: real, c: real, d: real, m: real, block: real)
    requires m == a * d - b * c && block == a * a + b * b + c * c + d * d && block == 1.0 + m * m
    ensures (a + d) * (a + d) + (c - b) * (c - b) == (1.0 + m) * (1.0 + m)
    ensures (a - d) * (a - d) + (b + c) * (b + c) == (1.0 - m) * (1.0 - m)
  {
    assert (a + d) * (a + d) + (c - b) * (c - b) == block + 2.0 * (a * d - b * c);
    assert (a - d) * (a - d) + (b + c) * (b + c) == block - 2.0 * (a * d - b * c);
  }

  /** How well a rotation turns the points p onto q, when all of them lie in the plane. */
  function PlaneGain(m: M3, k: Covariance): real {
    m.r1.x * k.xx + m.r1.y * k.xy + m.r2.x * k.yx + m.r2.y * k.yy
  }

  /** No rotation of space does better than w, the length of (xx + yy, yx - xy), because the
      determinant of the covariance is positive. */
  lemma GainIsBounded(m: M3, k: Covariance, w: real)
    requires IsRotation(m) && Det2(k) > 0.0
    requires IsRootOf(w, Length2(k))
    ensures PlaneGain(m, k) <= w
  {
    BlockLengths(m);
    BlockGainIsBounded(m.r1.x, m.r1.y, m.r2.x, m.r2.y, 1.0 + m.r3.z, 1.0 - m.r3.z, k, w);
  }

  lemma BlockGainIsBounded(a: real, b: real, c: real, d: real, r1: real, r2: real, k: Covariance, w: real)
    requires r1 >= 0.0 && r2 >= 0.0 && r1 + r2 == 2.0 && Det2(k) > 0.0 && IsRootOf(w, Length2(k))
    requires (a + d) * (a + d) + (c - b) * (c - b) == r1 * r1
    requires (a - d) * (a - d) + (b + c) * (b + c) == r2 * r2
    ensures a * k.xx + b * k.xy + c * k.yx + d * k.yy <= w
  {
    var m := (a + d) * (k.xx + k.yy) + (c - b) * (k.yx - k.xy);
    var n := (a - d) * (k.xx - k.yy) + (b + c) * (k.xy + k.yx);
    var gain := a * k.xx + b * k.xy + c * k.yx + d * k.yy;
    SplitGain(a, b, c, d, k.xx, k.xy, k.yx, k.yy, m, n, gain);
    CauchySchwarz(a + d, c - b, k.xx + k.yy, k.yx - k.xy, r1, w, m);
    ReflectedGain(a - d, b + c, r2, k, w, n);
    HalfOfSum(r1, r2, w, m, n, gain);
  }

  lemma ReflectedGain(s: real, t: real, r: real, k: Covariance, w: real, n: real)
    requires r >= 0.0 && Det2(k) > 0.0 && IsRootOf(w, Length2(k))
    requires s * s + t * t == r * r && n == s * (k.xx - k.yy) + t * (k.xy + k.yx)
    ensures n <= r * w
  {
    ReflectedIsShorter(k.xx, k.xy, k.yx, k.yy, w);
    CauchySchwarz(s, t, k.xx - k.yy, k.xy + k.yx, r, w, n);
  }

  lemma HalfOfSum(r1: real, r2: real, w: real, m: real, n: real, gain: real)
    requires m <= r1 * w && n <= r2 * w && r1 + r2 == 2.0 && 2.0 * gain == m + n
    ensures gain <= w
  {
    assert r1 * w + r2 * w == (r1 + r2) * w;
  }

  lemma ReflectedIsShorter(xx: real, xy: real, yx: real, yy: real, w: real)
    requires xx * yy - xy * yx > 0.0 && w * w == (xx + yy) * (xx + yy) + (yx - xy) * (yx - xy)
    ensures (xx - yy) * (xx - yy) + (xy + yx) * (xy + yx) <= w * w
  {
    assert (xx + yy) * (xx + yy) - (xx - yy) * (xx - yy) == 4.0 * (xx * yy);
    assert (yx - xy) * (yx - xy) - (xy + yx) * (xy + yx) == -4.0 * (xy * yx);
  }

  lemma SplitGain(a: real, b: real, c: real, d: real, xx: real, xy: real, yx: real, yy: real,
                  m: real, n: real, gain: real)
    requires m == (a + d) * (xx + yy) + (c - b) * (yx - xy) && n == (a - d) * (xx - yy) + (b + c) * (xy + yx)
    requires gain == a * xx + b * xy + c * yx + d * yy
    ensures 2.0 * gain == m + n
  {
    assert (a + d) * (xx + yy) + (a - d) * (xx - yy) == 2.0 * (a * xx + d * yy);
    assert (c - b) * (yx - xy) + (b + c) * (xy + yx) == 2.0 * (b * xy + c * yx);
  }

  // ---- The residual ----

  function Residual(a: Triple, b: Triple, m: Motion): real {
    Norm2(Sub(b.p1, Add(Apply(m.rot, a.p1), m.t)))
    + Norm2(Sub(b.p2, Add(Apply(m.rot, a.p2), m.t)))
    + Norm2(Sub(b.p3, Add(Apply(m.rot, a.p3), m.t)))
  }

  /** How well a rotation turns the centred points of a onto those of b. */
  function Gain(a: Triple, b: Triple, rot: M3): real {
    Dot(b.p1, Apply(rot, a.p1)) + Dot(b.p2, Apply(rot, a.p2)) + Dot(b.p3, Apply(rot, a.p3))
  }

  function Spread(a: Triple): real { Norm2(a.p1) + Norm2(a.p2) + Norm2(a.p3) }

  /** What the translation leaves of the distance between the means. */
  function Offset(a: Triple, b: Triple, m: Motion): V3 {
    Sub(Mean(b), Add(Apply(m.rot, Mean(a)), m.t))
  }

  lemma SplitError(rot: M3, t: V3, p: V3, q: V3, mp: V3, mq: V3)
    ensures Sub(q, Add(Apply(rot, p), t))
         == Add(Sub(Sub(q, mq), Apply(rot, Sub(p, mp))), Sub(mq, Add(Apply(rot, mp), t)))
  {
    ApplyDifference(rot, p, mp);
  }

  lemma SumOfShifted(x1: V3, x2: V3, x3: V3, y: V3)
    requires Add(Add(x1, x2), x3) == ZERO
    ensures Norm2(Add(x1, y)) + Norm2(Add(x2, y)) + Norm2(Add(x3, y))
         == Norm2(x1) + Norm2(x2) + Norm2(x3) + 3.0 * Norm2(y)
  {
    NormOfAdd(x1, y);
    NormOfAdd(x2, y);
    NormOfAdd(x3, y);
    DotAdd(x1, x2, y);
    DotAdd(Add(x1, x2), x3, y);
    assert Dot(ZERO, y) == 0.0;
  }

  lemma NormOfAdd(x: V3, y: V3)
    ensures Norm2(Add(x, y)) == Norm2(x) + 2.0 * Dot(x, y) + Norm2(y)
  {
    DotAdd(x, y, Add(x, y));
    DotAdd(x, y, x);
    DotAdd(x, y, y);
    assert Dot(y, x) == Dot(x, y);
  }

  lemma NormOfError(rot: M3, p: V3, q: V3)
    requires IsRotation(rot)
    ensures Norm2(Sub(q, Apply(rot, p))) == Norm2(q) - 2.0 * Dot(q, Apply(rot, p)) + Norm2(p)
  {
    NormOfSub(q, Apply(rot, p));
    RotationKeepsDot(rot, p, p);
  }

  lemma ApplySum(m: M3, u: V3, v: V3)
    ensures Apply(m, Add(u, v)) == Add(Apply(m, u), Apply(m, v))
  {
    DotAdd(u, v, m.r1);
    DotAdd(u, v, m.r2);
    DotAdd(u, v, m.r3);
  }

  lemma ErrorsAreCentred(rot: M3, a: Triple, b: Triple)
    requires IsCentred(a) && IsCentred(b)
    ensures Add(Add(Sub(b.p1, Apply(rot, a.p1)), Sub(b.p2, Apply(rot, a.p2))), Sub(b.p3, Apply(rot, a.p3))) == ZERO
  {
    ApplySum(rot, a.p1, a.p2);
    ApplySum(rot, Add(a.p1, a.p2), a.p3);
    ApplyZero(rot);
  }

  /** The residual is a constant, less twice the gain of the rotation, plus what the
      translation misses. */
  lemma ResidualSplits(a: Triple, b: Triple, m: Motion)
    requires IsRotation(m.rot)
    ensures Residual(a, b, m)
         == Spread(Centred(a)) + Spread(Centred(b)) - 2.0 * Gain(Centred(a), Centred(b), m.rot)
            + 3.0 * Norm2(Offset(a, b, m))
  {
    var c, d, y := Centred(a), Centred(b), Offset(a, b, m);
    SplitError(m.rot, m.t, a.p1, b.p1, Mean(a), Mean(b));
    SplitError(m.rot, m.t, a.p2, b.p2, Mean(a), Mean(b));
    SplitError(m.rot, m.t, a.p3, b.p3, Mean(a), Mean(b));
    CentredIsCentred(a);
    CentredIsCentred(b);
    ErrorsAreCentred(m.rot, c, d);
    SumOfShifted(Sub(d.p1, Apply(m.rot, c.p1)), Sub(d.p2, Apply(m.rot, c.p2)), Sub(d.p3, Apply(m.rot, c.p3)), y);
    NormOfError(m.rot, c.p1, d.p1);
    NormOfError(m.rot, c.p2, d.p2);
    NormOfError(m.rot, c.p3, d.p3);
  }

  // ---- From space to the plane ----

  lemma MeanOfMoved(m: M3, a: Triple)
    ensures Mean(ApplyAll(m, a)) == Apply(m, Mean(a))
  {
    ApplySum(m, a.p1, a.p2);
    ApplySum(m, Add(a.p1, a.p2), a.p3);
    var s := Add(Add(a.p1, a.p2), a.p3);
    assert Mean(a) == Divide(s, 3.0);
    DivideIsScale(s, 3.0);
    ApplyScale(m, 1.0 / 3.0, s);
    DivideIsScale(Apply(m, s), 3.0);
  }

  lemma CentredOfMoved(m: M3, a: Triple)
    ensures Centred(ApplyAll(m, a)) == ApplyAll(m, Centred(a))
  {
    MeanOfMoved(m, a);
    ApplyDifference(m, a.p1, Mean(a));
    ApplyDifference(m, a.p2, Mean(a));
    ApplyDifference(m, a.p3, Mean(a));
  }

  /** The same rotation, seen in the frames of the two triangles. */
  function InFrames(rb: M3, rot: M3, ra: M3): M3 {
    Mul(Mul(rb, rot), Transpose(ra))
  }

  lemma DotInFrames(ra: M3, rb: M3, rot: M3, u: V3, v: V3)
    requires IsRotation(ra) && IsRotation(rb)
    ensures Dot(v, Apply(rot, u)) == Dot(Apply(rb, v), Apply(InFrames(rb, rot, ra), Apply(ra, u)))
  {
    ApplyMul(Mul(rb, rot), Transpose(ra), Apply(ra, u));
    TransposeUndoes(ra, u);
    ApplyMul(rb, rot, u);
    RotationKeepsDot(rb, v, Apply(rot, u));
  }

  lemma GainInFrames(ra: M3, rb: M3, rot: M3, a: Triple, b: Triple)
    requires IsRotation(ra) && IsRotation(rb)
    ensures Gain(a, b, rot) == Gain(ApplyAll(ra, a), ApplyAll(rb, b), InFrames(rb, rot, ra))
  {
    DotInFrames(ra, rb, rot, a.p1, b.p1);
    DotInFrames(ra, rb, rot, a.p2, b.p2);
    DotInFrames(ra, rb, rot, a.p3, b.p3);
  }

  predicate IsFlat(p: Triple) {
    p.p1.z == 0.0 && p.p2.z == 0.0 && p.p3.z == 0.0
  }

  lemma NormalToEdges(k: real, u: V3, v: V3)
    ensures Dot(Scale(k, Cross(u, v)), u) == 0.0 && Dot(Scale(k, Cross(u, v)), v) == 0.0
  {
    CrossIsOrthogonal(u, v);
    DotScale(k, Cross(u, v), u);
    DotScale(k, Cross(u, v), v);
  }

  /** In its own frame a triangle lies in the x-y plane. */
  lemma InPlaneIsFlat(sqrt: real -> real, a: Triple)
    requires IsSqrt(sqrt) && NonCollinear(a)
    ensures IsFlat(InPlane(sqrt, a))
  {
    var m, u, v := Frame(sqrt, a), Sub(a.p2, a.p1), Sub(a.p3, a.p1);
    var k := FrameIsARotation(sqrt, a);
    NormalToEdges(k, u, v);
    DotSub(a.p2, a.p1, m.r3);
    DotSub(a.p3, a.p1, m.r3);
    SameHeights(ApplyAll(m, a));
  }

  lemma SameHeights(p: Triple)
    requires p.p1.z == p.p2.z == p.p3.z
    ensures IsFlat(Centred(p))
  {
  }

  /** One point's share of the plane gain. */
  function Share(m: M3, p: V3, q: V3): real {
    m.r1.x * (q.x * p.x) + m.r1.y * (q.x * p.y) + m.r2.x * (q.y * p.x) + m.r2.y * (q.y * p.y)
  }

  lemma FlatDot(m: M3, p: V3, q: V3)
    requires p.z == 0.0 && q.z == 0.0
    ensures Dot(q, Apply(m, p)) == Share(m, p, q)
  {
    FlatTerms(m.r1.x, m.r1.y, m.r2.x, m.r2.y, p.x, p.y, q.x, q.y, Dot(m.r1, p), Dot(m.r2, p));
  }

  lemma FlatTerms(a: real, b: real, c: real, d: real, px: real, py: real, qx: real, qy: real, s: real, t: real)
    requires s == a * px + b * py && t == c * px + d * py
    ensures qx * s + qy * t == a * (qx * px) + b * (qx * py) + c * (qy * px) + d * (qy * py)
  {
  }

  lemma FlatGain(m: M3, p: Triple, q: Triple)
    requires IsFlat(p) && IsFlat(q)
    ensures Gain(p, q, m) == PlaneGain(m, Correlate(p, q))
  {
    FlatDot(m, p.p1, q.p1);
    FlatDot(m, p.p2, q.p2);
    FlatDot(m, p.p3, q.p3);
    SharesAddUp(m, p, q);
  }

  lemma SharesAddUp(m: M3, p: Triple, q: Triple)
    ensures PlaneGain(m, Correlate(p, q)) == Share(m, p.p1, q.p1) + Share(m, p.p2, q.p2) + Share(m, p.p3, q.p3)
  {
    var k := Correlate(p, q);
    SumTerms(m.r1.x, q.p1.x * p.p1.x, q.p2.x * p.p2.x, q.p3.x * p.p3.x, k.xx);
    SumTerms(m.r1.y, q.p1.x * p.p1.y, q.p2.x * p.p2.y, q.p3.x * p.p3.y, k.xy);
    SumTerms(m.r2.x, q.p1.y * p.p1.x, q.p2.y * p.p2.x, q.p3.y * p.p3.x, k.yx);
    SumTerms(m.r2.y, q.p1.y * p.p1.y, q.p2.y * p.p2.y, q.p3.y * p.p3.y, k.yy);
  }

  lemma SumTerms(m: real, x: real, y: real, z: real, s: real)
    requires s == x + y + z
    ensures m * s == m * x + m * y + m * z
  {
  }

  /** The gain of any rotation, from the in-plane covariance of the two triangles. */
  lemma GainFromCovariance(sqrt: real -> real, a: Triple, b: Triple, rot: M3)
    requires IsSqrt(sqrt) && NonCollinear(a) && NonCollinear(b)
    ensures Gain(Centred(a), Centred(b), rot)
         == PlaneGain(InFrames(Frame(sqrt, b), rot, Frame(sqrt, a)), Correlate(InPlane(sqrt, a), InPlane(sqrt, b)))
  {
    var ra, rb := Frame(sqrt, a), Frame(sqrt, b);
    var k := FrameIsARotation(sqrt, a);
    var l := FrameIsARotation(sqrt, b);
    CentredOfMoved(ra, a);
    CentredOfMoved(rb, b);
    GainInFrames(ra, rb, rot, Centred(a), Centred(b));
    InPlaneIsFlat(sqrt, a);
    InPlaneIsFlat(sqrt, b);
    FlatGain(InFrames(rb, rot, ra), InPlane(sqrt, a), InPlane(sqrt, b));
  }

  // ---- The closed form is optimal ----

  predicate OnCircle(c: real, s: real) { c * c + s * s == 1.0 }

  lemma PlaneRotationIsRotation(c: real, s: real)
    requires OnCircle(c, s)
    ensures IsRotation(PlaneRotation(c, s))
  {
    var m := PlaneRotation(c, s);
    assert Norm2(m.r1) == 1.0 && Norm2(m.r2) == 1.0 && Dot(m.r1, m.r2) == 0.0;
    assert Cross(m.r1, m.r2).z == 1.0;
    assert Cross(m.r1, m.r2) == m.r3;
    FrameIsRotation(m);
  }

  lemma UnitCircle(g: real, h: real, w: real, c: real, s: real)
    requires IsRootOf(w, g * g + h * h) && c == g / w && s == h / w
    ensures OnCircle(c, s)
    ensures c * g + s * h == w
  {
    assert c * w == g && s * w == h;
    assert g * g == (c * c) * (w * w) && h * h == (s * s) * (w * w);
    Cancel(c * c + s * s, 1.0, w * w, w);
    assert c * g == (c * c) * w && s * h == (s * s) * w;
    assert (c * c) * w + (s * s) * w == (c * c + s * s) * w;
  }

  lemma Cancel(x: real, y: real, ww: real, w: real)
    requires w > 0.0 && ww == w * w && x * ww == y * ww
    ensures x == y
  {
    Positive(w, w, ww);
    assert (x - y) * ww == 0.0;
  }

  lemma TurnIsARotation(sqrt: real -> real, a: Triple, b: Triple)
    requires IsSqrt(sqrt) && NonCollinear(a) && NonCollinear(b)
    ensures IsRotation(Turn(sqrt, a, b))
    ensures PlaneGain(Turn(sqrt, a, b), Correlate(InPlane(sqrt, a), InPlane(sqrt, b))) == Root(sqrt, a, b)
  {
    var g, h := G(InPlane(sqrt, a), InPlane(sqrt, b)), H(InPlane(sqrt, a), InPlane(sqrt, b));
    SumsFromCovariance(InPlane(sqrt, a), InPlane(sqrt, b));
    var w := Root(sqrt, a, b);
    TurnOf(g, h, w, g / w, h / w, Correlate(InPlane(sqrt, a), InPlane(sqrt, b)));
  }

  lemma TurnOf(g: real, h: real, w: real, c: real, s: real, k: Covariance)
    requires IsRootOf(w, g * g + h * h) && c == g / w && s == h / w && g == k.xx + k.yy && h == k.yx - k.xy
    ensures IsRotation(PlaneRotation(c, s)) && PlaneGain(PlaneRotation(c, s), k) == w
  {
    UnitCircle(g, h, w, c, s);
    PlaneRotationIsRotation(c, s);
    TurnGain(c, s, k, g, h);
  }

  lemma TurnGain(c: real, s: real, k: Covariance, g: real, h: real)
    requires g == k.xx + k.yy && h == k.yx - k.xy
    ensures PlaneGain(PlaneRotation(c, s), k) == c * g + s * h
  {
    assert c * g == c * k.xx + c * k.yy;
    assert s * h == s * k.yx - s * k.xy;
  }

  lemma RegisterIsARotation(sqrt: real -> real, a: Triple, b: Triple)
    requires IsSqrt(sqrt) && NonCollinear(a) && NonCollinear(b)
    ensures IsRotation(Register(sqrt, a, b).rot)
  {
    var ra, rb, rxy := Frame(sqrt, a), Frame(sqrt, b), Turn(sqrt, a, b);
    var k := FrameIsARotation(sqrt, a);
    var l := FrameIsARotation(sqrt, b);
    TransposeIsRotation(rb);
    TurnIsARotation(sqrt, a, b);
    MulIsRotation(Transpose(rb), rxy);
    MulIsRotation(Mul(Transpose(rb), rxy), ra);
  }

  /** Between the two frames the result is the plane rotation. */
  lemma DotOfResult(rb: M3, rxy: M3, ra: M3, u: V3, v: V3)
    requires IsRotation(rb)
    ensures Dot(v, Apply(Mul(Mul(Transpose(rb), rxy), ra), u)) == Dot(Apply(rb, v), Apply(rxy, Apply(ra, u)))
  {
    ApplyMul(Mul(Transpose(rb), rxy), ra, u);
    ApplyMul(Transpose(rb), rxy, Apply(ra, u));
    DotTranspose(Transpose(rb), v, Apply(rxy, Apply(ra, u)));
    assert Transpose(Transpose(rb)) == rb;
  }

  lemma GainOfResult(ra: M3, rb: M3, rxy: M3, c: Triple, d: Triple)
    requires IsRotation(rb)
    ensures Gain(c, d, Mul(Mul(Transpose(rb), rxy), ra)) == Gain(ApplyAll(ra, c), ApplyAll(rb, d), rxy)
  {
    DotOfResult(rb, rxy, ra, c.p1, d.p1);
    DotOfResult(rb, rxy, ra, c.p2, d.p2);
    DotOfResult(rb, rxy, ra, c.p3, d.p3);
  }

  /** The gain of the result is the square root in the closed form. */
  lemma GainOfRegister(sqrt: real -> real, a: Triple, b: Triple)
    requires IsSqrt(sqrt) && NonCollinear(a) && NonCollinear(b)
    ensures Gain(Centred(a), Centred(b), Register(sqrt, a, b).rot) == Root(sqrt, a, b)
  {
    var ra, rb, rxy := Frame(sqrt, a), Frame(sqrt, b), Turn(sqrt, a, b);
    var k := FrameIsARotation(sqrt, b);
    GainOfResult(ra, rb, rxy, Centred(a), Centred(b));
    CentredOfMoved(ra, a);
    CentredOfMoved(rb, b);
    InPlaneIsFlat(sqrt, a);
    InPlaneIsFlat(sqrt, b);
    FlatGain(rxy, InPlane(sqrt, a), InPlane(sqrt, b));
    TurnIsARotation(sqrt, a, b);
  }

  /** No rotation has a larger gain. */
  lemma GainIsLargest(sqrt: real -> real, a: Triple, b: Triple, rot: M3)
    requires IsSqrt(sqrt) && NonCollinear(a) && NonCollinear(b) && IsRotation(rot)
    ensures Gain(Centred(a), Centred(b), rot) <= Root(sqrt, a, b)
  {
    var ra, rb := Frame(sqrt, a), Frame(sqrt, b);
    var i := FrameIsARotation(sqrt, a);
    var j := FrameIsARotation(sqrt, b);
    TransposeIsRotation(ra);
    MulIsRotation(rb, rot);
    MulIsRotation(Mul(rb, rot), Transpose(ra));
    GainFromCovariance(sqrt, a, b, rot);
    CovarianceIsPositive(sqrt, a, b);
    StrengthIsLength(InPlane(sqrt, a), InPlane(sqrt, b));
    GainIsBounded(InFrames(rb, rot, ra), Correlate(InPlane(sqrt, a), InPlane(sqrt, b)), Root(sqrt, a, b));
  }

  /** The translation of the result takes the mean of the a's to the mean of the b's. */
  lemma RegisterMatchesMeans(sqrt: real -> real, a: Triple, b: Triple)
    requires IsSqrt(sqrt) && NonCollinear(a) && NonCollinear(b)
    ensures Offset(a, b, Register(sqrt, a, b)) == ZERO
  {
    var ra, rb, rxy := Frame(sqrt, a), Frame(sqrt, b), Turn(sqrt, a, b);
    var k := FrameIsARotation(sqrt, b);
    MeanOfMoved(ra, a);
    MeanOfMoved(rb, b);
    TransposeUndoes(rb, Mean(b));
    ApplyMul(Mul(Transpose(rb), rxy), ra, Mean(a));
    ApplyMul(Transpose(rb), rxy, Apply(ra, Mean(a)));
    Cancels(Apply(Transpose(rb), Apply(rxy, Apply(ra, Mean(a)))), Mean(b));
  }

  lemma Cancels(u: V3, v: V3)
    ensures Sub(v, Add(u, Add(Negate(u), v))) == ZERO
  {
  }

  /** Least squares: no rotation of space and no translation fits the points better than
      the result of register_three_points, whatever the noise. */
  lemma RegisterIsLeastSquares(sqrt: real -> real, a: Triple, b: Triple, other: Motion)
    requires IsSqrt(sqrt) && NonCollinear(a) && NonCollinear(b) && IsRotation(other.rot)
    ensures Residual(a, b, Register(sqrt, a, b)) <= Residual(a, b, other)
  {
    var m := Register(sqrt, a, b);
    RegisterIsARotation(sqrt, a, b);
    ResidualSplits(a, b, m);
    ResidualSplits(a, b, other);
    RegisterMatchesMeans(sqrt, a, b);
    GainOfRegister(sqrt, a, b);
    GainIsLargest(sqrt, a, b, other.rot);
    NormIsPositive(Offset(a, b, other));
    NormOfZero();
  }

  // ---- Exact recovery ----

  function Moved(m: Motion, a: Triple): Triple {
    Triple(Add(Apply(m.rot, a.p1), m.t), Add(Apply(m.rot, a.p2), m.t), Add(Apply(m.rot, a.p3), m.t))
  }

  lemma MovedEdges(m: Motion, p: V3, q: V3)
    ensures Sub(Add(Apply(m.rot, q), m.t), Add(Apply(m.rot, p), m.t)) == Apply(m.rot, Sub(q, p))
  {
    ApplyDifference(m.rot, q, p);
  }

  lemma RotationKeepsNonZero(r: M3, v: V3)
    requires IsRotation(r) && v != ZERO
    ensures Apply(r, v) != ZERO
  {
    TransposeUndoes(r, v);
    ApplyZero(Transpose(r));
  }

  lemma MovedIsNonCollinear(m: Motion, a: Triple)
    requires IsRotation(m.rot) && NonCollinear(a)
    ensures NonCollinear(Moved(m, a))
  {
    var u, v := Sub(a.p2, a.p1), Sub(a.p3, a.p1);
    MovedEdges(m, a.p1, a.p2);
    MovedEdges(m, a.p1, a.p3);
    RotationKeepsCross(m.rot, u, v);
    RotationKeepsNonZero(m.rot, Cross(u, v));
  }

  lemma SelfDifference(v: V3)
    ensures Norm2(Sub(v, v)) == 0.0
  {
    assert Sub(v, v) == ZERO;
    NormOfZero();
  }

  lemma NoResidual(m: Motion, a: Triple)
    ensures Residual(a, Moved(m, a), m) == 0.0
  {
    var b := Moved(m, a);
    SelfDifference(b.p1);
    SelfDifference(b.p2);
    SelfDifference(b.p3);
  }

  /** A residual of zero means that every point is hit. */
  lemma ZeroResidual(a: Triple, b: Triple, m: Motion)
    requires Residual(a, b, m) <= 0.0
    ensures b == Moved(m, a)
  {
    var x, y, z := Sub(b.p1, Moved(m, a).p1), Sub(b.p2, Moved(m, a).p2), Sub(b.p3, Moved(m, a).p3);
    NormIsPositive(x);
    NormIsPositive(y);
    NormIsPositive(z);
    assert x == ZERO && y == ZERO && z == ZERO;
  }

  lemma RowsAgree(r: V3, s: V3, u: V3, v: V3)
    requires Cross(u, v) != ZERO
    requires Dot(r, u) == Dot(s, u) && Dot(r, v) == Dot(s, v) && Dot(r, Cross(u, v)) == Dot(s, Cross(u, v))
    ensures r == s
  {
    DotSub(r, s, u);
    DotSub(r, s, v);
    DotSub(r, s, Cross(u, v));
    OrthogonalToFrame(Sub(r, s), u, v);
  }

  /** Three non-collinear points and their images determine a rigid motion. */
  lemma MotionIsDetermined(m: Motion, n: Motion, a: Triple)
    requires IsRotation(m.rot) && IsRotation(n.rot) && NonCollinear(a) && Moved(m, a) == Moved(n, a)
    ensures m == n
  {
    var u, v := Sub(a.p2, a.p1), Sub(a.p3, a.p1);
    MovedEdges(m, a.p1, a.p2);
    MovedEdges(m, a.p1, a.p3);
    MovedEdges(n, a.p1, a.p2);
    MovedEdges(n, a.p1, a.p3);
    RotationKeepsCross(m.rot, u, v);
    RotationKeepsCross(n.rot, u, v);
    RowsAgree(m.rot.r1, n.rot.r1, u, v);
    RowsAgree(m.rot.r2, n.rot.r2, u, v);
    RowsAgree(m.rot.r3, n.rot.r3, u, v);
    SameSum(Apply(m.rot, a.p1), m.t, n.t);
  }

  lemma SameSum(u: V3, s: V3, t: V3)
    requires Add(u, s) == Add(u, t)
    ensures s == t
  {
  }

  /** Without noise the motion that was applied is recovered exactly. */
  lemma RegisterRecoversMotion(sqrt: real -> real, a: Triple, m: Motion)
    requires IsSqrt(sqrt) && NonCollinear(a) && IsRotation(m.rot)
    ensures NonCollinear(Moved(m, a)) && Register(sqrt, a, Moved(m, a)) == m
  {
    var b := Moved(m, a);
    MovedIsNonCollinear(m, a);
    RegisterIsARotation(sqrt, a, b);
    RegisterIsLeastSquares(sqrt, a, b, m);
    NoResidual(m, a);
    ZeroResidual(a, b, Register(sqrt, a, b));
    MotionIsDetermined(Register(sqrt, a, b), m, a);
  }
}
