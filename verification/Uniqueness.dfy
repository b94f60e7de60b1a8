/** Why the closed form of register_three_points is the only least-squares rigid motion. */
module Uniqueness {
  import opened Vectors
  import opened Lines
  import opened CameraModel
  import opened Registration
  import opened Optimality

  // ---- A plane gain of w leaves only one rotation ----

  lemma StrictlyShorter(xx: real, xy: real, yx: real, yy: real, w: real)
    requires xx * yy - xy * yx > 0.0 && w * w == (xx + yy) * (xx + yy) + (yx - xy) * (yx - xy)
    ensures (xx - yy) * (xx - yy) + (xy + yx) * (xy + yx) < w * w
  {
    assert (xx + yy) * (xx + yy) - (xx - yy) * (xx - yy) == 4.0 * (xx * yy);
    assert (yx - xy) * (yx - xy) - (xy + yx) * (xy + yx) == -4.0 * (xy * yx);
  }

  lemma StrictProduct(rr: real, x: real, y: real, p: real, q: real)
    requires rr > 0.0 && x < y && p == rr * x && q == rr * y
    ensures p < q
  {
    Positive(rr, y - x, rr * (y - x));
  }

  lemma StrictlySmaller(n: real, p: real)
    requires p >= 0.0 && n * n < p * p
    ensures n < p
  {
    if n == p {
      assert false;
    } else if n > p {
      SquareGrows(p, n);
    }
  }

  /** Cauchy and Schwarz, for a vector of length r > 0 and one shorter than w. */
  lemma StrictCauchySchwarz(a: real, b: real, c: real, d: real, r: real, w: real, n: real)
    requires n == a * c + b * d && r > 0.0 && w > 0.0 && a * a + b * b == r * r && c * c + d * d < w * w
    ensures n < r * w
  {
    var o := a * d - b * c;
    ProductOfSums(a, b, c, d, n, o);
    Square(o, o * o);
    Positive(r, r, r * r);
    StrictProduct(r * r, c * c + d * d, w * w, (r * r) * (c * c + d * d), (r * r) * (w * w));
    Positive(r, w, r * w);
    assert (r * w) * (r * w) == (r * r) * (w * w);
    StrictlySmaller(n, r * w);
  }

  lemma StrictReflectedGain(s: real, t: real, r: real, k: Covariance, w: real, n: real)
    requires r > 0.0 && Det2(k) > 0.0 && IsRootOf(w, Length2(k))
    requires s * s + t * t == r * r && n == s * (k.xx - k.yy) + t * (k.xy + k.yx)
    ensures n < r * w
  {
    StrictlyShorter(k.xx, k.xy, k.yx, k.yy, w);
    StrictCauchySchwarz(s, t, k.xx - k.yy, k.xy + k.yx, r, w, n);
  }

  lemma LessThanHalfOfSum(r1: real, r2: real, w: real, m: real, n: real, gain: real)
    requires m <= r1 * w && n < r2 * w && r1 + r2 == 2.0 && 2.0 * gain == m + n
    ensures gain < w
  {
    assert r1 * w + r2 * w == (r1 + r2) * w;
  }

  lemma SumOfSquaresIsZero(s: real, t: real)
    requires s * s + t * t == 0.0
    ensures s == 0.0 && t == 0.0
  {
    Square(s, s * s);
    Square(t, t * t);
  }

  /** A reflected part costs gain. */
  lemma ReflectionCosts(a: real, b: real, c: real, d: real, r1: real, r2: real, k: Covariance, w: real)
    requires r1 >= 0.0 && r2 > 0.0 && r1 + r2 == 2.0 && Det2(k) > 0.0 && IsRootOf(w, Length2(k))
    requires (a + d) * (a + d) + (c - b) * (c - b) == r1 * r1
    requires (a - d) * (a - d) + (b + c) * (b + c) == r2 * r2
    ensures a * k.xx + b * k.xy + c * k.yx + d * k.yy < w
  {
    var m := (a + d) * (k.xx + k.yy) + (c - b) * (k.yx - k.xy);
    var n := (a - d) * (k.xx - k.yy) + (b + c) * (k.xy + k.yx);
    var gain := a * k.xx + b * k.xy + c * k.yx + d * k.yy;
    SplitGain(a, b, c, d, k.xx, k.xy, k.yx, k.yy, m, n, gain);
    CauchySchwarz(a + d, c - b, k.xx + k.yy, k.yx - k.xy, r1, w, m);
    StrictReflectedGain(a - d, b + c, r2, k, w, n);
    LessThanHalfOfSum(r1, r2, w, m, n, gain);
  }

  /** A unit vector that reaches the length of (g, h) along it points in its direction. */
  lemma DirectionIsDetermined(a: real, c: real, g: real, h: real, w: real)
    requires IsRootOf(w, g * g + h * h) && a * a + c * c == 1.0 && a * g + c * h == w
    ensures a == g / w && c == h / w
  {
    var x, y := a * w - g, c * w - h;
    DistanceToDirection(a, c, g, h, w, w * w, x, y);
    SumOfSquaresIsZero(x, y);
  }

  lemma DistanceToDirection(a: real, c: real, g: real, h: real, w: real, ww: real, x: real, y: real)
    requires ww == w * w && ww == g * g + h * h && a * a + c * c == 1.0 && a * g + c * h == w
    requires x == a * w - g && y == c * w - h
    ensures x * x + y * y == 0.0
  {
    assert x * x == (a * a) * ww - 2.0 * ((a * g) * w) + g * g;
    assert y * y == (c * c) * ww - 2.0 * ((c * h) * w) + h * h;
    assert (a * a) * ww + (c * c) * ww == (a * a + c * c) * ww;
    assert (a * g) * w + (c * h) * w == (a * g + c * h) * w;
  }

  lemma OnlyTheLast(x: real, y: real, z: real)
    requires x * x + y * y + z * z == 1.0 && z == 1.0
    ensures x == 0.0 && y == 0.0
  {
    assert x * x + y * y == 0.0;
    SumOfSquaresIsZero(x, y);
  }

  lemma AllButTheLast(x: real, y: real, z: real)
    requires x * x + y * y + z * z == 1.0 && z == 0.0
    ensures x * x + y * y == 1.0
  {
  }

  lemma ThirdRow(m: M3)
    requires IsRotation(m)
    ensures m.r3.x * m.r3.x + m.r3.y * m.r3.y + m.r3.z * m.r3.z == 1.0
  {
    RotationRows(m);
  }

  lemma UprightRow(m: M3)
    requires IsRotation(m) && m.r3.z == 1.0
    ensures m.r3.x == 0.0 && m.r3.y == 0.0
  {
    ThirdRow(m);
    OnlyTheLast(m.r3.x, m.r3.y, m.r3.z);
  }

  lemma UprightColumn(m: M3)
    requires IsRotation(m) && m.r3.z == 1.0
    ensures m.r1.z == 0.0 && m.r2.z == 0.0
  {
    TransposeIsRotation(m);
    UprightRow(Transpose(m));
  }

  lemma FirstRow(m: M3)
    requires IsRotation(m)
    ensures m.r1.x * m.r1.x + m.r1.y * m.r1.y + m.r1.z * m.r1.z == 1.0
  {
    RotationRows(m);
  }

  lemma PlaneRow(m: M3)
    requires IsRotation(m) && m.r1.z == 0.0
    ensures m.r1.x * m.r1.x + m.r1.y * m.r1.y == 1.0
  {
    FirstRow(m);
    AllButTheLast(m.r1.x, m.r1.y, m.r1.z);
  }

  /** A rotation with the largest gain turns about the third axis only. */
  lemma LargestGainIsUpright(m: M3, k: Covariance, w: real)
    requires IsRotation(m) && Det2(k) > 0.0 && IsRootOf(w, Length2(k)) && PlaneGain(m, k) >= w
    ensures m.r3.z == 1.0
  {
    BlockLengths(m);
    if m.r3.z < 1.0 {
      ReflectionCosts(m.r1.x, m.r1.y, m.r2.x, m.r2.y, 1.0 + m.r3.z, 1.0 - m.r3.z, k, w);
    }
  }

  lemma NoDifference(a: real, b: real, c: real, d: real, r: real)
    requires (a - d) * (a - d) + (b + c) * (b + c) == r * r && r == 0.0
    ensures d == a && b == -c
  {
    SumOfSquaresIsZero(a - d, b + c);
  }

  lemma UprightBlock(m: M3)
    requires IsRotation(m) && m.r3.z == 1.0
    ensures m.r2.y == m.r1.x && m.r1.y == -m.r2.x
  {
    BlockLengths(m);
    NoDifference(m.r1.x, m.r1.y, m.r2.x, m.r2.y, 1.0 - m.r3.z);
  }

  /** A rotation about the third axis, by the first column of its block. */
  lemma UprightIsPlane(m: M3)
    requires IsRotation(m) && m.r3.z == 1.0
    ensures m == PlaneRotation(m.r1.x, m.r2.x)
  {
    UprightRow(m);
    UprightColumn(m);
    UprightBlock(m);
  }

  lemma SquareOfNegative(x: real, y: real, z: real)
    requires x * x + y * y == 1.0 && y == -z
    ensures OnCircle(x, z)
  {
  }

  lemma UprightOnCircle(m: M3)
    requires IsRotation(m) && m.r3.z == 1.0
    ensures OnCircle(m.r1.x, m.r2.x)
  {
    UprightColumn(m);
    PlaneRow(m);
    UprightBlock(m);
    SquareOfNegative(m.r1.x, m.r1.y, m.r2.x);
  }

  /** Only one plane rotation reaches the largest gain. */
  lemma AngleIsDetermined(c: real, s: real, k: Covariance, g: real, h: real, w: real)
    requires OnCircle(c, s) && IsRootOf(w, g * g + h * h) && g == k.xx + k.yy && h == k.yx - k.xy
    requires PlaneGain(PlaneRotation(c, s), k) >= w
    ensures c == g / w && s == h / w
  {
    TurnGain(c, s, k, g, h);
    CauchySchwarz(c, s, g, h, 1.0, w, c * g + s * h);
    DirectionIsDetermined(c, s, g, h, w);
  }

  /** Only one rotation of space has the largest gain. */
  lemma LargestGainIsUnique(m: M3, k: Covariance, g: real, h: real, w: real)
    requires IsRotation(m) && Det2(k) > 0.0 && IsRootOf(w, g * g + h * h) && PlaneGain(m, k) >= w
    requires g == k.xx + k.yy && h == k.yx - k.xy
    ensures m == PlaneRotation(g / w, h / w)
  {
    LargestGainIsUpright(m, k, w);
    UprightIsPlane(m);
    UprightOnCircle(m);
    AngleIsDetermined(m.r1.x, m.r2.x, k, g, h, w);
  }

  // ---- From the plane back to space ----

  lemma ColumnOf(m: M3)
    ensures Apply(m, IDENTITY.r1) == V3(m.r1.x, m.r2.x, m.r3.x)
    ensures Apply(m, IDENTITY.r2) == V3(m.r1.y, m.r2.y, m.r3.y)
    ensures Apply(m, IDENTITY.r3) == V3(m.r1.z, m.r2.z, m.r3.z)
  {
  }

  lemma SameImagesSameMatrix(m: M3, n: M3)
    requires Apply(m, IDENTITY.r1) == Apply(n, IDENTITY.r1)
    requires Apply(m, IDENTITY.r2) == Apply(n, IDENTITY.r2)
    requires Apply(m, IDENTITY.r3) == Apply(n, IDENTITY.r3)
    ensures m == n
  {
    ColumnOf(m);
    ColumnOf(n);
  }

  /** What a rotation does in space, from what it does between the frames. */
  lemma ImageFromFrames(ra: M3, rb: M3, rot: M3, turn: M3, v: V3)
    requires IsRotation(ra) && IsRotation(rb) && InFrames(rb, rot, ra) == turn
    ensures Apply(rot, v) == Apply(Mul(Mul(Transpose(rb), turn), ra), v)
  {
    ApplyMul(Mul(Transpose(rb), turn), ra, v);
    ApplyMul(Transpose(rb), turn, Apply(ra, v));
    ApplyMul(Mul(rb, rot), Transpose(ra), Apply(ra, v));
    TransposeUndoes(ra, v);
    ApplyMul(rb, rot, v);
    TransposeUndoes(rb, Apply(rot, v));
  }

  lemma RotationFromFrames(ra: M3, rb: M3, rot: M3, turn: M3)
    requires IsRotation(ra) && IsRotation(rb) && InFrames(rb, rot, ra) == turn
    ensures rot == Mul(Mul(Transpose(rb), turn), ra)
  {
    ImageFromFrames(ra, rb, rot, turn, IDENTITY.r1);
    ImageFromFrames(ra, rb, rot, turn, IDENTITY.r2);
    ImageFromFrames(ra, rb, rot, turn, IDENTITY.r3);
    SameImagesSameMatrix(rot, Mul(Mul(Transpose(rb), turn), ra));
  }

  lemma InFramesIsRotation(ra: M3, rb: M3, rot: M3)
    requires IsRotation(ra) && IsRotation(rb) && IsRotation(rot)
    ensures IsRotation(InFrames(rb, rot, ra))
  {
    TransposeIsRotation(ra);
    MulIsRotation(rb, rot);
    MulIsRotation(Mul(rb, rot), Transpose(ra));
  }

  /** Between the frames a rotation with the gain of the result is the plane rotation. */
  lemma TurnIsDetermined(sqrt: real -> real, a: Triple, b: Triple, m: M3)
    requires IsSqrt(sqrt) && NonCollinear(a) && NonCollinear(b) && IsRotation(m)
    requires PlaneGain(m, Correlate(InPlane(sqrt, a), InPlane(sqrt, b))) >= Root(sqrt, a, b)
    ensures m == Turn(sqrt, a, b)
  {
    var p, q := InPlane(sqrt, a), InPlane(sqrt, b);
    CovarianceIsPositive(sqrt, a, b);
    StrengthIsLength(p, q);
    SumsFromCovariance(p, q);
    LargestGainIsUnique(m, Correlate(p, q), G(p, q), H(p, q), Root(sqrt, a, b));
  }

  /** A rotation with the gain of the result is the result's. */
  lemma RotationIsDetermined(sqrt: real -> real, a: Triple, b: Triple, rot: M3)
    requires IsSqrt(sqrt) && NonCollinear(a) && NonCollinear(b) && IsRotation(rot)
    requires Gain(Centred(a), Centred(b), rot) >= Root(sqrt, a, b)
    ensures rot == Register(sqrt, a, b).rot
  {
    var ra, rb := Frame(sqrt, a), Frame(sqrt, b);
    var i := FrameIsARotation(sqrt, a);
    var j := FrameIsARotation(sqrt, b);
    InFramesIsRotation(ra, rb, rot);
    GainFromCovariance(sqrt, a, b, rot);
    TurnIsDetermined(sqrt, a, b, InFrames(rb, rot, ra));
    RotationFromFrames(ra, rb, rot, Turn(sqrt, a, b));
  }

  lemma TranslationIsDetermined(a: Triple, b: Triple, m: Motion, n: Motion)
    requires m.rot == n.rot && Offset(a, b, m) == ZERO && Offset(a, b, n) == ZERO
    ensures m.t == n.t
  {
    var x, y := Apply(m.rot, Mean(a)), Mean(b);
    SameOffset(x, y, m.t);
    SameOffset(x, y, n.t);
  }

  lemma SameOffset(x: V3, y: V3, t: V3)
    requires Sub(y, Add(x, t)) == ZERO
    ensures t == Sub(y, x)
  {
  }

  /** Missing the mean costs. */
  lemma WrongMeanIsWorse(sqrt: real -> real, a: Triple, b: Triple, other: Motion)
    requires IsSqrt(sqrt) && NonCollinear(a) && NonCollinear(b) && IsRotation(other.rot)
    requires Offset(a, b, other) != ZERO
    ensures Residual(a, b, Register(sqrt, a, b)) < Residual(a, b, other)
  {
    ResidualOfResult(sqrt, a, b);
    ResidualSplits(a, b, other);
    GainIsLargest(sqrt, a, b, other.rot);
    NormIsPositive(Offset(a, b, other));
  }

  /** So does a smaller gain. */
  lemma SmallerGainIsWorse(sqrt: real -> real, a: Triple, b: Triple, other: Motion)
    requires IsSqrt(sqrt) && NonCollinear(a) && NonCollinear(b) && IsRotation(other.rot)
    requires Gain(Centred(a), Centred(b), other.rot) < Root(sqrt, a, b)
    ensures Residual(a, b, Register(sqrt, a, b)) < Residual(a, b, other)
  {
    ResidualOfResult(sqrt, a, b);
    ResidualSplits(a, b, other);
    NormIsPositive(Offset(a, b, other));
  }

  lemma ResultHasNoOffset(sqrt: real -> real, a: Triple, b: Triple)
    requires IsSqrt(sqrt) && NonCollinear(a) && NonCollinear(b)
    ensures Norm2(Offset(a, b, Register(sqrt, a, b))) == 0.0
  {
    RegisterMatchesMeans(sqrt, a, b);
    NormOfZero();
  }

  lemma ResidualOfResult(sqrt: real -> real, a: Triple, b: Triple)
    requires IsSqrt(sqrt) && NonCollinear(a) && NonCollinear(b)
    ensures Residual(a, b, Register(sqrt, a, b))
         == Spread(Centred(a)) + Spread(Centred(b)) - 2.0 * Root(sqrt, a, b)
  {
    RegisterIsARotation(sqrt, a, b);
    ResidualSplits(a, b, Register(sqrt, a, b));
    ResultHasNoOffset(sqrt, a, b);
    GainOfRegister(sqrt, a, b);
  }

  /** The least-squares motion is unique: whatever rigid motion of space fits the points as well as the
      result of register_three_points, whatever the noise, is that result. */
  lemma LeastSquaresIsUnique(sqrt: real -> real, a: Triple, b: Triple, other: Motion)
    requires IsSqrt(sqrt) && NonCollinear(a) && NonCollinear(b) && IsRotation(other.rot)
    ensures Residual(a, b, other) <= Residual(a, b, Register(sqrt, a, b)) <==> other == Register(sqrt, a, b)
  {
    if Offset(a, b, other) != ZERO {
      WrongMeanIsWorse(sqrt, a, b, other);
      RegisterMatchesMeans(sqrt, a, b);
    } else if Gain(Centred(a), Centred(b), other.rot) < Root(sqrt, a, b) {
      SmallerGainIsWorse(sqrt, a, b, other);
      GainOfRegister(sqrt, a, b);
    } else {
      RegisterMatchesMeans(sqrt, a, b);
      RotationIsDetermined(sqrt, a, b, other.rot);
      TranslationIsDetermined(a, b, other, Register(sqrt, a, b));
    }
  }
}
