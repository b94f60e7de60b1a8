/** Vectors and matrices of R^3, over exact reals. */
module Vectors {

  datatype V3 = V3(x: real, y: real, z: real)

  const ZERO := V3(0.0, 0.0, 0.0)

  function Add(u: V3, v: V3): V3 { V3(u.x + v.x, u.y + v.y, u.z + v.z) }
  function Sub(u: V3, v: V3): V3 { V3(u.x - v.x, u.y - v.y, u.z - v.z) }
  function Scale(k: real, v: V3): V3 { V3(k * v.x, k * v.y, k * v.z) }
  function Dot(u: V3, v: V3): real { u.x * v.x + u.y * v.y + u.z * v.z }
  function Cross(u: V3, v: V3): V3 {
    V3(u.y * v.z - u.z * v.y, u.z * v.x - u.x * v.z, u.x * v.y - u.y * v.x)
  }

  function Norm2(v: V3): real { Dot(v, v) }

  /** A matrix by its rows. */
  datatype M3 = M3(r1: V3, r2: V3, r3: V3)

  function Apply(m: M3, v: V3): V3 { V3(Dot(m.r1, v), Dot(m.r2, v), Dot(m.r3, v)) }

  function Transpose(m: M3): M3 {
    M3(V3(m.r1.x, m.r2.x, m.r3.x), V3(m.r1.y, m.r2.y, m.r3.y), V3(m.r1.z, m.r2.z, m.r3.z))
  }

  /** m * n */
  function Mul(m: M3, n: M3): M3 {
    var t := Transpose(n);
    M3(Apply(t, m.r1), Apply(t, m.r2), Apply(t, m.r3))
  }

  const IDENTITY := M3(V3(1.0, 0.0, 0.0), V3(0.0, 1.0, 0.0), V3(0.0, 0.0, 1.0))

  function Det(m: M3): real { Dot(Cross(m.r1, m.r2), m.r3) }

  predicate IsRotation(m: M3) {
    Mul(m, Transpose(m)) == IDENTITY && Det(m) == 1.0
  }

  // ---- Bilinearity ----

  lemma DotAdd(u: V3, v: V3, w: V3)
    ensures Dot(Add(u, v), w) == Dot(u, w) + Dot(v, w)
    ensures Dot(w, Add(u, v)) == Dot(w, u) + Dot(w, v)
  {
  }

  lemma DotSub(u: V3, v: V3, w: V3)
    ensures Dot(Sub(u, v), w) == Dot(u, w) - Dot(v, w)
    ensures Dot(w, Sub(u, v)) == Dot(w, u) - Dot(w, v)
  {
  }

  lemma DotScale(k: real, u: V3, w: V3)
    ensures Dot(Scale(k, u), w) == k * Dot(u, w)
    ensures Dot(w, Scale(k, u)) == k * Dot(w, u)
  {
  }

  lemma Positive(x: real, y: real, p: real)
    requires x > 0.0 && y > 0.0 && p == x * y
    ensures p > 0.0
  {
  }

  lemma Square(x: real, p: real)
    requires p == x * x
    ensures p >= 0.0
    ensures x != 0.0 ==> p > 0.0
  {
    if x < 0.0 {
      assert p == (-x) * (-x);
      Positive(-x, -x, p);
    } else if x > 0.0 {
      Positive(x, x, p);
    }
  }

  lemma NormIsPositive(v: V3)
    ensures Norm2(v) >= 0.0
    ensures v != ZERO ==> Norm2(v) > 0.0
  {
    Square(v.x, v.x * v.x);
    Square(v.y, v.y * v.y);
    Square(v.z, v.z * v.z);
    assert v != ZERO ==> v.x != 0.0 || v.y != 0.0 || v.z != 0.0;
  }

  /** The identity of Lagrange, in its general form. */
  lemma Lagrange(a: V3, b: V3, c: V3, d: V3)
    ensures Dot(Cross(a, b), Cross(c, d)) == Dot(a, c) * Dot(b, d) - Dot(a, d) * Dot(b, c)
  {
  }

  lemma TripleComponent(a: V3, b: V3, c: V3, n2: real, n3: real, p: real, q: real)
    requires n2 == a.z * b.x - a.x * b.z && n3 == a.x * b.y - a.y * b.x
    requires p == a.x * c.x + a.y * c.y + a.z * c.z && q == b.x * c.x + b.y * c.y + b.z * c.z
    ensures n2 * c.z - n3 * c.y == p * b.x - q * a.x
  {
    assert p * b.x == a.x * c.x * b.x + a.y * c.y * b.x + a.z * c.z * b.x;
    assert q * a.x == b.x * c.x * a.x + b.y * c.y * a.x + b.z * c.z * a.x;
    assert n2 * c.z == a.z * b.x * c.z - a.x * b.z * c.z;
    assert n3 * c.y == a.x * b.y * c.y - a.y * b.x * c.y;
  }

  lemma TripleProduct(a: V3, b: V3, c: V3)
    ensures Cross(Cross(a, b), c) == Sub(Scale(Dot(a, c), b), Scale(Dot(b, c), a))
  {
    var n, p, q := Cross(a, b), Dot(a, c), Dot(b, c);
    TripleComponent(a, b, c, n.y, n.z, p, q);
    TripleComponent(V3(a.y, a.z, a.x), V3(b.y, b.z, b.x), V3(c.y, c.z, c.x), n.z, n.x, p, q);
    TripleComponent(V3(a.z, a.x, a.y), V3(b.z, b.x, b.y), V3(c.z, c.x, c.y), n.x, n.y, p, q);
  }

  lemma CrossIsOrthogonal(a: V3, b: V3)
    ensures Dot(Cross(a, b), a) == 0.0 && Dot(Cross(a, b), b) == 0.0
  {
  }

  /** A vector orthogonal to a, b and a x b is zero, unless a and b are parallel. */
  lemma OrthogonalToFrame(d: V3, a: V3, b: V3)
    requires Dot(d, a) == 0.0 && Dot(d, b) == 0.0 && Dot(d, Cross(a, b)) == 0.0
    requires Cross(a, b) != ZERO
    ensures d == ZERO
  {
    var n := Cross(a, b);
    TripleProduct(a, b, d);
    assert Cross(n, d) == ZERO;
    Lagrange(n, d, n, d);
    assert Norm2(n) * Norm2(d) == 0.0;
    NormIsPositive(n);
    NormIsPositive(d);
  }

  // ---- Rotations ----

  /** The rows of a rotation are a right-handed orthonormal frame. */
  lemma RotationRows(m: M3)
    requires IsRotation(m)
    ensures Norm2(m.r1) == Norm2(m.r2) == Norm2(m.r3) == 1.0
    ensures Dot(m.r1, m.r2) == Dot(m.r2, m.r3) == Dot(m.r1, m.r3) == 0.0
    ensures Cross(m.r1, m.r2) == m.r3
  {
    RowsOfProduct(m);
    Lagrange(m.r1, m.r2, m.r1, m.r2);
    UnitsAgree(Cross(m.r1, m.r2), m.r3);
  }

  lemma RowsOfProduct(m: M3)
    requires Mul(m, Transpose(m)) == IDENTITY
    ensures Norm2(m.r1) == Norm2(m.r2) == Norm2(m.r3) == 1.0
    ensures Dot(m.r1, m.r2) == Dot(m.r2, m.r3) == Dot(m.r1, m.r3) == 0.0
  {
    assert Transpose(Transpose(m)) == m;
  }

  lemma NormOfSub(c: V3, d: V3)
    ensures Norm2(Sub(c, d)) == Norm2(c) - 2.0 * Dot(c, d) + Norm2(d)
  {
    DotSub(c, d, Sub(c, d));
    DotSub(c, d, c);
    DotSub(c, d, d);
    assert Dot(d, c) == Dot(c, d);
  }

  lemma UnitsAgree(c: V3, d: V3)
    requires Norm2(c) == 1.0 && Norm2(d) == 1.0 && Dot(c, d) == 1.0
    ensures c == d
  {
    var e := Sub(c, d);
    assert e == ZERO by {
      NormOfSub(c, d);
      assert Norm2(e) == 0.0;
      NormIsPositive(e);
    }
  }

  lemma FrameIsRotation(m: M3)
    requires Norm2(m.r1) == Norm2(m.r2) == 1.0 && Dot(m.r1, m.r2) == 0.0 && m.r3 == Cross(m.r1, m.r2)
    ensures IsRotation(m)
  {
    CrossIsOrthogonal(m.r1, m.r2);
    Lagrange(m.r1, m.r2, m.r1, m.r2);
  }

  lemma CyclicRows(m: M3)
    requires IsRotation(m)
    ensures Cross(m.r2, m.r3) == m.r1 && Cross(m.r3, m.r1) == m.r2
  {
    RotationRows(m);
    TripleProduct(m.r1, m.r2, m.r2);
    TripleProduct(m.r1, m.r2, m.r1);
  }

  lemma TransposeUndoes(m: M3, v: V3)
    requires IsRotation(m)
    ensures Apply(Transpose(m), Apply(m, v)) == v
  {
    RotationRows(m);
    var w := Apply(Transpose(m), Apply(m, v));
    var d := Sub(w, v);
    assert w == Add(Add(Scale(Dot(m.r1, v), m.r1), Scale(Dot(m.r2, v), m.r2)), Scale(Dot(m.r3, v), m.r3));
    RowComponent(m.r1, m.r1, m.r2, m.r3, v, w);
    RowComponent(m.r2, m.r1, m.r2, m.r3, v, w);
    RowComponent(m.r3, m.r1, m.r2, m.r3, v, w);
    DotSub(w, v, m.r1);
    DotSub(w, v, m.r2);
    DotSub(w, v, m.r3);
    OrthogonalToFrame(d, m.r1, m.r2);
  }

  lemma RowComponent(r: V3, r1: V3, r2: V3, r3: V3, v: V3, w: V3)
    requires w == Add(Add(Scale(Dot(r1, v), r1), Scale(Dot(r2, v), r2)), Scale(Dot(r3, v), r3))
    ensures Dot(w, r) == Dot(r1, v) * Dot(r1, r) + Dot(r2, v) * Dot(r2, r) + Dot(r3, v) * Dot(r3, r)
  {
    DotAdd(Add(Scale(Dot(r1, v), r1), Scale(Dot(r2, v), r2)), Scale(Dot(r3, v), r3), r);
    DotAdd(Scale(Dot(r1, v), r1), Scale(Dot(r2, v), r2), r);
    DotScale(Dot(r1, v), r1, r);
    DotScale(Dot(r2, v), r2, r);
    DotScale(Dot(r3, v), r3, r);
  }

  /** Moving a matrix across a dot product transposes it. */
  lemma DotTranspose(m: M3, u: V3, v: V3)
    ensures Dot(u, Apply(m, v)) == Dot(Apply(Transpose(m), u), v)
  {
  }

  lemma RotationKeepsDot(m: M3, u: V3, v: V3)
    requires IsRotation(m)
    ensures Dot(Apply(m, u), Apply(m, v)) == Dot(u, v)
  {
    DotTranspose(m, Apply(m, u), v);
    TransposeUndoes(m, u);
  }

  lemma RotationKeepsCross(m: M3, u: V3, v: V3)
    requires IsRotation(m)
    ensures Apply(m, Cross(u, v)) == Cross(Apply(m, u), Apply(m, v))
  {
    RotationRows(m);
    CyclicRows(m);
    Lagrange(m.r2, m.r3, u, v);
    Lagrange(m.r3, m.r1, u, v);
    Lagrange(m.r1, m.r2, u, v);
  }

  lemma DetTranspose(m: M3)
    ensures Det(Transpose(m)) == Det(m)
  {
  }

  lemma TransposeIsRotation(m: M3)
    requires IsRotation(m)
    ensures IsRotation(Transpose(m))
  {
    var t := Transpose(m);
    TransposeUndoes(m, IDENTITY.r1);
    TransposeUndoes(m, IDENTITY.r2);
    TransposeUndoes(m, IDENTITY.r3);
    assert Mul(t, Transpose(t)) == IDENTITY;
    DetTranspose(m);
  }

  lemma ApplyMul(m: M3, n: M3, v: V3)
    ensures Apply(Mul(m, n), v) == Apply(m, Apply(n, v))
  {
    DotTranspose(n, m.r1, v);
    DotTranspose(n, m.r2, v);
    DotTranspose(n, m.r3, v);
  }

  lemma MulIsRotation(m: M3, n: M3)
    requires IsRotation(m) && IsRotation(n)
    ensures IsRotation(Mul(m, n))
  {
    var t := Transpose(n);
    TransposeIsRotation(n);
    RotationRows(m);
    RotationKeepsDot(t, m.r1, m.r1);
    RotationKeepsDot(t, m.r2, m.r2);
    RotationKeepsDot(t, m.r1, m.r2);
    RotationKeepsCross(t, m.r1, m.r2);
    FrameIsRotation(Mul(m, n));
  }
}
