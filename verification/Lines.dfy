/** pythonCodegen/geometry.py: the shortest segment between the lines p1-p2 and p3-p4. */
module Lines {
  import opened Vectors
  import opened Wrappers

  const EPS := 0.00001

  datatype Segment = Segment(pa: V3, pb: V3, mua: real, mub: real)

  function Abs(x: real): real { if x < 0.0 then -x else x }

  predicate Negligible(v: V3) {
    Abs(v.x) < EPS && Abs(v.y) < EPS && Abs(v.z) < EPS
  }

  lemma NotNegligible(v: V3)
    requires !Negligible(v)
    ensures Norm2(v) > 0.0
  {
    assert v != ZERO;
    NormIsPositive(v);
  }

  function Gram(d: real, e: real, c: real): real { d * e - c * c }

  /** mua and mub from the five dot products; they solve the equations that make the
      segment orthogonal to both lines. */
  function Parameters(d1343: real, d4321: real, d1321: real, d4343: real, d2121: real): (m: (real, real))
    requires d4343 != 0.0 && Gram(d2121, d4343, d4321) != 0.0
    ensures d1343 + m.0 * d4321 - m.1 * d4343 == 0.0
    ensures d1321 + m.0 * d2121 - m.1 * d4321 == 0.0
  {
    var denom := Gram(d2121, d4343, d4321);
    var numer := d1343 * d4321 - d1321 * d4343;
    var mua := numer / denom;
    var mub := (d1343 + d4321 * mua) / d4343;
    NormalEquations(d1343, d1321, d4321, d2121, d4343, mua, mub);
    (mua, mub)
  }

  lemma NormalEquations(a: real, b: real, c: real, d: real, e: real, mua: real, mub: real)
    requires e != 0.0 && Gram(d, e, c) != 0.0
    requires mua == (a * c - b * e) / Gram(d, e, c)
    requires mub == (a + c * mua) / e
    ensures a + mua * c - mub * e == 0.0
    ensures b + mua * d - mub * c == 0.0
  {
    assert mub * e == a + c * mua;
    var den := Gram(d, e, c);
    assert mua * den == a * c - b * e;
    assert mua * den == mua * d * e - mua * c * c;
    var f := b + mua * d - mub * c;
    assert f * e == b * e + mua * d * e - (mub * e) * c;
    assert (mub * e) * c == a * c + c * mua * c;
    assert f * e == 0.0;
  }

  /** denom in the source */
  function Denom(p21: V3, p43: V3): real {
    Gram(Norm2(p21), Norm2(p43), Dot(p43, p21))
  }

  /** line_line_intersect_numpy; None is a failed assertion. */
  function LineLineIntersect(p1: V3, p2: V3, p3: V3, p4: V3): Option<Segment> {
    var p13, p43, p21 := Sub(p1, p3), Sub(p4, p3), Sub(p2, p1);
    if Negligible(p43) || Negligible(p21) || Abs(Denom(p21, p43)) < EPS then None
    else
      NotNegligible(p43);
      var (mua, mub) := Parameters(Dot(p13, p43), Dot(p43, p21), Dot(p13, p21), Norm2(p43), Norm2(p21));
      Some(Segment(Add(p1, Scale(mua, p21)), Add(p3, Scale(mub, p43)), mua, mub))
  }

  /** The point of the line through p and q at parameter k. */
  function On(p: V3, q: V3, k: real): V3 {
    Add(p, Scale(k, Sub(q, p)))
  }

  lemma SegmentIsOrthogonalToFirst(p1: V3, p2: V3, p3: V3, p4: V3)
    requires LineLineIntersect(p1, p2, p3, p4).Some?
    ensures var s := LineLineIntersect(p1, p2, p3, p4).value; Dot(Sub(s.pa, s.pb), Sub(p2, p1)) == 0.0
  {
    var p43, p21 := Sub(p4, p3), Sub(p2, p1);
    var s := LineLineIntersect(p1, p2, p3, p4).value;
    Difference(p1, p21, p3, p43, s.mua, s.mub, p21);
  }

  lemma SegmentIsOrthogonalToSecond(p1: V3, p2: V3, p3: V3, p4: V3)
    requires LineLineIntersect(p1, p2, p3, p4).Some?
    ensures var s := LineLineIntersect(p1, p2, p3, p4).value; Dot(Sub(s.pa, s.pb), Sub(p4, p3)) == 0.0
  {
    var p43, p21 := Sub(p4, p3), Sub(p2, p1);
    var s := LineLineIntersect(p1, p2, p3, p4).value;
    assert Dot(p21, p43) == Dot(p43, p21);
    Difference(p1, p21, p3, p43, s.mua, s.mub, p43);
  }

  /** The segment is orthogonal to both lines. */
  lemma SegmentIsOrthogonal(p1: V3, p2: V3, p3: V3, p4: V3)
    requires LineLineIntersect(p1, p2, p3, p4).Some?
    ensures var s := LineLineIntersect(p1, p2, p3, p4).value;
            && Dot(Sub(s.pa, s.pb), Sub(p2, p1)) == 0.0
            && Dot(Sub(s.pa, s.pb), Sub(p4, p3)) == 0.0
  {
    SegmentIsOrthogonalToFirst(p1, p2, p3, p4);
    SegmentIsOrthogonalToSecond(p1, p2, p3, p4);
  }

  lemma Difference(p: V3, u: V3, q: V3, v: V3, a: real, b: real, w: V3)
    ensures Dot(Sub(Add(p, Scale(a, u)), Add(q, Scale(b, v))), w)
         == Dot(Sub(p, q), w) + a * Dot(u, w) - b * Dot(v, w)
  {
    DotSub(Add(p, Scale(a, u)), Add(q, Scale(b, v)), w);
    DotAdd(p, Scale(a, u), w);
    DotAdd(q, Scale(b, v), w);
    DotScale(a, u, w);
    DotScale(b, v, w);
    DotSub(p, q, w);
  }

  lemma Pythagoras(r: V3, u: V3)
    requires Dot(r, u) == 0.0
    ensures Norm2(Add(r, u)) == Norm2(r) + Norm2(u)
  {
    DotAdd(r, u, Add(r, u));
    DotAdd(r, u, r);
    DotAdd(r, u, u);
    assert Dot(u, r) == Dot(r, u);
  }

  /** From the shortest segment to any other: a change along each line. */
  lemma OtherSegment(p1: V3, p2: V3, p3: V3, p4: V3, a: real, b: real, s: real, t: real)
    ensures var u := Sub(Scale(s - a, Sub(p2, p1)), Scale(t - b, Sub(p4, p3)));
            Sub(On(p1, p2, s), On(p3, p4, t)) == Add(Sub(On(p1, p2, a), On(p3, p4, b)), u)
  {
    var v, w := Sub(p2, p1), Sub(p4, p3);
    ScaleDifference(s, a, v);
    ScaleDifference(t, b, w);
  }

  lemma ScaleDifference(s: real, a: real, v: V3)
    ensures Scale(s, v) == Add(Scale(a, v), Scale(s - a, v))
  {
  }

  lemma DotCombination(r: V3, v: V3, w: V3, k: real, l: real)
    requires Dot(r, v) == 0.0 && Dot(r, w) == 0.0
    ensures Dot(r, Sub(Scale(k, v), Scale(l, w))) == 0.0
  {
    DotSub(Scale(k, v), Scale(l, w), r);
    DotScale(k, v, r);
    DotScale(l, w, r);
  }

  lemma CrossIsNotZero(v: V3, w: V3)
    requires Denom(v, w) != 0.0
    ensures Cross(v, w) != ZERO
  {
    Lagrange(v, w, v, w);
  }

  /** One component of k v = l w, crossed with v and with w. */
  lemma Eliminate(k: real, l: real, v1: real, v2: real, w1: real, w2: real)
    requires k * v1 == l * w1 && k * v2 == l * w2
    ensures k * (v1 * w2 - v2 * w1) == 0.0 && l * (v1 * w2 - v2 * w1) == 0.0
  {
    assert k * v1 * w2 == l * w1 * w2 == k * v2 * w1;
    assert l * w2 * v1 == k * v2 * v1 == l * w1 * v2;
  }

  lemma Independent(v: V3, w: V3, k: real, l: real)
    requires Cross(v, w) != ZERO && Sub(Scale(k, v), Scale(l, w)) == ZERO
    ensures k == 0.0 && l == 0.0
  {
    Eliminate(k, l, v.y, v.z, w.y, w.z);
    Eliminate(k, l, v.z, v.x, w.z, w.x);
    Eliminate(k, l, v.x, v.y, w.x, w.y);
    var n := Cross(v, w);
    assert n.x != 0.0 || n.y != 0.0 || n.z != 0.0;
  }

  /** The square of any other distance is that of the shortest segment and of the change. */
  lemma SplitDistance(p1: V3, p2: V3, p3: V3, p4: V3, s: real, t: real) returns (u: V3)
    requires LineLineIntersect(p1, p2, p3, p4).Some?
    ensures var m := LineLineIntersect(p1, p2, p3, p4).value;
            && u == Sub(Scale(s - m.mua, Sub(p2, p1)), Scale(t - m.mub, Sub(p4, p3)))
            && Norm2(Sub(On(p1, p2, s), On(p3, p4, t))) == Norm2(Sub(m.pa, m.pb)) + Norm2(u)
  {
    var p43, p21 := Sub(p4, p3), Sub(p2, p1);
    var m := LineLineIntersect(p1, p2, p3, p4).value;
    var r := Sub(m.pa, m.pb);
    u := Sub(Scale(s - m.mua, p21), Scale(t - m.mub, p43));
    SegmentIsOrthogonal(p1, p2, p3, p4);
    OtherSegment(p1, p2, p3, p4, m.mua, m.mub, s, t);
    DotCombination(r, p21, p43, s - m.mua, t - m.mub);
    Pythagoras(r, u);
  }

  /** No two points of the lines are closer. */
  lemma SegmentIsShortest(p1: V3, p2: V3, p3: V3, p4: V3, s: real, t: real)
    requires LineLineIntersect(p1, p2, p3, p4).Some?
    ensures var m := LineLineIntersect(p1, p2, p3, p4).value;
            Norm2(Sub(m.pa, m.pb)) <= Norm2(Sub(On(p1, p2, s), On(p3, p4, t)))
  {
    var u := SplitDistance(p1, p2, p3, p4, s, t);
    NormIsPositive(u);
  }

  /** And no other two points are as close. */
  lemma OthersAreLonger(p1: V3, p2: V3, p3: V3, p4: V3, s: real, t: real)
    requires LineLineIntersect(p1, p2, p3, p4).Some?
    requires var m := LineLineIntersect(p1, p2, p3, p4).value; s != m.mua || t != m.mub
    ensures var m := LineLineIntersect(p1, p2, p3, p4).value;
            Norm2(Sub(m.pa, m.pb)) < Norm2(Sub(On(p1, p2, s), On(p3, p4, t)))
  {
    var u := SplitDistance(p1, p2, p3, p4, s, t);
    var m := LineLineIntersect(p1, p2, p3, p4).value;
    if u == ZERO {
      CrossIsNotZero(Sub(p2, p1), Sub(p4, p3));
      Independent(Sub(p2, p1), Sub(p4, p3), s - m.mua, t - m.mub);
    }
    NormIsPositive(u);
  }

  lemma NormOfZero()
    ensures Norm2(ZERO) == 0.0
  {
  }

  lemma MeetingParameters(p1: V3, p2: V3, p3: V3, p4: V3, s: real, t: real)
    requires LineLineIntersect(p1, p2, p3, p4).Some?
    requires Sub(On(p1, p2, s), On(p3, p4, t)) == ZERO
    ensures var m := LineLineIntersect(p1, p2, p3, p4).value; (m.mua, m.mub) == (s, t)
  {
    var m := LineLineIntersect(p1, p2, p3, p4).value;
    if (m.mua, m.mub) != (s, t) {
      OthersAreLonger(p1, p2, p3, p4, s, t);
      NormIsPositive(Sub(m.pa, m.pb));
      NormOfZero();
      assert false;
    }
  }

  /** Lines that meet are found to meet, at that point. */
  lemma MeetingPointIsFound(p1: V3, p2: V3, p3: V3, p4: V3, s: real, t: real)
    requires LineLineIntersect(p1, p2, p3, p4).Some? && On(p1, p2, s) == On(p3, p4, t)
    ensures LineLineIntersect(p1, p2, p3, p4).value == Segment(On(p1, p2, s), On(p3, p4, t), s, t)
  {
    MeetingParameters(p1, p2, p3, p4, s, t);
  }
}
