/** The two-accumulator checksum of bbones/shared/data_decoding.c and what it detects.
    Both accumulators are uint8_t, so they wrap modulo 256. */
module Checksum {

  type byte = b: int | 0 <= b < 256

  const START_BYTE: byte := 0x99

  ghost function PlainSum(s: seq<byte>): int {
    if s == [] then 0 else s[0] + PlainSum(s[1..])
  }

  /** Each byte weighted by how many bytes are left from it on. */
  ghost function WeightedSum(s: seq<byte>): int {
    if s == [] then 0 else |s| * s[0] + WeightedSum(s[1..])
  }

  lemma {:induction false} SumsSnoc(s: seq<byte>, x: byte)
    ensures PlainSum(s + [x]) == PlainSum(s) + x
    ensures WeightedSum(s + [x]) == WeightedSum(s) + PlainSum(s) + x
  {
    if s == [] {
      assert [x][1..] == [];
    } else {
      assert (s + [x])[1..] == s[1..] + [x];
      SumsSnoc(s[1..], x);
      assert (|s| + 1) * s[0] == |s| * s[0] + s[0];
    }
  }

  lemma {:induction false} SumsUpdate(s: seq<byte>, i: nat, v: byte)
    requires i < |s|
    ensures PlainSum(s[i := v]) == PlainSum(s) + (v - s[i])
    ensures WeightedSum(s[i := v]) == WeightedSum(s) + (|s| - i) * (v - s[i])
  {
    var t := s[i := v];
    if i == 0 {
      assert t[1..] == s[1..];
      assert |s| * v == |s| * s[0] + |s| * (v - s[0]);
    } else {
      assert t[1..] == s[1..][i - 1 := v];
      SumsUpdate(s[1..], i - 1, v);
    }
  }

  /** The sums of two pieces, one behind the other; so both are zero on no bytes. */
  lemma {:induction false} SumsOfConcatenation(a: seq<byte>, b: seq<byte>)
    ensures PlainSum(a + b) == PlainSum(a) + PlainSum(b)
    ensures WeightedSum(a + b) == WeightedSum(a) + |b| * PlainSum(a) + WeightedSum(b)
  {
    if a == [] {
      assert a + b == b;
    } else {
      assert (a + b)[1..] == a[1..] + b;
      SumsOfConcatenation(a[1..], b);
      assert (|a| + |b|) * a[0] == |a| * a[0] + |b| * a[0];
      assert |b| * PlainSum(a) == |b| * a[0] + |b| * PlainSum(a[1..]);
    }
  }

  ghost function Check1(body: seq<byte>): byte { PlainSum(body) % 256 }
  ghost function Check2(body: seq<byte>): byte { WeightedSum(body) % 256 }

  /** What calculate_checksum runs over: from the length byte up to the two check bytes. */
  function Body(frame: seq<byte>, length: int): seq<byte>
    requires length <= |frame|
  {
    if length < 3 then [] else frame[1..length - 2]
  }

  lemma SumOfRemainders(a: int, b: int)
    ensures (a % 256 + b % 256) % 256 == (a + b) % 256
  {
  }

  lemma Accumulate(weighted: int, plain: int, x: byte)
    ensures (plain % 256 + x) % 256 == (plain + x) % 256
    ensures (weighted % 256 + (plain + x) % 256) % 256 == (weighted + plain + x) % 256
  {
    SumOfRemainders(plain, x);
    SumOfRemainders(weighted, plain + x);
  }

  /** The two accumulators after one more byte. */
  lemma NextByte(s: seq<byte>, x: byte)
    ensures Check1(s + [x]) == (Check1(s) + x) % 256
    ensures Check2(s + [x]) == (Check2(s) + Check1(s + [x])) % 256
  {
    SumsSnoc(s, x);
    Accumulate(WeightedSum(s), PlainSum(s), x);
  }

  /** calculate_checksum, which takes the length from buffer[1]. */
  method CalculateChecksum(buffer: array<byte>) returns (checksum1: byte, checksum2: byte)
    requires buffer.Length >= 2 && buffer[1] <= buffer.Length
    ensures checksum1 == Check1(Body(buffer[..], buffer[1]))
    ensures checksum2 == Check2(Body(buffer[..], buffer[1]))
  {
    var length := buffer[1];
    checksum1, checksum2 := 0, 0;
    var i := 1;
    while i < length - 2
      invariant 1 <= i <= buffer.Length && i <= (if length < 3 then 1 else length - 2)
      invariant checksum1 == Check1(buffer[1..i]) && checksum2 == Check2(buffer[1..i])
    {
      assert buffer[1..i + 1] == buffer[1..i] + [buffer[i]];
      NextByte(buffer[1..i], buffer[i]);
      checksum1 := (checksum1 + buffer[i]) % 256;
      checksum2 := (checksum2 + checksum1) % 256;
      i := i + 1;
    }
    assert buffer[1..i] == Body(buffer[..], length);
  }

  /** The frame's length byte is its length and data_decode's two tests pass. */
  ghost predicate Sealed(frame: seq<byte>) {
    && 4 <= |frame| < 256 && frame[1] == |frame| && frame[0] == START_BYTE
    && Check1(Body(frame, |frame|)) == frame[|frame| - 2]
    && Check2(Body(frame, |frame|)) == frame[|frame| - 1]
  }

  lemma BodyUpdate(frame: seq<byte>, i: nat, v: byte)
    requires 4 <= |frame| && 2 <= i < |frame| - 2
    ensures Body(frame[i := v], |frame|) == Body(frame, |frame|)[i - 1 := v]
    ensures Body(frame, |frame|)[i - 1] == frame[i] && |Body(frame, |frame|)| == |frame| - 3
  {
  }

  /** Adding d to a sum leaves its last byte alone exactly when 256 divides d. */
  lemma SameByte(a: int, d: int)
    ensures (a + d) % 256 == a % 256 <==> d % 256 == 0
  {
  }

  lemma OtherCheck1(s: seq<byte>, i: nat, v: byte)
    requires i < |s| && v != s[i]
    ensures Check1(s[i := v]) != Check1(s)
  {
    SumsUpdate(s, i, v);
    SameByte(PlainSum(s), v - s[i]);
  }

  /** Any change of a single byte, other than the length byte, is rejected. */
  lemma OneByteChangeIsRejected(frame: seq<byte>, i: nat, v: byte)
    requires Sealed(frame) && i < |frame| && i != 1 && v != frame[i]
    ensures !Sealed(frame[i := v])
  {
    var n := |frame|;
    if 2 <= i < n - 2 {
      BodyUpdate(frame, i, v);
      OtherCheck1(Body(frame, n), i - 1, v);
    } else {
      assert Body(frame[i := v], n) == Body(frame, n);
    }
  }

  lemma SealedUpdate(frame: seq<byte>, i: nat, j: nat, v: byte, w: byte)
    requires Sealed(frame) && 2 <= i < j < |frame| - 2
    ensures var b := Body(frame, |frame|); var c := b[i - 1 := v][j - 1 := w];
            Sealed(frame[i := v][j := w]) <==> Check1(c) == Check1(b) && Check2(c) == Check2(b)
  {
    BodyUpdate(frame, i, v);
    BodyUpdate(frame[i := v], j, w);
  }

  lemma TwoWeights(p: int, q: int, d: int, e: int)
    requires (d + e) % 256 == 0
    ensures (p * d + q * e) % 256 == 0 <==> ((p - q) * d) % 256 == 0
  {
    assert p * d + q * e == (p - q) * d + q * (d + e) by {
      assert (p - q) * d == p * d - q * d;
      assert q * (d + e) == q * d + q * e;
    }
    MultipleOf256(q, d + e);
    SameByte((p - q) * d, q * (d + e));
  }

  /** What two changes do to the sums over the checked bytes. */
  lemma SumsOfTwoChanges(frame: seq<byte>, i: nat, j: nat, v: byte, w: byte)
    requires 4 <= |frame| && 2 <= i < j < |frame| - 2
    ensures var n, d, e := |frame|, v - frame[i], w - frame[j];
            var b := Body(frame, n); var c := b[i - 1 := v][j - 1 := w];
            && PlainSum(c) == PlainSum(b) + (d + e)
            && WeightedSum(c) == WeightedSum(b) + ((n - 2 - i) * d + (n - 2 - j) * e)
  {
    var b := Body(frame, |frame|);
    BodyUpdate(frame, i, v);
    BodyUpdate(frame[i := v], j, w);
    SumsUpdate(b, i - 1, v);
    SumsUpdate(b[i - 1 := v], j - 1, w);
  }

  /** Changes to two payload bytes go unnoticed exactly when they cancel modulo 256
      and 256 divides one of them times the distance. */
  lemma TwoByteChange(frame: seq<byte>, i: nat, j: nat, v: byte, w: byte)
    requires Sealed(frame) && 2 <= i < j < |frame| - 2
    ensures var d, e := v - frame[i], w - frame[j];
            Sealed(frame[i := v][j := w]) <==> (d + e) % 256 == 0 && ((j - i) * d) % 256 == 0
  {
    var n, d, e := |frame|, v - frame[i], w - frame[j];
    var b := Body(frame, n);
    SealedUpdate(frame, i, j, v, w);
    SumsOfTwoChanges(frame, i, j, v, w);
    SameByte(PlainSum(b), d + e);
    var p, q := n - 2 - i, n - 2 - j;
    SameByte(WeightedSum(b), p * d + q * e);
    if (d + e) % 256 == 0 {
      TwoWeights(p, q, d, e);
    }
  }

  lemma MultipleOf256(k: int, m: int)
    requires m % 256 == 0
    ensures (k * m) % 256 == 0
  {
    var r := m / 256;
    assert k * m == 256 * (k * r);
  }

  /** So at an odd distance two changes are always caught. */
  lemma OddDistanceIsRejected(frame: seq<byte>, i: nat, j: nat, v: byte, w: byte)
    requires Sealed(frame) && 2 <= i < j < |frame| - 2
    requires (j - i) % 2 == 1 && v != frame[i]
    ensures !Sealed(frame[i := v][j := w])
  {
    TwoByteChange(frame, i, j, v, w);
    OddFactor(j - i, v - frame[i]);
  }

  lemma OddFactor(k: int, d: int)
    requires k % 2 == 1 && -256 < d < 256 && d != 0
    ensures (k * d) % 256 != 0
  {
    assert Pow2(8) == 256;
    OddFactorPowers(k, d, 8, (k * d) / 256);
  }

  function Pow2(n: nat): int {
    if n == 0 then 1 else 2 * Pow2(n - 1)
  }

  lemma OddTimesOdd(k: int, d: int)
    requires k % 2 == 1 && d % 2 == 1
    ensures (k * d) % 2 == 1
  {
    var g, h := k / 2, d / 2;
    assert k * d == (2 * g + 1) * (2 * h + 1) == 2 * (2 * g * h + g + h) + 1;
  }

  lemma Twice(a: int, b: int)
    ensures (2 * a) * b == 2 * (a * b) == a * (2 * b)
  {
  }

  lemma Halve(k: int, d: int, p: int, c: int)
    requires k % 2 == 1 && k * d == (2 * p) * c
    ensures d % 2 == 0 && k * (d / 2) == p * c
  {
    Twice(p, c);
    if d % 2 == 1 {
      OddTimesOdd(k, d);
    }
    var h := d / 2;
    assert d == 2 * h;
    Twice(k, h);
  }

  /** 2^n divides k*d, with k odd, only if it divides d. */
  lemma {:induction false} OddFactorPowers(k: int, d: int, n: nat, c: int)
    requires k % 2 == 1 && d != 0 && -Pow2(n) < d < Pow2(n)
    ensures k * d != Pow2(n) * c
    decreases n
  {
    if n > 0 && k * d == Pow2(n) * c {
      Halve(k, d, Pow2(n - 1), c);
      OddFactorPowers(k, d / 2, n - 1, c);
    }
  }
}
