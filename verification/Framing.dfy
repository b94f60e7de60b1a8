/** bbones/shared/data_decoding.c: building frames, stamping them and stripping the stamp.
    Layout: 0x99, length, sender, message id, payload, two check bytes; a stamped frame
    has 16 bytes of timestamp between the payload and the check bytes. */
module Framing {
  import opened Checksum

  const STAMP_SIZE := 16

  // ---- Timestamps: two uint64_t, least significant byte first ----

  /** gettimeofday's result; a parameter wherever the source reads the clock. */
  datatype Clock = Clock(sec: int, usec: int)

  function Power256(n: nat): (p: int)
    ensures p >= 1
  {
    if n == 0 then 1 else 256 * Power256(n - 1)
  }

  function LittleEndian(v: nat, n: nat): (s: seq<byte>)
    ensures |s| == n
  {
    if n == 0 then [] else [v % 256] + LittleEndian(v / 256, n - 1)
  }

  function Value(s: seq<byte>): nat {
    if s == [] then 0 else s[0] + 256 * Value(s[1..])
  }

  function UInt64(v: int): nat { v % 0x1_0000_0000_0000_0000 }

  function Timestamp(c: Clock): (s: seq<byte>)
    ensures |s| == STAMP_SIZE
  {
    LittleEndian(UInt64(c.sec), 8) + LittleEndian(UInt64(c.usec), 8)
  }

  lemma {:induction false} ValueOfLittleEndian(v: nat, n: nat)
    requires v < Power256(n)
    ensures Value(LittleEndian(v, n)) == v
  {
    if n > 0 {
      ValueOfLittleEndian(v / 256, n - 1);
    }
  }

  lemma EightBytesHold64Bits()
    ensures Power256(8) == 0x1_0000_0000_0000_0000
  {
    assert Power256(2) == 0x1_0000;
    assert Power256(4) == 0x1_0000_0000;
    assert Power256(6) == 0x1_0000_0000_0000;
  }

  lemma EightBytes(v: int)
    requires 0 <= v < 0x1_0000_0000_0000_0000
    ensures Value(LittleEndian(UInt64(v), 8)) == v
  {
    EightBytesHold64Bits();
    assert UInt64(v) == v;
    ValueOfLittleEndian(v, 8);
  }

  /** The server reads back the seconds and microseconds that were sent. */
  lemma TimestampRoundTrip(c: Clock)
    requires 0 <= c.sec < 0x1_0000_0000_0000_0000 && 0 <= c.usec < 0x1_0000_0000_0000_0000
    ensures Value(Timestamp(c)[..8]) == c.sec && Value(Timestamp(c)[8..]) == c.usec
  {
    var s, u := LittleEndian(UInt64(c.sec), 8), LittleEndian(UInt64(c.usec), 8);
    EightBytes(c.sec);
    EightBytes(c.usec);
    assert (s + u)[..8] == s && (s + u)[8..] == u;
  }

  // ---- Frames ----

  /** Completes everything but the check bytes to a frame. */
  ghost function Seal(head: seq<byte>): (f: seq<byte>)
    requires head != []
    ensures |f| == |head| + 2
  {
    head + [Check1(head[1..]), Check2(head[1..])]
  }

  /** The frame LISA sends: no timestamp. */
  ghost function Frame(sender: byte, id: byte, payload: seq<byte>): seq<byte>
    requires |payload| <= 249
  {
    Seal([START_BYTE, |payload| + 6, sender, id] + payload)
  }

  ghost function Stamped(f: seq<byte>, stamp: seq<byte>): seq<byte>
    requires 4 <= |f| <= 239 && |stamp| == STAMP_SIZE
  {
    Seal([f[0], |f| + STAMP_SIZE] + f[2..|f| - 2] + stamp)
  }

  ghost function Stripped(g: seq<byte>): seq<byte>
    requires 20 <= |g| < 256
  {
    Seal([g[0], |g| - STAMP_SIZE] + g[2..|g| - 18])
  }

  /** The timestamp bytes of a stamped frame. */
  function StampOf(g: seq<byte>): seq<byte>
    requires |g| >= 20
  {
    g[|g| - 18..|g| - 2]
  }

  lemma SealIsSealed(head: seq<byte>)
    requires 2 <= |head| < 254 && head[0] == START_BYTE && head[1] == |head| + 2
    ensures Sealed(Seal(head))
  {
    var f := Seal(head);
    assert Body(f, |f|) == head[1..];
  }

  lemma SealedIsSeal(f: seq<byte>)
    requires Sealed(f)
    ensures f == Seal(f[..|f| - 2])
  {
    assert Body(f, |f|) == f[..|f| - 2][1..];
  }

  /** The shortest frame, byte by byte. */
  lemma EmptyMessage(sender: byte, id: byte)
    ensures Frame(sender, id, [])
         == [START_BYTE, 6, sender, id, (6 + sender + id) % 256, (18 + 2 * sender + id) % 256]
  {
    var body: seq<byte> := [6, sender, id];
    SumsSnoc([], 6);
    SumsSnoc([6], sender);
    SumsSnoc([6, sender], id);
    assert [] + [6] == [6] && [6] + [sender] == [6, sender] && [6, sender] + [id] == body;
    assert ([START_BYTE, 6, sender, id] + [])[1..] == body;
  }

  /** Stripping undoes stamping byte for byte, exactly on the frames that carry the right check bytes. */
  lemma StripUndoesStamp(f: seq<byte>, stamp: seq<byte>)
    requires 4 <= |f| <= 239 && |stamp| == STAMP_SIZE && f[0] == START_BYTE && f[1] == |f|
    ensures Stripped(Stamped(f, stamp)) == f <==> Sealed(f)
    ensures StampOf(Stamped(f, stamp)) == stamp
    ensures Sealed(Stamped(f, stamp))
  {
    var g := Stamped(f, stamp);
    var head := f[..|f| - 2];
    assert [g[0], |g| - STAMP_SIZE] + g[2..|g| - 18] == head;
    assert Stripped(g) == Seal(head);
    SealIsSealed(head);
    SealIsSealed([f[0], |f| + STAMP_SIZE] + f[2..|f| - 2] + stamp);
    if Sealed(f) {
      SealedIsSeal(f);
    }
  }

  /** Stamping again with the stripped timestamp restores the frame. */
  lemma StampUndoesStrip(g: seq<byte>)
    requires Sealed(g) && |g| >= 20
    ensures Sealed(Stripped(g))
    ensures Stamped(Stripped(g), StampOf(g)) == g
  {
    SealIsSealed([g[0], |g| - STAMP_SIZE] + g[2..|g| - 18]);
    SealedIsSeal(g);
    var f := Stripped(g);
    assert [f[0], |f| + STAMP_SIZE] + f[2..|f| - 2] + StampOf(g) == g[..|g| - 2];
  }

  lemma FrameIsSealed(sender: byte, id: byte, payload: seq<byte>)
    requires |payload| <= 249
    ensures Sealed(Frame(sender, id, payload))
  {
    SealIsSealed([START_BYTE, |payload| + 6, sender, id] + payload);
  }

  /** What a stamped frame is, field by field. */
  lemma StampedLayout(sender: byte, id: byte, payload: seq<byte>, stamp: seq<byte>)
    requires |payload| <= 233 && |stamp| == STAMP_SIZE
    ensures Stamped(Frame(sender, id, payload), stamp)
         == Seal([START_BYTE, |payload| + 22, sender, id] + payload + stamp)
  {
    var f := Frame(sender, id, payload);
    assert [f[0], |f| + STAMP_SIZE] + f[2..|f| - 2] + stamp
        == [START_BYTE, |payload| + 22, sender, id] + payload + stamp;
  }

  /** Writing the two check bytes behind a head completes it to Seal(head). */
  method WriteChecks(buffer: array<byte>)
    requires buffer.Length >= 4 && 4 <= buffer[1] <= buffer.Length
    modifies buffer
    ensures var n := old(buffer[1]);
            && buffer[..n] == Seal(old(buffer[..n - 2]))
            && buffer[n..] == old(buffer[n..])
  {
    var length := buffer[1];
    var checksum1, checksum2 := CalculateChecksum(buffer);
    assert Body(buffer[..], length) == buffer[..length - 2][1..];
    buffer[length - 2] := checksum1;
    buffer[length - 1] := checksum2;
  }

  /** The first part of data_encode: all but the check bytes. */
  method PutFields(message: array<byte>, messageLength: nat, encoded: array<byte>,
                   senderId: int, messageId: int, now: Clock)
    requires message != encoded
    requires messageLength <= message.Length && messageLength <= 233
    requires encoded.Length >= messageLength + 22
    modifies encoded
    ensures encoded[..messageLength + 20]
         == [START_BYTE, messageLength + 22, senderId % 256, messageId % 256] + message[..messageLength] + Timestamp(now)
    ensures encoded[messageLength + 20..] == old(encoded[messageLength + 20..])
  {
    encoded[0] := START_BYTE;
    encoded[1] := (messageLength + 6 + 16) % 256;
    encoded[2] := senderId % 256;
    encoded[3] := messageId % 256;
    forall i | 0 <= i < messageLength {
      encoded[4 + i] := message[i];
    }
    var stamp := Timestamp(now);
    forall i | 0 <= i < STAMP_SIZE {
      encoded[messageLength + 4 + i] := stamp[i];
    }
    assert encoded[..4] == [START_BYTE, messageLength + 22, senderId % 256, messageId % 256];
    assert encoded[4..messageLength + 4] == message[..messageLength];
    assert encoded[messageLength + 4..messageLength + 20] == stamp;
    assert encoded[..messageLength + 20]
        == encoded[..4] + encoded[4..messageLength + 4] + encoded[messageLength + 4..messageLength + 20];
  }

  /** data_encode. The ids are ints that the buffer truncates to a byte. */
  method DataEncode(message: array<byte>, messageLength: nat, encoded: array<byte>,
                    senderId: int, messageId: int, now: Clock)
    requires message != encoded
    requires messageLength <= message.Length && messageLength <= 233
    requires encoded.Length >= messageLength + 22
    modifies encoded
    ensures encoded[..messageLength + 22]
         == Stamped(Frame(senderId % 256, messageId % 256, message[..messageLength]), Timestamp(now))
    ensures encoded[messageLength + 22..] == old(encoded[messageLength + 22..])
  {
    ghost var behind := encoded[messageLength + 20..];
    PutFields(message, messageLength, encoded, senderId, messageId, now);
    assert encoded[..messageLength + 20][1] == encoded[1] && encoded[..messageLength + 20][0] == encoded[0];
    assert encoded[messageLength + 22..] == behind[2..];
    WriteChecks(encoded);
    StampedLayout(senderId % 256, messageId % 256, message[..messageLength], Timestamp(now));
  }

  /** add_timestamp, on the frame at the front of the buffer. */
  method AddTimestamp(buffer: array<byte>, now: Clock) returns (newLength: int)
    requires buffer.Length >= 2 && 4 <= buffer[1] <= 239 && buffer[1] + STAMP_SIZE <= buffer.Length
    modifies buffer
    ensures newLength == old(buffer[1]) + STAMP_SIZE
    ensures buffer[..newLength] == Stamped(old(buffer[..buffer[1]]), Timestamp(now))
    ensures buffer[newLength..] == old(buffer[newLength..])
  {
    var lengthOriginal := buffer[1];
    ghost var f := buffer[..lengthOriginal];
    newLength := lengthOriginal + STAMP_SIZE;
    var stamp := Timestamp(now);
    buffer[1] := newLength;
    forall i | 0 <= i < STAMP_SIZE {
      buffer[lengthOriginal - 2 + i] := stamp[i];
    }
    assert buffer[..2] == [f[0], |f| + STAMP_SIZE];
    assert buffer[2..lengthOriginal - 2] == f[2..|f| - 2];
    assert buffer[lengthOriginal - 2..newLength - 2] == stamp;
    assert buffer[..newLength - 2]
        == buffer[..2] + buffer[2..lengthOriginal - 2] + buffer[lengthOriginal - 2..newLength - 2];
    WriteChecks(buffer);
  }

  /** strip_timestamp, on the stamped frame at the front of the buffer. */
  method StripTimestamp(buffer: array<byte>) returns (newLength: int)
    requires buffer.Length >= 2 && 20 <= buffer[1] <= buffer.Length
    modifies buffer
    ensures newLength == old(buffer[1]) - STAMP_SIZE
    ensures buffer[..newLength] == Stripped(old(buffer[..buffer[1]]))
    ensures buffer[newLength..] == old(buffer[newLength..])
  {
    var length := buffer[1];
    ghost var g := buffer[..length];
    newLength := length - STAMP_SIZE;
    buffer[1] := newLength;
    assert buffer[..2] == [g[0], |g| - STAMP_SIZE];
    assert buffer[2..newLength - 2] == g[2..|g| - 18];
    assert buffer[..newLength - 2] == buffer[..2] + buffer[2..newLength - 2];
    WriteChecks(buffer);
  }
}
