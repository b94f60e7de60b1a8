/** bbones/shared/data_decoding.c: decoding a frame into one of two copies of the data, and
    exchanging the copies. Struct sizes are those of a 64-bit receiver (16-byte timeval). */
module Decoding {
  import opened Checksum
  import opened Framing

  /** The members of Data that a frame can be decoded into. */
  datatype Member =
    | BeagleError
    | SvInfo | SysMon | AirspeedEts | Actuators | GpsInt
    | ImuGyroRaw | ImuAccelRaw | ImuMagRaw | UartErrors | BaroRaw
    | NmeaIimwv | NmeaWixdr
    | LineAngle

  /** A packed struct: everything before new_data as bytes, payload first, then the timestamp. */
  datatype Struct = Struct(bytes: seq<byte>, newData: byte)

  type Contents = map<Member, Struct>

  datatype DecError =
    | StartByteError | ChecksumError
    | UnknownBonePackage | UnknownLisaPackage | UnknownWindPackage | UnknownSender

  datatype Routed = To(member: Member) | No(error: DecError)

  const LISA: byte := 1
  const BONE_PLANE: byte := 2
  const BONE_WIND: byte := 3
  const BONE_ARM: byte := 4

  /** The switch over sender and message id in data_to_struct. */
  function Route(sender: byte, id: byte): Routed {
    if sender == BONE_PLANE then
      if id == 2 then To(BeagleError) else No(UnknownBonePackage)
    else if sender == LISA then
      match id
      case 25 => To(SvInfo)
      case 33 => To(SysMon)
      case 57 => To(AirspeedEts)
      case 105 => To(Actuators)
      case 155 => To(GpsInt)
      case 203 => To(ImuGyroRaw)
      case 204 => To(ImuAccelRaw)
      case 205 => To(ImuMagRaw)
      case 208 => To(UartErrors)
      case 221 => To(BaroRaw)
      case _ => No(UnknownLisaPackage)
    else if sender == BONE_WIND then
      if id == 3 then To(NmeaIimwv) else if id == 4 then To(NmeaWixdr) else No(UnknownWindPackage)
    else if sender == BONE_ARM then
      if id == 5 then To(LineAngle) else No(UnknownWindPackage)
    else No(UnknownSender)
  }

  /** sizeof(struct) - sizeof(timeval) - 1 */
  function PayloadSize(m: Member): (n: nat)
    ensures n <= 56
  {
    match m
    case BeagleError => 2
    case SvInfo => 8
    case SysMon => 11
    case AirspeedEts => 8
    case Actuators => 15
    case GpsInt => 56
    case ImuGyroRaw => 12
    case ImuAccelRaw => 12
    case ImuMagRaw => 12
    case UartErrors => 7
    case BaroRaw => 8
    case NmeaIimwv => 19
    case NmeaWixdr => 9
    case LineAngle => 4
  }

  /** The widths in bytes of the fields before the timestamp, in the order of the packed struct. */
  function Fields(m: Member): seq<nat> {
    match m
    case BeagleError => [1, 1]                       // library, error_code
    case SvInfo => [1, 1, 1, 1, 1, 1, 2]             // chn, svid, flags, qi, cno, elev, azim
    case SysMon => [2, 2, 2, 2, 2, 1]                // periodic time, cycle, min, max, event number, cpu load
    case AirspeedEts => [2, 2, 4]                    // adc, offset, scaled
    case Actuators => [1, 2, 2, 2, 2, 2, 2, 2]       // arr_length, seven values
    case GpsInt => [4, 4, 4, 4, 4, 4, 4, 4, 4, 4, 4, 4, 4, 2, 1, 1]
    case ImuGyroRaw => [4, 4, 4]
    case ImuAccelRaw => [4, 4, 4]
    case ImuMagRaw => [4, 4, 4]
    case UartErrors => [2, 2, 2, 1]                  // overrun, noise, framing, bus number
    case BaroRaw => [4, 4]                           // abs, diff
    case NmeaIimwv => [8, 1, 8, 1, 1]                // angle, relative, speed, unit, status
    case NmeaWixdr => [8, 1]                         // temperature, unit
    case LineAngle => [2, 2]                         // elevation, azimuth
  }

  function Total(ns: seq<nat>): nat {
    if ns == [] then 0 else ns[0] + Total(ns[1..])
  }

  lemma {:induction false} TotalOfOneMore(n: nat, ns: seq<nat>)
    ensures Total([n] + ns) == n + Total(ns)
  {
    assert ([n] + ns)[1..] == ns;
  }

  lemma TotalOfGpsInt()
    ensures Total(Fields(GpsInt)) == 56
  {
    var f := Fields(GpsInt);
    assert f[4..][4..] == f[8..] && f[8..][4..] == f[12..];
    TotalUnfolds(f);
    TotalUnfolds(f[4..]);
    TotalUnfolds(f[8..]);
    TotalUnfolds(f[12..]);
    TotalUnfolds(f[12..][4..]);
  }

  /** The payload is exactly the fields, without padding. */
  lemma PayloadIsItsFields(m: Member)
    ensures PayloadSize(m) == Total(Fields(m))
  {
    if m.GpsInt? {
      TotalOfGpsInt();
    } else {
      TotalUnfolds(Fields(m));
      if |Fields(m)| > 4 {
        TotalUnfolds(Fields(m)[4..]);
        if |Fields(m)| == 8 {
          TotalUnfolds(Fields(m)[4..][4..]);
        }
      }
    }
  }

  lemma TotalUnfolds(ns: seq<nat>)
    ensures |ns| == 0 ==> Total(ns) == 0
    ensures |ns| == 1 ==> Total(ns) == ns[0]
    ensures |ns| == 2 ==> Total(ns) == ns[0] + ns[1]
    ensures |ns| == 3 ==> Total(ns) == ns[0] + ns[1] + ns[2]
    ensures |ns| >= 4 ==> Total(ns) == ns[0] + ns[1] + ns[2] + ns[3] + Total(ns[4..])
  {
    if |ns| >= 1 {
      assert Total(ns) == ns[0] + Total(ns[1..]);
    }
    if |ns| >= 2 {
      assert ns[1..][1..] == ns[2..];
    }
    if |ns| >= 3 {
      assert ns[2..][1..] == ns[3..];
    }
    if |ns| >= 4 {
      assert ns[3..][1..] == ns[4..];
    }
  }

  /** A sender and a message id that are decoded into m. */
  function IdsOf(m: Member): (byte, byte) {
    match m
    case BeagleError => (2, 2)
    case SvInfo => (1, 25)
    case SysMon => (1, 33)
    case AirspeedEts => (1, 57)
    case Actuators => (1, 105)
    case GpsInt => (1, 155)
    case ImuGyroRaw => (1, 203)
    case ImuAccelRaw => (1, 204)
    case ImuMagRaw => (1, 205)
    case UartErrors => (1, 208)
    case BaroRaw => (1, 221)
    case NmeaIimwv => (3, 3)
    case NmeaWixdr => (3, 4)
    case LineAngle => (4, 5)
  }

  /** Every member is reached, and by one sender and id only. */
  lemma RouteIsOneToOne(sender: byte, id: byte, m: Member)
    ensures Route(sender, id) == To(m) <==> (sender, id) == IdsOf(m)
  {
  }

  ghost predicate Complete(c: Contents) {
    forall m: Member :: m in c
  }

  /** data_write: the bytes behind the message id, as many as the struct takes. */
  function Filled(before: Struct, m: Member, stream: seq<byte>): Struct
    requires |stream| >= 255
  {
    Struct(stream[4..4 + PayloadSize(m) + STAMP_SIZE], if m == BeagleError then 0 else before.newData)
  }

  // ---- What the reader sees over a whole run ----

  /** A successfully decoded frame: the member, and the bytes written into it. */
  datatype Delivery = Delivery(member: Member, bytes: seq<byte>)

  /** The last delivery to m at an even distance from the latest one; -1 if there is none. */
  function LastEven(h: seq<Delivery>, m: Member): int {
    if h == [] then -1
    else if h[|h| - 1].member == m then |h| - 1
    else if |h| == 1 then -1
    else LastEven(h[..|h| - 2], m)
  }

  lemma {:induction false} LastEvenIsLast(h: seq<Delivery>, m: Member)
    ensures var i := LastEven(h, m);
            && -1 <= i < |h|
            && (i >= 0 ==> h[i].member == m && (|h| - 1 - i) % 2 == 0)
            && forall j :: i < j < |h| && (|h| - 1 - j) % 2 == 0 ==> h[j].member != m
    decreases |h|
  {
    if |h| >= 2 && h[|h| - 1].member != m {
      LastEvenIsLast(h[..|h| - 2], m);
    }
  }

  ghost predicate IsLastOf(h: seq<Delivery>, m: Member, k: nat) {
    && k < |h| && h[k].member == m
    && forall j :: k < j < |h| ==> h[j].member != m
  }

  /** The reader sees the last delivery to a member exactly when it came an even number of
      deliveries ago. */
  lemma LastIsSeenWhenEven(h: seq<Delivery>, m: Member, k: nat)
    requires IsLastOf(h, m, k)
    ensures LastEven(h, m) == k <==> (|h| - 1 - k) % 2 == 0
  {
    LastEvenIsLast(h, m);
  }

  /** The bytes of member m in the copy that the reader is given after the run h. */
  ghost function Shown(zero: Contents, h: seq<Delivery>, m: Member): seq<byte>
    requires Complete(zero)
  {
    LastEvenIsLast(h, m);
    if LastEven(h, m) < 0 then zero[m].bytes else h[LastEven(h, m)].bytes
  }

  /** The new_data flag of member m in that copy: decoding never sets it, and clears that of the
      error message once one has been written there. */
  function ShownFlag(zero: Contents, h: seq<Delivery>, m: Member): byte
    requires m in zero
  {
    if m == BeagleError && LastEven(h, m) >= 0 then 0 else zero[m].newData
  }

  /** A reader does not always see the latest message: one that has just arrived is out of
      sight as soon as a message to another member follows, and in sight again after two. */
  lemma OverlookedAfterTheNext(h: seq<Delivery>, d: Delivery, e: Delivery, f: Delivery)
    requires e.member != d.member && f.member != d.member
    ensures LastEven(h + [d], d.member) == |h|
    ensures LastEven(h + [d] + [e], d.member) < |h|
    ensures LastEven(h + [d] + [e] + [f], d.member) == |h|
  {
    LastEvenSkips(h, d, e, d.member);
    LastEvenIsLast(h, d.member);
    LastEvenSkips(h + [d], e, f, d.member);
  }

  lemma LastEvenSkips(h: seq<Delivery>, d: Delivery, e: Delivery, m: Member)
    requires e.member != m
    ensures LastEven(h + [d] + [e], m) == LastEven(h, m)
  {
    assert (h + [d] + [e])[..|h|] == h;
  }

  lemma ShownAfter(zero: Contents, h: seq<Delivery>, d: Delivery, m: Member)
    requires Complete(zero)
    ensures Shown(zero, h + [d], m)
         == if m == d.member then d.bytes else Shown(zero, if h == [] then [] else h[..|h| - 1], m)
  {
    if h != [] {
      var i := h[..|h| - 1];
      assert (h + [d])[..|h| + 1 - 2] == i;
      LastEvenIsLast(i, m);
    }
  }

  lemma ShownFlagAfter(zero: Contents, h: seq<Delivery>, d: Delivery, m: Member)
    requires Complete(zero)
    ensures ShownFlag(zero, h + [d], m)
         == if m == d.member == BeagleError then 0 else ShownFlag(zero, if h == [] then [] else h[..|h| - 1], m)
  {
    if h != [] {
      assert (h + [d])[..|h| + 1 - 2] == h[..|h| - 1];
    }
  }

  /** A copy holds what the run h shows. */
  ghost predicate Shows(zero: Contents, h: seq<Delivery>, c: Contents)
    requires Complete(zero)
  {
    Complete(c) && forall m: Member :: c[m].bytes == Shown(zero, h, m) && c[m].newData == ShownFlag(zero, h, m)
  }

  function Earlier(h: seq<Delivery>): seq<Delivery> {
    if h == [] then [] else h[..|h| - 1]
  }

  lemma LastIsShown(zero: Contents, h: seq<Delivery>, c: Contents, m: Member, k: nat)
    requires Complete(zero) && Shows(zero, h, c) && IsLastOf(h, m, k) && (|h| - 1 - k) % 2 == 0
    ensures c[m].bytes == h[k].bytes
  {
    LastIsSeenWhenEven(h, m, k);
    assert c[m].bytes == Shown(zero, h, m);
  }

  /** A delivery into the copy that was shown one delivery earlier makes it the one to be shown. */
  lemma DeliveryShows(zero: Contents, h: seq<Delivery>, c: Contents, d: Delivery)
    requires Complete(zero) && Shows(zero, Earlier(h), c)
    ensures var flag := if d.member == BeagleError then 0 else c[d.member].newData;
            Shows(zero, h + [d], c[d.member := Struct(d.bytes, flag)]) && Earlier(h + [d]) == h
  {
    forall m: Member
      ensures Shown(zero, h + [d], m) == if m == d.member then d.bytes else Shown(zero, Earlier(h), m)
      ensures ShownFlag(zero, h + [d], m) == if m == d.member == BeagleError then 0 else ShownFlag(zero, Earlier(h), m)
    {
      ShownAfter(zero, h, d, m);
      ShownFlagAfter(zero, h, d, m);
    }
  }

  /** The error of the first failed test, or the member for sender and id. */
  ghost function Result(stream: seq<byte>): Routed
    requires |stream| >= 255
  {
    if stream[0] != START_BYTE then No(StartByteError)
    else if !Sealed(stream[..stream[1]]) then No(ChecksumError)
    else Route(stream[2], stream[3])
  }

  /** What stands in a buffer that begins with a stamped frame. */
  lemma EncodedStream(stream: seq<byte>, sender: byte, id: byte, message: seq<byte>, stamp: seq<byte>)
    requires |message| <= 233 && |stamp| == STAMP_SIZE && |stream| >= |message| + 22
    requires stream[..|message| + 22] == Stamped(Frame(sender, id, message), stamp)
    ensures stream[1] == |message| + 22 && stream[2] == sender && stream[3] == id
    ensures Sealed(stream[..stream[1]])
    ensures stream[4..4 + |message| + STAMP_SIZE] == message + stamp
  {
    var n, frame := |message|, stream[..|message| + 22];
    FrameIsSealed(sender, id, message);
    StripUndoesStamp(Frame(sender, id, message), stamp);
    StampedLayout(sender, id, message, stamp);
    assert frame[1] == n + 22 && frame[2] == sender && frame[3] == id;
    assert frame[4..4 + n + STAMP_SIZE] == message + stamp;
  }

  /** A buffer that begins with an encoded message is decoded into the member for its ids. */
  lemma EncodedIsRouted(stream: seq<byte>, sender: byte, id: byte, message: seq<byte>, stamp: seq<byte>)
    requires |message| <= 233 && |stamp| == STAMP_SIZE && |stream| >= 255
    requires stream[..|message| + 22] == Stamped(Frame(sender, id, message), stamp)
    ensures stream[1] >= 2 && Result(stream) == Route(sender, id)
    ensures stream[4..4 + |message| + STAMP_SIZE] == message + stamp
  {
    EncodedStream(stream, sender, id, message, stamp);
    assert stream[..stream[1]][0] == stream[0];
  }

  /** One of the two static copies. */
  class Data {
    var members: Contents

    constructor (members: Contents)
      ensures this.members == members
    {
      this.members := members;
    }
  }

  class Decoder {
    var readData: Data
    var writeData: Data
    ghost const zero: Contents
    ghost var h: seq<Delivery>

    /** The copies are never the same one; the reader's holds what the run so far shows, the
        writer's what it showed one delivery earlier. */
    ghost predicate Valid()
      reads this, readData, writeData
    {
      && readData != writeData
      && Complete(zero)
      && Shows(zero, h, readData.members) && Shows(zero, Earlier(h), writeData.members)
    }

    /** The last message to a member is in the reader's copy if it came an even number of
        deliveries ago, and otherwise in the writer's. */
    lemma LastIsInOneCopy(m: Member, k: nat)
      requires Valid() && IsLastOf(h, m, k)
      ensures (|h| - 1 - k) % 2 == 0 ==> readData.members[m].bytes == h[k].bytes
      ensures (|h| - 1 - k) % 2 == 1 ==> writeData.members[m].bytes == h[k].bytes
    {
      if (|h| - 1 - k) % 2 == 0 {
        LastIsShown(zero, h, readData.members, m, k);
      } else {
        assert IsLastOf(Earlier(h), m, k) && |Earlier(h)| == |h| - 1;
        LastIsShown(zero, Earlier(h), writeData.members, m, k);
      }
    }

    /** init_decoding, with both copies as they are at start-up */
    constructor (zero: Contents)
      requires Complete(zero)
      ensures Valid() && fresh(readData) && fresh(writeData) && h == []
    {
      this.zero := zero;
      h := [];
      var ping := new Data(zero);
      var pong := new Data(zero);
      readData := ping;
      writeData := pong;
    }

    /** switch_read_write */
    method Switch()
      modifies this`readData, this`writeData
      ensures readData == old(writeData) && writeData == old(readData)
    {
      var temp := readData;
      readData := writeData;
      writeData := temp;
    }

    /** data_decode, on a receive buffer that holds a frame at its front */
    method Decode(stream: array<byte>) returns (r: Routed)
      requires Complete(writeData.members) && stream.Length >= 255 && 2 <= stream[1]
      modifies writeData
      ensures Complete(writeData.members)
      ensures r == Result(stream[..])
      ensures r.No? ==> writeData.members == old(writeData.members)
      ensures r.To? ==> writeData.members == old(writeData.members)[r.member :=
                          Filled(old(writeData.members)[r.member], r.member, stream[..])]
    {
      var length := stream[1];
      if stream[0] != START_BYTE {
        return No(StartByteError);
      }
      var checksum1, checksum2 := CalculateChecksum(stream);
      assert Body(stream[..], length) == Body(stream[..length], length);
      assert stream[..][..length] == stream[..length];
      if checksum1 != stream[length - 2] || checksum2 != stream[length - 1] {
        return No(ChecksumError);
      }
      r := Route(stream[2], stream[3]);
      if r.To? {
        var m := r.member;
        var bytes := stream[4..4 + PayloadSize(m) + STAMP_SIZE];
        writeData.members := writeData.members[m := writeData.members[m].(bytes := bytes)];
        if m == BeagleError {
          writeData.members := writeData.members[m := writeData.members[m].(newData := 0)];
        }
      }
    }

    /** The receiving loop of main_server.c: decode, and switch only if that succeeded. */
    method Receive(stream: array<byte>) returns (r: Routed)
      requires Valid() && stream.Length >= 255 && 2 <= stream[1]
      modifies this, writeData
      ensures Valid()
      ensures {readData, writeData} == {old(readData), old(writeData)}
      ensures r.No? ==> readData == old(readData) && readData.members == old(readData.members)
                        && writeData.members == old(writeData.members)
      ensures r.To? ==> writeData.members == old(readData.members)
                        && readData.members == old(writeData.members)[r.member :=
                             Filled(old(writeData.members)[r.member], r.member, stream[..])]
      ensures r == Result(stream[..])
      ensures h == if r.No? then old(h)
                   else old(h) + [Delivery(r.member, stream[4..4 + PayloadSize(r.member) + STAMP_SIZE])]
    {
      r := Decode(stream);
      if r.To? {
        Switch();
        ghost var d := Delivery(r.member, stream[4..4 + PayloadSize(r.member) + STAMP_SIZE]);
        DeliveryShows(zero, h, old(writeData.members), d);
        h := h + [d];
      }
    }

    /** data_encode, with what data_decode will make of the buffer. */
    static method Encode(message: array<byte>, stream: array<byte>, senderId: byte, messageId: byte, now: Clock)
      requires message != stream && stream.Length >= 255 && message.Length <= 233
      modifies stream
      ensures stream[1] >= 2 && Result(stream[..]) == Route(senderId, messageId)
      ensures stream[4..4 + message.Length + STAMP_SIZE] == message[..] + Timestamp(now)
    {
      var n := message.Length;
      DataEncode(message, n, stream, senderId, messageId, now);
      assert message[..n] == message[..];
      assert stream[..][..n + 22] == stream[..n + 22];
      EncodedIsRouted(stream[..], senderId, messageId, message[..], Timestamp(now));
    }

    /** Delivery: if the message has the size of its struct, then what data_encode put into
        a frame is what the reader finds after the frame has been decoded and the copies
        switched, timestamp included. */
    method Deliver(message: array<byte>, stream: array<byte>, senderId: byte, messageId: byte, now: Clock)
        returns (m: Member)
      requires Valid() && message != stream && stream.Length >= 255
      requires Route(senderId, messageId).To?
      requires message.Length == PayloadSize(Route(senderId, messageId).member)
      modifies this, writeData, stream
      ensures Valid() && m == Route(senderId, messageId).member
      ensures readData.members[m].bytes == message[..] + Timestamp(now)
      ensures forall k :: k != m ==> readData.members[k] == old(writeData.members)[k]
      ensures writeData.members == old(readData.members)
    {
      Encode(message, stream, senderId, messageId, now);
      var r := Receive(stream);
      m := r.member;
    }
  }
}
