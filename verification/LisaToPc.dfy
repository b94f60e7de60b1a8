/** bbones/planebone/main_plane.c, lisa_to_pc: one frame from the serial line through the
    timestamp to the network and into the log ring. */
module LisaToPc {
  import opened Wrappers
  import opened Checksum
  import opened Framing
  import opened LoggerProtocol
  import opened SerialInput
  import opened Replay
  import opened MainPlane

  /** The element that is stored for a frame: the frame, over what was there before. */
  function Overlay(f: seq<byte>, stale: seq<byte>): seq<byte>
    requires |f| <= |stale|
  {
    f + stale[|f|..]
  }

  lemma OverlayCarries(f: seq<byte>, stale: seq<byte>)
    requires Sealed(f) && |stale| == 256
    ensures Logged(Overlay(f, stale)) == f && CarriesFrame(Overlay(f, stale))
  {
    assert Overlay(f, stale)[1] == f[1];
  }

  /** After a frame the bytes behind it are left; after an error a flush may have dropped some. */
  ghost predicate LeftBehind(r: (Outcome, seq<byte>), pending: seq<byte>) {
    if r.0.Received? then pending == r.1 else exists k :: 0 <= k <= |r.1| && pending == r.1[k..]
  }

  /** The first half of a pass: receive a frame and stamp it; n is what would be sent. */
  method ReceiveAndStamp(port: SerialPort, buffer: array<byte>, now: Clock) returns (n: int)
    requires buffer.Length == 255
    requires var o := Receive(port.pending).0; !o.NegativeRead? && (o.Received? ==> |o.frame| <= 239)
    modifies port, buffer
    ensures n > 0 <==> Receive(old(port.pending)).0.Received?
    ensures n > 0 ==>
      n <= 255 && buffer[..n] == Stamped(Receive(old(port.pending)).0.frame, Timestamp(now))
    ensures LeftBehind(Receive(old(port.pending)), port.pending)
  {
    n := GetLisaData(port, buffer);
    if n > 0 {
      assert buffer[..n][1] == buffer[1];
      ghost var k := ReceivedIsASealedPiece(old(port.pending));
      n := AddTimestamp(buffer, now);
    }
  }

  predicate Full<T>(v: Link<T>)
    requires v.sh.Valid()
  {
    v.sh.Get(v.sh.write).IsFull()
  }

  /** The state in which a frame is not taken, and lisa_to_pc calls exit. */
  predicate Busy<T>(v: Link<T>)
    requires v.sh.Valid()
  {
    Full(v) && v.sh.flag
  }

  /** Exactly then is the frame counted as lost. */
  lemma BusyIsNotReady<T>(v: Link<T>, x: T)
    requires v.sh.Valid()
    ensures WriterBody(v, x).notReady == v.notReady + 1 <==> Busy(v)
  {
  }

  /** What is offered to a full ring does not matter. */
  lemma FullRingTakesNothing<T>(v: Link<T>, x: T, y: T)
    requires v.sh.Valid() && (v.sh.Get(v.sh.write).IsFull() || x == y)
    ensures WriterBody(v, x) == WriterBody(v, y)
  {
  }

  /** The second half: copy the frame into the element and offer it to the log ring. */
  method Log(buffer: array<byte>, n: nat, elem: array<byte>, path: LoggingPath<seq<byte>>)
      returns (exits: bool)
    requires n <= buffer.Length <= 255 && elem.Length == 256 && buffer != elem
    requires path.Valid()
    modifies elem, path, path.ping, path.pong, path.ping.elems, path.pong.elems
    ensures path.Valid() && path.View() == WriterBody(old(path.View()), Overlay(buffer[..n], old(elem[..])))
    ensures path.ping.elems == old(path.ping.elems) && path.pong.elems == old(path.pong.elems)
    ensures exits <==> Busy(old(path.View()))
    ensures elem[..] == if Full(old(path.View())) then old(elem[..]) else Overlay(buffer[..n], old(elem[..]))
  {
    ghost var b, v := buffer[..n], path.View();
    ghost var x := Overlay(b, elem[..]);
    assert v == old(path.View());
    var full := path.cbWrite.IsFull();
    if !full {
      forall i | 0 <= i < n {
        elem[i] := buffer[i];
      }
      assert elem[..] == x;
    }
    assert path.View() == v && (full <==> v.sh.Get(v.sh.write).IsFull());
    FullRingTakesNothing(v, elem[..], x);
    BusyIsNotReady(v, elem[..]);
    exits := path.WriterPass(elem[..]);
    assert buffer[..n] == b;
  }

  /** One pass of the loop of lisa_to_pc. `elem` is the local cb_elem, whose bytes survive from
      pass to pass; `exits` says that exit is called. A frame longer than 239 bytes does not
      leave room for the timestamp. */
  method Pass(port: SerialPort, buffer: array<byte>, elem: array<byte>, path: LoggingPath<seq<byte>>, now: Clock)
      returns (sent: Option<seq<byte>>, exits: bool)
    requires buffer.Length == 255 && elem.Length == 256 && buffer != elem
    requires path.Valid()
    requires var o := Receive(port.pending).0; !o.NegativeRead? && (o.Received? ==> |o.frame| <= 239)
    modifies port, buffer, elem, path, path.ping, path.pong, path.ping.elems, path.pong.elems
    ensures path.Valid() && path.ping.elems == old(path.ping.elems) && path.pong.elems == old(path.pong.elems)
    ensures var o := Receive(old(port.pending)).0;
            if o.Received? then
              var g := Stamped(o.frame, Timestamp(now));
              && sent == Some(g) && path.View() == WriterBody(old(path.View()), Overlay(g, old(elem[..])))
              && elem[..] == if Full(old(path.View())) then old(elem[..]) else Overlay(g, old(elem[..]))
            else sent == None && path.View() == old(path.View()) && elem[..] == old(elem[..])
    ensures exits <==> Receive(old(port.pending)).0.Received? && Busy(old(path.View()))
    ensures LeftBehind(Receive(old(port.pending)), port.pending)
  {
    var n := ReceiveAndStamp(port, buffer, now);
    if n > 0 {
      sent := Some(buffer[..n]);
      exits := Log(buffer, n, elem, path);
    } else {
      sent, exits := None, false;
    }
  }

  /** Every element that a pass can offer carries the stamped frame, sealed. */
  lemma PassOffersASealedFrame(s: seq<byte>, stamp: seq<byte>, stale: seq<byte>)
    requires Receive(s).0.Received? && |Receive(s).0.frame| <= 239 && |stamp| == STAMP_SIZE && |stale| == 256
    ensures 4 <= |Receive(s).0.frame|
    ensures var g := Stamped(Receive(s).0.frame, stamp);
            |g| <= 256 && Logged(Overlay(g, stale)) == g && CarriesFrame(Overlay(g, stale))
  {
    var k := ReceivedIsASealedPiece(s);
    var f := Receive(s).0.frame;
    StripUndoesStamp(f, stamp);
    OverlayCarries(Stamped(f, stamp), stale);
  }
}
