/** bbones/shared/uart_communication.c: finding frames in the bytes of the serial line. */
module SerialInput {
  import opened Checksum
  import opened Framing

  const ERR_READ_START_BYTE := -5
  const ERR_READ_CHECKSUM := -4
  const ERR_READ_LENGTH := -3
  const ERR_READ_MESSAGE := -2

  /** A length byte below 2 makes the source ask for a negative number of bytes;
      what happens then is not part of this model. */
  datatype Outcome = Received(frame: seq<byte>) | Failed(code: int) | NegativeRead

  ghost predicate ChecksMatch(f: seq<byte>)
    requires |f| >= 2
  {
    Check1(Body(f, |f|)) == f[|f| - 2] && Check2(Body(f, |f|)) == f[|f| - 1]
  }

  /** What one call makes of the pending bytes, and which of them it leaves before any flush. */
  ghost function Receive(s: seq<byte>): (r: (Outcome, seq<byte>))
    ensures r.0.Received? ==> 4 <= |r.0.frame| < 256
    ensures s != [] ==> |r.1| < |s|
    ensures r.0.Failed? ==> r.0.code < 0
  {
    if s == [] then (Failed(ERR_READ_START_BYTE), [])
    else if s[0] != START_BYTE then Receive(s[1..])
    else if |s| == 1 then (Failed(ERR_READ_LENGTH), [])
    else if s[1] < 2 then (NegativeRead, s[2..])
    else if |s| == 2 || |s| < s[1] then (Failed(ERR_READ_MESSAGE), s[2..])
    else if ChecksMatch(s[..s[1]]) then (Received(s[..s[1]]), s[s[1]..])
    else (Failed(ERR_READ_CHECKSUM), s[s[1]..])
  }

  /** The device: `pending` are the bytes it will still deliver. That a read they cannot serve
      fails stands for the end of the stream: the source would go on polling. */
  class SerialPort {
    var pending: seq<byte>

    constructor (bytes: seq<byte>)
      ensures pending == bytes
    {
      pending := bytes;
    }

    /** serial_port_read into buffer[at..at + n] */
    method Read(buffer: array<byte>, at: nat, n: nat) returns (ok: bool)
      requires at + n <= buffer.Length
      modifies this, buffer
      ensures ok <==> old(pending) != [] && n <= |old(pending)|
      ensures ok ==> pending == old(pending)[n..]
      ensures ok ==> buffer[..] == old(buffer[..at]) + old(pending)[..n] + old(buffer[at + n..])
      ensures !ok ==> pending == old(pending) && buffer[..] == old(buffer[..])
    {
      ok := pending != [] && n <= |pending|;
      if ok {
        forall i | 0 <= i < n {
          buffer[at + i] := pending[i];
        }
        pending := pending[n..];
      }
    }

    /** tcflush drops whatever the line has buffered at that moment: any number of bytes. */
    method FlushInput()
      modifies this
      ensures exists k :: 0 <= k <= |old(pending)| && pending == old(pending)[k..]
    {
      var k :| 0 <= k <= |pending|;
      pending := pending[k..];
    }
  }

  /** What a call returns and leaves behind, given the bytes s it starts from. */
  ghost predicate Answers(s: seq<byte>, r: int, buffer: seq<byte>, pending: seq<byte>)
    requires !Receive(s).0.NegativeRead?
  {
    var (o, rest) := Receive(s);
    if o.Received? then 0 < r == |o.frame| <= |buffer| && buffer[..r] == o.frame && pending == rest
    else r == o.code < 0 && exists k :: 0 <= k <= |rest| && pending == rest[k..]
  }

  /** serial_input_get_lisa_data, from the search for the start byte */
  method GetLisaData(port: SerialPort, buffer: array<byte>) returns (r: int)
    requires buffer.Length >= 255
    requires !Receive(port.pending).0.NegativeRead?
    modifies port, buffer
    ensures Answers(old(port.pending), r, buffer[..], port.pending)
  {
    ghost var all := port.pending;
    ghost var expected := Receive(all);
    var ok := port.Read(buffer, 0, 1);
    if !ok {
      port.FlushInput();
      return ERR_READ_START_BYTE;
    }
    assert [buffer[0]] + port.pending == all;
    while buffer[0] != START_BYTE
      invariant Receive([buffer[0]] + port.pending) == expected
      decreases |port.pending|
    {
      assert ([buffer[0]] + port.pending)[1..] == port.pending;
      ghost var before := port.pending;
      ok := port.Read(buffer, 0, 1);
      if !ok {
        port.FlushInput();
        return ERR_READ_START_BYTE;
      }
      assert [buffer[0]] + port.pending == before;
    }
    r := ReadFromLength(port, buffer);
  }

  /** The rest of serial_input_get_lisa_data, once buffer[0] is the start byte. */
  method ReadFromLength(port: SerialPort, buffer: array<byte>) returns (r: int)
    requires buffer.Length >= 255 && buffer[0] == START_BYTE
    requires !Receive([START_BYTE] + port.pending).0.NegativeRead?
    modifies port, buffer
    ensures Answers([START_BYTE] + old(port.pending), r, buffer[..], port.pending)
  {
    ghost var s, pending := [START_BYTE] + port.pending, port.pending;
    var ok := port.Read(buffer, 1, 1);
    if !ok {
      port.FlushInput();
      assert s == [START_BYTE] && port.pending == [][0..];
      return ERR_READ_LENGTH;
    }
    assert s == [START_BYTE, buffer[1]] + port.pending by {
      assert pending == [pending[0]] + pending[1..];
    }
    r := ReadMessage(port, buffer, s);
  }

  /** The rest, once buffer[1] is the length. */
  method ReadMessage(port: SerialPort, buffer: array<byte>, ghost s: seq<byte>) returns (r: int)
    requires buffer.Length >= 255 && buffer[0] == START_BYTE && buffer[1] >= 2
    requires s == [START_BYTE, buffer[1]] + port.pending
    modifies port, buffer
    ensures Answers(s, r, buffer[..], port.pending)
  {
    var messageLength := buffer[1];
    assert port.pending == s[2..];
    var ok := port.Read(buffer, 2, messageLength - 2);
    if !ok {
      port.FlushInput();
      return ERR_READ_MESSAGE;
    }
    assert buffer[..messageLength] == s[..messageLength] && port.pending == s[messageLength..];
    var good := TestChecks(buffer);
    if !good {
      port.FlushInput();
      return ERR_READ_CHECKSUM;
    }
    return messageLength;
  }

  /** The checksum test, for which the source repeats the loop of calculate_checksum. */
  method TestChecks(buffer: array<byte>) returns (good: bool)
    requires buffer.Length >= 2 && 2 <= buffer[1] <= buffer.Length
    ensures good <==> ChecksMatch(buffer[..buffer[1]])
  {
    var messageLength := buffer[1];
    var checksum1, checksum2 := CalculateChecksum(buffer);
    assert Body(buffer[..], messageLength) == Body(buffer[..messageLength], messageLength);
    good := buffer[messageLength - 2] == checksum1 && buffer[messageLength - 1] == checksum2;
  }

  /** Frames too short to hold a sender and an id never match. */
  lemma MatchIsSealed(f: seq<byte>)
    requires 2 <= |f| < 256 && f[0] == START_BYTE && f[1] == |f| && ChecksMatch(f)
    ensures Sealed(f)
  {
    assert PlainSum([]) == 0;
  }

  /** f stands at position k of s, with no start byte before it and `rest` behind it. */
  ghost predicate PieceAt(s: seq<byte>, k: nat, f: seq<byte>, rest: seq<byte>) {
    && k + |f| <= |s| && s[k..k + |f|] == f && s[k + |f|..] == rest
    && forall i :: 0 <= i < k ==> s[i] != START_BYTE
  }

  lemma PieceShift(s: seq<byte>, k: nat, f: seq<byte>, rest: seq<byte>)
    requires s != [] && s[0] != START_BYTE && PieceAt(s[1..], k, f, rest)
    ensures PieceAt(s, k + 1, f, rest)
  {
    assert s == [s[0]] + s[1..];
  }

  /** Whatever is received is a sealed, contiguous piece of the pending bytes, and
      starts at the first start byte among them. */
  lemma {:induction false} ReceivedIsASealedPiece(s: seq<byte>) returns (k: nat)
    requires Receive(s).0.Received?
    ensures Sealed(Receive(s).0.frame) && PieceAt(s, k, Receive(s).0.frame, Receive(s).1)
  {
    if s[0] != START_BYTE {
      k := ReceivedIsASealedPiece(s[1..]);
      PieceShift(s, k, Receive(s).0.frame, Receive(s).1);
      k := k + 1;
    } else {
      k := 0;
      MatchIsSealed(s[..s[1]]);
    }
  }

  /** A sealed frame behind noise without start bytes is received whole. */
  lemma {:induction false} FrameBehindNoise(noise: seq<byte>, f: seq<byte>, rest: seq<byte>)
    requires START_BYTE !in noise && Sealed(f)
    ensures Receive(noise + (f + rest)) == (Received(f), rest)
  {
    var s := noise + (f + rest);
    if noise == [] {
      assert s == f + rest;
      assert s[..s[1]] == f && s[s[1]..] == rest;
    } else {
      assert s[1..] == noise[1..] + (f + rest);
      FrameBehindNoise(noise[1..], f, rest);
    }
  }

  /** A message of the announced length with wrong check bytes is read and rejected whole. */
  lemma {:induction false} BadFrameIsRejected(noise: seq<byte>, f: seq<byte>, rest: seq<byte>)
    requires START_BYTE !in noise && 2 <= |f| < 256 && f[0] == START_BYTE && f[1] == |f| && !ChecksMatch(f)
    requires |f + rest| >= 3
    ensures Receive(noise + (f + rest)) == (Failed(ERR_READ_CHECKSUM), rest)
  {
    var s := noise + (f + rest);
    if noise == [] {
      assert s == f + rest;
      assert s[..s[1]] == f && s[s[1]..] == rest;
    } else {
      assert s[1..] == noise[1..] + (f + rest);
      BadFrameIsRejected(noise[1..], f, rest);
    }
  }

  /** If the bytes end within a message, the step that lacks them fails, and what has not been read
      is left. */
  lemma {:induction false} CutFrameIsRejected(noise: seq<byte>, f: seq<byte>)
    requires START_BYTE !in noise && f != [] && f[0] == START_BYTE
    requires |f| >= 2 ==> 2 <= f[1] && (|f| < f[1] || |f| == 2)
    ensures Receive(noise + f) == if |f| == 1 then (Failed(ERR_READ_LENGTH), []) else (Failed(ERR_READ_MESSAGE), f[2..])
  {
    if noise == [] {
      assert noise + f == f;
    } else {
      assert (noise + f)[1..] == noise[1..] + f;
      CutFrameIsRejected(noise[1..], f);
    }
  }

  lemma {:induction false} OnlyNoise(noise: seq<byte>)
    requires START_BYTE !in noise
    ensures Receive(noise) == (Failed(ERR_READ_START_BYTE), [])
  {
    if noise != [] {
      OnlyNoise(noise[1..]);
    }
  }

  /** Repeated calls until the first one that does not return a frame. */
  ghost function ReceiveAll(s: seq<byte>): (seq<seq<byte>>, Outcome)
    decreases |s|
  {
    var (o, rest) := Receive(s);
    if o.Received? then
      var (fs, stop) := ReceiveAll(rest);
      ([o.frame] + fs, stop)
    else ([], o)
  }

  /** The frames with a stretch of noise before, between and after them. */
  function Stream(noise: seq<seq<byte>>, frames: seq<seq<byte>>): seq<byte>
    requires |noise| == |frames| + 1
    decreases |frames|
  {
    if frames == [] then noise[0]
    else noise[0] + (frames[0] + Stream(noise[1..], frames[1..]))
  }

  lemma ReceiveAllStep(s: seq<byte>, f: seq<byte>, rest: seq<byte>, fs: seq<seq<byte>>, stop: Outcome)
    requires Receive(s) == (Received(f), rest) && ReceiveAll(rest) == (fs, stop)
    ensures ReceiveAll(s) == ([f] + fs, stop)
  {
  }

  lemma StreamStep(noise: seq<seq<byte>>, frames: seq<seq<byte>>)
    requires |noise| == |frames| + 1 && frames != []
    requires START_BYTE !in noise[0] && Sealed(frames[0])
    requires ReceiveAll(Stream(noise[1..], frames[1..])) == (frames[1..], Failed(ERR_READ_START_BYTE))
    ensures ReceiveAll(Stream(noise, frames)) == (frames, Failed(ERR_READ_START_BYTE))
  {
    var rest := Stream(noise[1..], frames[1..]);
    FrameBehindNoise(noise[0], frames[0], rest);
    ReceiveAllStep(Stream(noise, frames), frames[0], rest, frames[1..], Failed(ERR_READ_START_BYTE));
    assert [frames[0]] + frames[1..] == frames;
  }

  /** Repeated calls return exactly the frames of the stream, in order, and stop
      when its bytes run out. */
  lemma {:induction false} StreamIsParsedExactly(noise: seq<seq<byte>>, frames: seq<seq<byte>>)
    requires |noise| == |frames| + 1
    requires forall i :: 0 <= i < |noise| ==> START_BYTE !in noise[i]
    requires forall i :: 0 <= i < |frames| ==> Sealed(frames[i])
    ensures ReceiveAll(Stream(noise, frames)) == (frames, Failed(ERR_READ_START_BYTE))
    decreases |frames|
  {
    if frames == [] {
      OnlyNoise(noise[0]);
    } else {
      StreamIsParsedExactly(noise[1..], frames[1..]);
      StreamStep(noise, frames);
    }
  }

  /** A stripped frame is one the serial line accepts. */
  lemma StrippedFrameIsReceived(g: seq<byte>, rest: seq<byte>)
    requires Sealed(g) && |g| >= 20
    ensures Receive(Stripped(g) + rest) == (Received(Stripped(g)), rest)
  {
    StampUndoesStrip(g);
    FrameBehindNoise([], Stripped(g), rest);
    assert [] + (Stripped(g) + rest) == Stripped(g) + rest;
  }

  // ---- The loop that goes on after errors ----

  /** No start byte is followed by a length for which a negative number of bytes would be read. */
  ghost predicate NoShortLength(s: seq<byte>) {
    forall i :: 0 <= i && i + 1 < |s| && s[i] == START_BYTE ==> s[i + 1] >= 2
  }

  lemma {:induction false} NeverNegative(s: seq<byte>)
    requires NoShortLength(s)
    ensures !Receive(s).0.NegativeRead?
  {
    if s != [] && s[0] != START_BYTE {
      NeverNegative(s[1..]);
    }
  }

  /** Whatever a call returns, it leaves the end of what was pending. */
  lemma {:induction false} RestIsASuffix(s: seq<byte>) returns (k: nat)
    ensures k <= |s| && Receive(s).1 == s[k..]
  {
    if s != [] && s[0] != START_BYTE {
      k := RestIsASuffix(s[1..]);
      k := k + 1;
    } else {
      k := |s| - |Receive(s).1|;
    }
  }

  /** Calling until nothing is pending can return these frames, for some choice of what is
      dropped by the flush that follows each error. */
  ghost predicate CanReturn(s: seq<byte>, frames: seq<seq<byte>>)
    decreases |s|
  {
    if s == [] then frames == []
    else
      var (o, rest) := Receive(s);
      if o.Received? then frames != [] && frames[0] == o.frame && CanReturn(rest, frames[1..])
      else exists k :: 0 <= k <= |rest| && CanReturn(rest[k..], frames)
  }

  /** The frames begin with those before the first error, and are these if the error is that
      the bytes ran out. */
  lemma {:induction false} ReturnsAllBeforeTheFirstError(s: seq<byte>, frames: seq<seq<byte>>)
    requires CanReturn(s, frames)
    ensures var (first, stop) := ReceiveAll(s);
            first <= frames && (stop == Failed(ERR_READ_START_BYTE) ==> frames == first)
    decreases |s|
  {
    if Receive(s).0.Received? {
      ReturnsAllBeforeTheFirstError(Receive(s).1, frames[1..]);
      assert frames == [frames[0]] + frames[1..];
    } else if Receive(s).0 == Failed(ERR_READ_START_BYTE) {
      OutOfBytes(s);
    }
  }

  lemma {:induction false} OutOfBytes(s: seq<byte>)
    requires Receive(s).0 == Failed(ERR_READ_START_BYTE)
    ensures Receive(s).1 == []
  {
    if s != [] {
      OutOfBytes(s[1..]);
    }
  }

  /** Over noise without start bytes, interleaved with sealed frames, the loop returns
      exactly the frames. */
  lemma NoisyStreamIsReturned(noise: seq<seq<byte>>, frames: seq<seq<byte>>, returned: seq<seq<byte>>)
    requires |noise| == |frames| + 1
    requires forall i :: 0 <= i < |noise| ==> START_BYTE !in noise[i]
    requires forall i :: 0 <= i < |frames| ==> Sealed(frames[i])
    requires CanReturn(Stream(noise, frames), returned)
    ensures returned == frames
  {
    StreamIsParsedExactly(noise, frames);
    ReturnsAllBeforeTheFirstError(Stream(noise, frames), returned);
  }

  /** The frames are sealed pieces of s, one behind the other. */
  ghost predicate SealedPieces(s: seq<byte>, frames: seq<seq<byte>>)
    decreases |frames|, 1
  {
    frames == [] || (Sealed(frames[0]) && exists k :: FirstPieceAt(s, k, frames))
  }

  ghost predicate FirstPieceAt(s: seq<byte>, k: int, frames: seq<seq<byte>>)
    requires frames != []
    decreases |frames|, 0
  {
    FrameAt(s, k, frames[0]) && SealedPieces(s[k + |frames[0]|..], frames[1..])
  }

  ghost predicate FrameAt(s: seq<byte>, k: int, f: seq<byte>) {
    0 <= k && k + |f| <= |s| && s[k..k + |f|] == f
  }

  lemma PieceFirst(s: seq<byte>, k: nat, frames: seq<seq<byte>>)
    requires frames != [] && Sealed(frames[0]) && FrameAt(s, k, frames[0])
    requires SealedPieces(s[k + |frames[0]|..], frames[1..])
    ensures SealedPieces(s, frames)
  {
    assert FirstPieceAt(s, k, frames);
  }

  lemma SuffixOfSuffix(s: seq<byte>, d: nat, k: nat)
    requires d + k <= |s|
    ensures s[d..][k..] == s[d + k..]
  {
  }

  lemma FrameOfASuffix(s: seq<byte>, d: nat, k: int, f: seq<byte>)
    requires d <= |s| && FrameAt(s[d..], k, f)
    ensures FrameAt(s, d + k, f) && s[d..][k + |f|..] == s[d + k + |f|..]
  {
    assert s[d..][k..k + |f|] == s[d + k..d + k + |f|];
    SuffixOfSuffix(s, d, k + |f|);
  }

  lemma PiecesOfASuffix(s: seq<byte>, d: nat, frames: seq<seq<byte>>)
    requires d <= |s| && SealedPieces(s[d..], frames)
    ensures SealedPieces(s, frames)
  {
    if frames != [] {
      var k :| FirstPieceAt(s[d..], k, frames);
      FrameOfASuffix(s, d, k, frames[0]);
      PieceFirst(s, d + k, frames);
    }
  }

  lemma ReceivedPieceFirst(s: seq<byte>, frames: seq<seq<byte>>)
    requires Receive(s).0.Received? && frames != [] && frames[0] == Receive(s).0.frame
    requires SealedPieces(Receive(s).1, frames[1..])
    ensures SealedPieces(s, frames)
  {
    var k := ReceivedIsASealedPiece(s);
    assert FrameAt(s, k, frames[0]);
    PieceFirst(s, k, frames);
  }

  lemma PiecesOfWhatIsLeft(s: seq<byte>, k: nat, frames: seq<seq<byte>>)
    requires k <= |Receive(s).1| && SealedPieces(Receive(s).1[k..], frames)
    ensures SealedPieces(s, frames)
  {
    var d := RestIsASuffix(s);
    SuffixOfSuffix(s, d, k);
    PiecesOfASuffix(s, d + k, frames);
  }

  /** Whatever flushes drop, only sealed pieces of the stream are returned, in order. */
  lemma {:induction false} ReturnsSealedPieces(s: seq<byte>, frames: seq<seq<byte>>)
    requires CanReturn(s, frames)
    ensures SealedPieces(s, frames)
    decreases |s|
  {
    if s != [] {
      var (o, rest) := Receive(s);
      if o.Received? {
        ReturnsSealedPieces(rest, frames[1..]);
        ReceivedPieceFirst(s, frames);
      } else {
        var k :| 0 <= k <= |rest| && CanReturn(rest[k..], frames);
        ReturnsSealedPieces(rest[k..], frames);
        PiecesOfWhatIsLeft(s, k, frames);
      }
    }
  }

  /** What a call has left behind, before any more calls. */
  lemma AnswerIsAStep(s: seq<byte>, r: int, buffer: seq<byte>, pending: seq<byte>, more: seq<seq<byte>>)
    requires s != [] && NoShortLength(s) && !Receive(s).0.NegativeRead?
    requires Answers(s, r, buffer, pending) && CanReturn(pending, more)
    ensures CanReturn(s, if r > 0 then [buffer[..r]] + more else more)
  {
    if r > 0 {
      assert ([buffer[..r]] + more)[1..] == more;
    }
  }

  lemma AnswerLeavesLess(s: seq<byte>, r: int, buffer: seq<byte>, pending: seq<byte>)
    requires s != [] && NoShortLength(s) && !Receive(s).0.NegativeRead?
    requires Answers(s, r, buffer, pending)
    ensures NoShortLength(pending) && |pending| < |s|
  {
    var d := RestIsASuffix(s);
    if r <= 0 {
      var k :| 0 <= k <= |Receive(s).1| && pending == Receive(s).1[k..];
    }
  }

  /** If the calls still to come return `more`, then together they return frames + more. */
  ghost predicate SoFar(s: seq<byte>, frames: seq<seq<byte>>, pending: seq<byte>) {
    forall more :: CanReturn(pending, more) ==> CanReturn(s, frames + more)
  }

  lemma NothingSoFar(s: seq<byte>)
    ensures SoFar(s, [], s)
  {
    assert forall more: seq<seq<byte>> :: [] + more == more;
  }

  lemma OneCallMore(s: seq<byte>, frames: seq<seq<byte>>, before: seq<byte>, r: int, buffer: seq<byte>, pending: seq<byte>)
    requires SoFar(s, frames, before)
    requires before != [] && NoShortLength(before) && !Receive(before).0.NegativeRead?
    requires Answers(before, r, buffer, pending)
    ensures SoFar(s, if r > 0 then frames + [buffer[..r]] else frames, pending)
  {
    forall more | CanReturn(pending, more)
      ensures CanReturn(s, (if r > 0 then frames + [buffer[..r]] else frames) + more)
    {
      AnswerIsAStep(before, r, buffer, pending, more);
      if r > 0 {
        assert frames + [buffer[..r]] + more == frames + ([buffer[..r]] + more);
      }
    }
  }

  /** The reading side of lisa_to_pc's loop, as long as bytes are pending: it goes on after an error. */
  method ReceiveLoop(port: SerialPort, buffer: array<byte>) returns (frames: seq<seq<byte>>)
    requires buffer.Length >= 255
    requires NoShortLength(port.pending)
    modifies port, buffer
    ensures port.pending == [] && CanReturn(old(port.pending), frames)
  {
    ghost var s := port.pending;
    frames := [];
    NothingSoFar(s);
    while port.pending != []
      invariant NoShortLength(port.pending) && SoFar(s, frames, port.pending)
      decreases |port.pending|
    {
      ghost var before := port.pending;
      NeverNegative(before);
      var code := GetLisaData(port, buffer);
      AnswerLeavesLess(before, code, buffer[..], port.pending);
      OneCallMore(s, frames, before, code, buffer[..], port.pending);
      if code > 0 {
        assert buffer[..][..code] == buffer[..code];
        frames := frames + [buffer[..code]];
      }
    }
    assert CanReturn([], []) && frames + [] == frames;
  }
}
