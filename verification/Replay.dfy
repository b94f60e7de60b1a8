/** bbones/server/read_log.c: cutting a log file back into datagrams. */
module Replay {
  import opened Checksum

  /** If the file ends on a start byte, the length is EOF (-1) and the send cannot succeed. */
  datatype Packet = Datagram(data: seq<byte>) | Unsendable

  datatype Ending = EndOfFile | WrongStartByte

  /** A byte read past the end of the file: fgetc's -1, stored in a uint8_t. */
  function ByteAt(file: seq<byte>, i: nat): byte {
    if i < |file| then file[i] else 255
  }

  /** One pass of the loop: what is sent, and the file that is left. */
  function Record(file: seq<byte>): (r: (Packet, seq<byte>))
    requires file != []
    ensures |r.1| < |file|
  {
    if |file| == 1 then (Unsendable, [])
    else
      var n := file[1];
      var used := if n < 2 then 2 else n;
      (Datagram(seq(n, i requires 0 <= i => ByteAt(file, i))), if used <= |file| then file[used..] else [])
  }

  /** The whole loop. */
  function Resend(file: seq<byte>): (seq<Packet>, Ending)
    decreases |file|
  {
    if file == [] then ([], EndOfFile)
    else if file[0] != START_BYTE then ([], WrongStartByte)
    else
      var (p, rest) := Record(file);
      ([p] + Resend(rest).0, Resend(rest).1)
  }

  /** fgetc; -1 at the end of the file. */
  class File {
    const bytes: seq<byte>
    var pos: nat

    ghost predicate Valid()
      reads this
    {
      pos <= |bytes|
    }

    constructor (bytes: seq<byte>)
      ensures Valid() && this.bytes == bytes && pos == 0
    {
      this.bytes := bytes;
      pos := 0;
    }

    method GetC() returns (ch: int)
      requires Valid()
      modifies this
      ensures Valid()
      ensures old(pos) < |bytes| ==> ch == bytes[old(pos)] && pos == old(pos) + 1
      ensures old(pos) == |bytes| ==> ch == -1 && pos == old(pos)
    {
      ch := -1;
      if pos < |bytes| {
        ch := bytes[pos];
        pos := pos + 1;
      }
    }
  }

  /** The body of the loop of main, after a start byte has been read. */
  method SendRecord(f: File, buff: array<byte>) returns (p: Packet)
    requires f.Valid() && f.pos > 0 && f.bytes[f.pos - 1] == START_BYTE
    requires buff.Length == 255
    modifies f, buff
    ensures f.Valid() && (p, f.bytes[f.pos..]) == Record(old(f.bytes[f.pos - 1..]))
  {
    ghost var file, start := f.bytes[f.pos - 1..], f.pos - 1;
    buff[0] := START_BYTE;
    var length := f.GetC();
    buff[1] := length % 256;
    if length == -1 {
      assert |file| == 1 && f.bytes[f.pos..] == [];
      return Unsendable;
    }
    var i := 2;
    while i < length
      invariant f.Valid() && 2 <= i && (i <= length || i == 2)
      invariant buff[0] == START_BYTE && buff[1] == length == file[1]
      invariant forall j :: 2 <= j < i && j < 255 ==> buff[j] == ByteAt(file, j)
      invariant f.pos == if start + i <= |f.bytes| then start + i else |f.bytes|
    {
      var ch := f.GetC();
      buff[i] := ch % 256;
      i := i + 1;
    }
    assert buff[..length] == seq(length, i requires 0 <= i => ByteAt(file, i));
    assert f.bytes[f.pos..] == Record(file).1;
    return Datagram(buff[..length]);
  }

  /** The loop of main. */
  method ReadLog(bytes: seq<byte>) returns (sent: seq<Packet>, ending: Ending)
    ensures (sent, ending) == Resend(bytes)
  {
    var buff := new byte[255];
    var f := new File(bytes);
    sent, ending := [], EndOfFile;
    var ch := f.GetC();
    ghost var file := bytes;
    while ch != -1
      invariant f.Valid() && f.bytes == bytes
      invariant if file == [] then ch == -1 else f.pos > 0 && file == bytes[f.pos - 1..] && ch == file[0]
      invariant sent + Resend(file).0 == Resend(bytes).0 && Resend(file).1 == Resend(bytes).1
      decreases |file|
    {
      if ch != START_BYTE {
        assert sent + [] == sent;
        return sent, WrongStartByte;
      }
      var p := SendRecord(f, buff);
      sent := sent + [p];
      file := bytes[f.pos..];
      ch := f.GetC();
    }
    assert sent + [] == sent;
  }

  function Concat(frames: seq<seq<byte>>): seq<byte> {
    if frames == [] then [] else frames[0] + Concat(frames[1..])
  }

  function Datagrams(frames: seq<seq<byte>>): seq<Packet> {
    seq(|frames|, i requires 0 <= i < |frames| => Datagram(frames[i]))
  }

  lemma ResendStep(file: seq<byte>, p: Packet, rest: seq<byte>)
    requires file != [] && file[0] == START_BYTE && Record(file) == (p, rest)
    ensures Resend(file) == ([p] + Resend(rest).0, Resend(rest).1)
  {
  }

  lemma FrameFirst(f: seq<byte>, rest: seq<byte>)
    requires Sealed(f)
    ensures Resend(f + rest) == ([Datagram(f)] + Resend(rest).0, Resend(rest).1)
  {
    RecordOfFrame(f, rest);
    ResendStep(f + rest, Datagram(f), rest);
  }

  lemma ConcatFirst(frames: seq<seq<byte>>, rest: seq<byte>)
    requires frames != []
    ensures Concat(frames) + rest == frames[0] + (Concat(frames[1..]) + rest)
  {
  }

  lemma DatagramsFirst(frames: seq<seq<byte>>, ps: seq<Packet>)
    requires frames != []
    ensures [Datagram(frames[0])] + (Datagrams(frames[1..]) + ps) == Datagrams(frames) + ps
  {
  }

  /** Whole frames at the front of a file are resent, whatever follows them. */
  lemma {:induction false} ResendBehindFrames(frames: seq<seq<byte>>, rest: seq<byte>)
    requires forall i :: 0 <= i < |frames| ==> Sealed(frames[i])
    ensures Resend(Concat(frames) + rest) == (Datagrams(frames) + Resend(rest).0, Resend(rest).1)
    decreases |frames|
  {
    if frames == [] {
      assert Concat(frames) + rest == rest && Datagrams(frames) + Resend(rest).0 == Resend(rest).0;
    } else {
      ConcatFirst(frames, rest);
      FrameFirst(frames[0], Concat(frames[1..]) + rest);
      ResendBehindFrames(frames[1..], rest);
      DatagramsFirst(frames, Resend(rest).0);
    }
  }

  /** A file of whole frames, one after the other, is resent frame by frame. */
  lemma ResendOfConcat(frames: seq<seq<byte>>)
    requires forall i :: 0 <= i < |frames| ==> Sealed(frames[i])
    ensures Resend(Concat(frames)) == (Datagrams(frames), EndOfFile)
  {
    ResendBehindFrames(frames, []);
    assert Concat(frames) + [] == Concat(frames) && Datagrams(frames) + [] == Datagrams(frames);
  }

  /** A byte that is not a start byte ends the replay. */
  lemma ResendUpToWrongByte(frames: seq<seq<byte>>, rest: seq<byte>)
    requires (forall i :: 0 <= i < |frames| ==> Sealed(frames[i])) && rest != [] && rest[0] != START_BYTE
    ensures Resend(Concat(frames) + rest) == (Datagrams(frames), WrongStartByte)
  {
    ResendBehindFrames(frames, rest);
    assert Resend(rest) == ([], WrongStartByte) && Datagrams(frames) + [] == Datagrams(frames);
  }

  /** A last frame that was cut off is sent at its announced length, with 255 for the missing bytes. */
  lemma ResendOfCutLog(frames: seq<seq<byte>>, rest: seq<byte>)
    requires (forall i :: 0 <= i < |frames| ==> Sealed(frames[i]))
    requires 2 <= |rest| && rest[0] == START_BYTE && |rest| < rest[1]
    ensures Resend(Concat(frames) + rest)
         == (Datagrams(frames) + [Datagram(rest + Padding(rest[1] - |rest|))], EndOfFile)
  {
    ResendBehindFrames(frames, rest);
    ResendOfCutFrame(rest);
  }

  lemma ResendOfCutFrame(rest: seq<byte>)
    requires 2 <= |rest| && rest[0] == START_BYTE && |rest| < rest[1]
    ensures Resend(rest) == ([Datagram(rest + Padding(rest[1] - |rest|))], EndOfFile)
  {
    var p := Datagram(rest + Padding(rest[1] - |rest|));
    CutRecord(rest);
    ResendStep(rest, p, []);
    assert [p] + [] == [p];
  }

  function Padding(n: nat): seq<byte> {
    seq(n, _ => 255)
  }

  lemma CutRecord(rest: seq<byte>)
    requires 2 <= |rest| && |rest| < rest[1]
    ensures Record(rest) == (Datagram(rest + Padding(rest[1] - |rest|)), [])
  {
    assert seq(rest[1], i requires 0 <= i => ByteAt(rest, i)) == rest + Padding(rest[1] - |rest|);
  }

  lemma RecordOfFrame(f: seq<byte>, rest: seq<byte>)
    requires Sealed(f)
    ensures Record(f + rest) == (Datagram(f), rest)
  {
    var file := f + rest;
    assert file[1] == |f|;
    assert seq(|f|, i requires 0 <= i => ByteAt(file, i)) == f;
  }

  // ---- What the logger writes ----

  /** What is logged of a ring element: value[..value[1]] of its 256 bytes. */
  function Logged(elem: seq<byte>): seq<byte> {
    if |elem| == 256 then elem[..elem[1]] else []
  }

  function AllLogged(elems: seq<seq<byte>>): (fs: seq<seq<byte>>)
    ensures |fs| == |elems|
  {
    seq(|elems|, i requires 0 <= i < |elems| => Logged(elems[i]))
  }

  /** A sealed frame stands at the front of the element, with stale bytes behind it. */
  ghost predicate CarriesFrame(elem: seq<byte>) {
    Sealed(Logged(elem))
  }

  /** A log of elements that carry frames is resent frame by frame. */
  lemma ResendOfLogged(elems: seq<seq<byte>>)
    requires forall i :: 0 <= i < |elems| ==> CarriesFrame(elems[i])
    ensures Resend(Concat(AllLogged(elems))) == (Datagrams(AllLogged(elems)), EndOfFile)
  {
    ResendOfConcat(AllLogged(elems));
  }
}
