/** The whole way of a frame in bbones: from the bytes of the serial line through the rings and
    both threads of planebone/main_plane.c into the log file, and out of it again by
    server/read_log.c. */
module TelemetryLink {
  import opened Checksum
  import opened Framing
  import opened SerialInput
  import opened Replay
  import opened LoggerInterleaving
  import opened LoggerOrder
  import opened LoggerLosses
  import opened LisaToPc

  /** Frames with room for a timestamp. */
  ghost predicate Loggable(frames: seq<seq<byte>>) {
    forall i :: 0 <= i < |frames| ==> 4 <= |frames[i]| <= 239
  }

  /** The clock and the old content of cb_elem, for each frame. */
  type Circumstances = seq<(Clock, seq<byte>)>

  ghost predicate Given(frames: seq<seq<byte>>, cs: Circumstances) {
    |cs| == |frames| && forall i :: 0 <= i < |cs| ==> |cs[i].1| == 256
  }

  ghost function Stamp(f: seq<byte>, now: Clock): seq<byte>
    requires 4 <= |f| <= 239
  {
    Stamped(f, Timestamp(now))
  }

  /** What the passes of lisa_to_pc offer for these frames. */
  ghost function Elements(frames: seq<seq<byte>>, cs: Circumstances): (es: seq<seq<byte>>)
    requires Loggable(frames) && Given(frames, cs)
    ensures |es| == |frames|
  {
    seq(|frames|, i requires 0 <= i < |frames| => Overlay(Stamp(frames[i], cs[i].0), cs[i].1))
  }

  lemma ElementIsLogged(frames: seq<seq<byte>>, cs: Circumstances, i: nat)
    requires Loggable(frames) && Given(frames, cs) && i < |frames| && Sealed(frames[i])
    ensures Logged(Elements(frames, cs)[i]) == Stamp(frames[i], cs[i].0) && CarriesFrame(Elements(frames, cs)[i])
  {
    StripUndoesStamp(frames[i], Timestamp(cs[i].0));
    OverlayCarries(Stamp(frames[i], cs[i].0), cs[i].1);
  }

  lemma {:induction false} PiecesAreSealed(s: seq<byte>, frames: seq<seq<byte>>)
    requires SealedPieces(s, frames)
    ensures forall i :: 0 <= i < |frames| ==> Sealed(frames[i])
    decreases |frames|
  {
    if frames != [] {
      var k :| FirstPieceAt(s, k, frames);
      PiecesAreSealed(s[k + |frames[0]|..], frames[1..]);
    }
  }

  /** Replaying the log of any attentive run sends the accepted frames in arrival order, up to
      those still on their way, and never stops at a wrong start byte. */
  lemma ReplayOfALog(s: Threads<seq<byte>>, turns: seq<Turn<seq<byte>>>, exits: bool, capacity: nat)
    requires capacity >= 1 && Start(s, capacity) && Attentive(s, turns, exits, Bound(capacity))
    requires forall f :: f in Arrivals(s, turns, exits) ==> CarriesFrame(f)
    ensures var t := Interleave(s, turns, exits);
            && |t.log| + |InFlight(t)| + |Pending(t)| == |t.accepted|
            && Resend(Concat(AllLogged(t.log))) == (Datagrams(AllLogged(t.accepted)[..|t.log|]), EndOfFile)
  {
    var t := Interleave(s, turns, exits);
    LogIsInArrivalOrder(s, turns, exits, capacity);
    AcceptedHaveArrived(s, [], turns, exits);
    LogIsAPrefix(t);
    LoggedFramesCarry(t, Arrivals(s, turns, exits));
    assert AllLogged(t.log) == AllLogged(t.accepted)[..|t.log|];
    ResendOfLogged(t.log);
  }

  lemma LoggedFramesCarry(t: Threads<seq<byte>>, arrived: seq<seq<byte>>)
    requires AllArrived(t, [] + arrived) && forall f :: f in arrived ==> CarriesFrame(f)
    requires t.sh.Valid() && InOrder(t)
    ensures forall i :: 0 <= i < |t.log| ==> CarriesFrame(t.log[i])
  {
    LogIsAPrefix(t);
    forall i | 0 <= i < |t.log|
      ensures CarriesFrame(t.log[i])
    {
      assert t.log[i] in t.accepted + InHand(t.wpc);
    }
  }

  /** Replaying the log file sends, as packet i, received frame i + i / capacity, stamped; it
      sends nothing else and stops at the end of the file. */
  ghost predicate ReplaysAllButLost(log: seq<seq<byte>>, received: seq<seq<byte>>, cs: Circumstances, capacity: nat)
    requires Loggable(received) && Given(received, cs) && capacity >= 1
  {
    && Resend(Concat(AllLogged(log))) == (Datagrams(AllLogged(log)), EndOfFile)
    && forall i :: 0 <= i < |log| ==>
         && Arrival(i, capacity) < |received|
         && AllLogged(log)[i] == Stamp(received[Arrival(i, capacity)], cs[Arrival(i, capacity)].0)
  }

  /** From the serial line to the replay, whatever the bytes of the line are and whatever is
      flushed after errors: the frames that are received are stamped and offered, and the logger
      is attentive. Then packet i of the replay is received frame i + i / CBSIZE, stamped: every
      (CBSIZE + 1)st frame is missing, the others come in order, and what is still in the
      rings comes later. */
  lemma FromTheLineToTheReplay(line: seq<byte>, received: seq<seq<byte>>, cs: Circumstances,
                               s: Threads<seq<byte>>, turns: seq<Turn<seq<byte>>>, capacity: nat)
    requires CanReturn(line, received) && Loggable(received) && Given(received, cs)
    requires capacity >= 1 && Start(s, capacity) && Attentive(s, turns, true, Bound(capacity))
    requires Arrivals(s, turns, true) <= Elements(received, cs)
    ensures var t := Interleave(s, turns, true);
            && ReplaysAllButLost(t.log, received, cs, capacity)
            && |Arrivals(s, turns, true)|
               == |t.log| + |InFlight(t)| + |Pending(t)| + t.swaps + t.notReady + Undecided(t.wpc)
  {
    var t := Interleave(s, turns, true);
    var es, arrived := Elements(received, cs), Arrivals(s, turns, true);
    OneFrameIsLostPerSwap(s, turns, true, capacity);
    ReturnsSealedPieces(line, received);
    PiecesAreSealed(line, received);
    forall i | 0 <= i < |t.log|
      ensures var j := Arrival(i, capacity);
              j < |received| && Logged(t.log[i]) == Stamp(received[j], cs[j].0) && CarriesFrame(t.log[i])
    {
      assert arrived[Arrival(i, capacity)] == es[Arrival(i, capacity)];
      ElementIsLogged(received, cs, Arrival(i, capacity));
    }
    ResendOfLogged(t.log);
  }

  /** Over a line that carries sealed frames between stretches of noise without start bytes,
      the received frames are these. */
  lemma FromANoisyLineToTheReplay(noise: seq<seq<byte>>, frames: seq<seq<byte>>, received: seq<seq<byte>>, cs: Circumstances,
                                  s: Threads<seq<byte>>, turns: seq<Turn<seq<byte>>>, capacity: nat)
    requires |noise| == |frames| + 1 && (forall i :: 0 <= i < |noise| ==> START_BYTE !in noise[i])
    requires forall i :: 0 <= i < |frames| ==> Sealed(frames[i])
    requires CanReturn(Stream(noise, frames), received) && Loggable(received) && Given(received, cs)
    requires capacity >= 1 && Start(s, capacity) && Attentive(s, turns, true, Bound(capacity))
    requires Arrivals(s, turns, true) <= Elements(received, cs)
    ensures received == frames
    ensures ReplaysAllButLost(Interleave(s, turns, true).log, frames, cs, capacity)
  {
    NoisyStreamIsReturned(noise, frames, received);
    FromTheLineToTheReplay(Stream(noise, frames), received, cs, s, turns, capacity);
  }
}
