/** bbones/planebone/main_plane.c, lines 243-319: the loop of lisa_to_pc over a whole stream, with
    whole passes of its logger between its own. */
module LisaLoop {
  import opened Wrappers
  import opened Checksum
  import opened Framing
  import opened LoggerProtocol
  import opened SerialInput
  import opened MainPlane
  import opened LisaToPc
  import opened TelemetryLink

  /** Wherever in s a call starts, it does not ask for a negative number of bytes, and a
      frame that it receives leaves room for the timestamp. */
  ghost predicate Servable(s: seq<byte>) {
    forall k :: 0 <= k <= |s| ==> Serves(s[k..])
  }

  ghost predicate Serves(s: seq<byte>) {
    var o := Receive(s).0;
    !o.NegativeRead? && (o.Received? ==> |o.frame| <= 239)
  }

  lemma SuffixIsServable(s: seq<byte>, d: nat)
    requires Servable(s) && d <= |s|
    ensures Servable(s[d..])
  {
    forall k | 0 <= k <= |s[d..]|
      ensures Serves(s[d..][k..])
    {
      SuffixOfSuffix(s, d, k);
    }
  }

  /** The bytes that a call leaves are fewer, and as servable. */
  lemma LeftBehindIsServable(s: seq<byte>, pending: seq<byte>)
    requires s != [] && Servable(s) && LeftBehind(Receive(s), pending)
    ensures Servable(pending) && |pending| < |s|
  {
    var d := RestIsASuffix(s);
    SuffixIsServable(s, d);
    if !Receive(s).0.Received? {
      var k :| 0 <= k <= |Receive(s).1| && pending == Receive(s).1[k..];
      SuffixIsServable(Receive(s).1, k);
    }
  }

  lemma CallReturns(s: seq<byte>, pending: seq<byte>, more: seq<seq<byte>>)
    requires s != [] && LeftBehind(Receive(s), pending) && CanReturn(pending, more)
    ensures CanReturn(s, if Receive(s).0.Received? then [Receive(s).0.frame] + more else more)
  {
    if Receive(s).0.Received? {
      assert ([Receive(s).0.frame] + more)[1..] == more;
    }
  }

  lemma CallContinues(line: seq<byte>, frames: seq<seq<byte>>, before: seq<byte>, pending: seq<byte>)
    requires SoFar(line, frames, before) && before != [] && LeftBehind(Receive(before), pending)
    ensures var o := Receive(before).0;
            SoFar(line, if o.Received? then frames + [o.frame] else frames, pending)
  {
    var o := Receive(before).0;
    forall more | CanReturn(pending, more)
      ensures CanReturn(line, (if o.Received? then frames + [o.frame] else frames) + more)
    {
      CallReturns(before, pending, more);
      if o.Received? {
        assert frames + [o.frame] + more == frames + ([o.frame] + more);
      }
    }
  }

  // ---- What a run of the loop does ----

  /** What the calls have returned: a frame, or an error. */
  type Outcomes = seq<Option<seq<byte>>>

  ghost predicate Fits(outs: Outcomes) {
    forall i :: 0 <= i < |outs| && outs[i].Some? ==> 4 <= |outs[i].value| <= 239
  }

  function FramesIn(outs: Outcomes): seq<seq<byte>>
    decreases |outs|
  {
    if outs == [] then []
    else FramesIn(outs[..|outs| - 1]) + (if outs[|outs| - 1].Some? then [outs[|outs| - 1].value] else [])
  }

  /** The packets that are sent: every frame, stamped with the time of its pass. */
  ghost function PacketsOf(outs: Outcomes, clock: nat -> Clock): seq<seq<byte>>
    requires Fits(outs)
    decreases |outs|
  {
    if outs == [] then []
    else
      var n := |outs| - 1;
      PacketsOf(outs[..n], clock) + (if outs[n].Some? then [Stamp(outs[n].value, clock(n))] else [])
  }

  /** The log path and the bytes of cb_elem. */
  datatype State = State(path: Link<seq<byte>>, elem: seq<byte>) {
    ghost predicate Valid() {
      path.sh.Valid() && |elem| == 256
    }
  }

  function Polled(path: Link<seq<byte>>, n: nat): (r: Link<seq<byte>>)
    requires path.sh.Valid()
    ensures r.sh.Valid()
  {
    if n == 0 then path else LoggerBody(Polled(path, n - 1))
  }

  /** One pass of the loop, and n passes of its logger unless it exits. */
  ghost function AfterPass(s: State, out: Option<seq<byte>>, now: Clock, n: nat): (r: State)
    requires s.Valid() && (out.Some? ==> 4 <= |out.value| <= 239)
    ensures r.Valid()
  {
    if out.None? then State(Polled(s.path, n), s.elem)
    else
      var e := Overlay(Stamp(out.value, now), s.elem);
      var path := WriterBody(s.path, e);
      if Busy(s.path) then State(path, s.elem)
      else State(Polled(path, n), if Full(s.path) then s.elem else e)
  }

  /** The state after these outcomes; pass i is made at clock(i), and followed by polls(i) of the logger. */
  ghost function After(s: State, outs: Outcomes, clock: nat -> Clock, polls: nat -> nat): (r: State)
    requires s.Valid() && Fits(outs)
    ensures r.Valid()
    decreases |outs|
  {
    if outs == [] then s
    else
      var n := |outs| - 1;
      AfterPass(After(s, outs[..n], clock, polls), outs[n], clock(n), polls(n))
  }

  /** The last of these passes had a frame that met a full write ring with the flag up. */
  ghost predicate ExitsAfter(s: State, outs: Outcomes, clock: nat -> Clock, polls: nat -> nat)
    requires s.Valid() && Fits(outs)
  {
    outs != [] && outs[|outs| - 1].Some? && Busy(After(s, outs[..|outs| - 1], clock, polls).path)
  }

  lemma OnePassMore(s: State, outs: Outcomes, out: Option<seq<byte>>, clock: nat -> Clock, polls: nat -> nat)
    requires s.Valid() && Fits(outs) && (out.Some? ==> 4 <= |out.value| <= 239)
    ensures Fits(outs + [out])
    ensures After(s, outs + [out], clock, polls)
         == AfterPass(After(s, outs, clock, polls), out, clock(|outs|), polls(|outs|))
    ensures ExitsAfter(s, outs + [out], clock, polls) <==> out.Some? && Busy(After(s, outs, clock, polls).path)
    ensures FramesIn(outs + [out]) == FramesIn(outs) + if out.Some? then [out.value] else []
    ensures PacketsOf(outs + [out], clock)
         == PacketsOf(outs, clock) + if out.Some? then [Stamp(out.value, clock(|outs|))] else []
  {
    assert (outs + [out])[..|outs|] == outs;
  }

  /** n passes of the logging thread. */
  method Polls(path: LoggingPath<seq<byte>>, n: nat)
    requires path.Valid()
    modifies path, path.ping, path.pong
    ensures path.Valid() && path.ping.elems == old(path.ping.elems) && path.pong.elems == old(path.pong.elems)
    ensures path.View() == Polled(old(path.View()), n)
  {
    for j := 0 to n
      invariant path.Valid() && path.ping.elems == old(path.ping.elems) && path.pong.elems == old(path.pong.elems)
      invariant path.View() == Polled(old(path.View()), j)
    {
      path.LoggerPass();
    }
  }

  /** One pass of the loop, with the passes of the logger that follow it. */
  method Next(port: SerialPort, buffer: array<byte>, elem: array<byte>, path: LoggingPath<seq<byte>>, now: Clock, n: nat)
      returns (sent: Option<seq<byte>>, exits: bool, ghost out: Option<seq<byte>>)
    requires buffer.Length == 255 && elem.Length == 256 && buffer != elem
    requires path.Valid() && Servable(port.pending) && port.pending != []
    modifies port, buffer, elem, path, path.ping, path.pong, path.ping.elems, path.pong.elems
    ensures path.Valid() && path.ping.elems == old(path.ping.elems) && path.pong.elems == old(path.pong.elems)
    ensures LeftBehind(Receive(old(port.pending)), port.pending)
    ensures var o := Receive(old(port.pending)).0;
            && out == (if o.Received? then Some(o.frame) else None) && (out.Some? ==> 4 <= |out.value| <= 239)
            && sent == (if out.Some? then Some(Stamp(out.value, now)) else None)
    ensures exits <==> out.Some? && Busy(old(path.View()))
    ensures State(path.View(), elem[..]) == AfterPass(State(old(path.View()), old(elem[..])), out, now, n)
  {
    ghost var s := port.pending;
    assert Serves(s) by {
      assert Serves(s[0..]) && s[0..] == s;
    }
    sent, exits := Pass(port, buffer, elem, path, now);
    out := if Receive(s).0.Received? then Some(Receive(s).0.frame) else None;
    if !exits {
      Polls(path, n);
    }
  }

  /** The loop of lisa_to_pc, until it calls exit or nothing is pending; pass i is made at clock(i) and
      followed by polls(i) whole passes of its logger. `outs` are the outcomes of its calls: they
      determine what is sent, the log path and cb_elem. It exits exactly if a frame meets a
      full write ring with the flag up, and otherwise goes on to the end of the stream. */
  method Loop(port: SerialPort, buffer: array<byte>, elem: array<byte>, path: LoggingPath<seq<byte>>,
              clock: nat -> Clock, polls: nat -> nat)
      returns (packets: seq<seq<byte>>, exits: bool, ghost outs: Outcomes)
    requires buffer.Length == 255 && elem.Length == 256 && buffer != elem
    requires path.Valid() && Servable(port.pending)
    modifies port, buffer, elem, path, path.ping, path.pong, path.ping.elems, path.pong.elems
    ensures path.Valid() && Fits(outs)
    ensures State(path.View(), elem[..]) == After(State(old(path.View()), old(elem[..])), outs, clock, polls)
    ensures packets == PacketsOf(outs, clock)
    ensures exits <==> ExitsAfter(State(old(path.View()), old(elem[..])), outs, clock, polls)
    ensures forall n :: 0 <= n < |outs| ==> !ExitsAfter(State(old(path.View()), old(elem[..])), outs[..n], clock, polls)
    ensures SoFar(old(port.pending), FramesIn(outs), port.pending)
    ensures !exits ==> port.pending == [] && CanReturn(old(port.pending), FramesIn(outs))
  {
    ghost var line, s := port.pending, State(path.View(), elem[..]);
    packets, exits, outs := [], false, [];
    NothingSoFar(line);
    var i := 0;
    while port.pending != [] && !exits
      invariant path.Valid() && path.ping.elems == old(path.ping.elems) && path.pong.elems == old(path.pong.elems)
      invariant Servable(port.pending) && i == |outs|
      invariant Follows(line, s, outs, clock, polls, State(path.View(), elem[..]), packets, exits, port.pending)
      decreases |port.pending|
    {
      ghost var pending, now := port.pending, State(path.View(), elem[..]);
      var sent;
      ghost var out;
      sent, exits, out := Next(port, buffer, elem, path, clock(i), polls(i));
      LeftBehindIsServable(pending, port.pending);
      NextFollows(line, s, outs, clock, polls, now, packets, pending, port.pending, out);
      if sent.Some? {
        packets := packets + [sent.value];
      }
      outs := outs + [out];
      i := i + 1;
    }
    LoopHasFollowed(line, s, outs, clock, polls, State(path.View(), elem[..]), packets, exits, port.pending);
  }

  /** What holds between two passes. */
  ghost predicate Follows(line: seq<byte>, s: State, outs: Outcomes, clock: nat -> Clock, polls: nat -> nat,
                          now: State, packets: seq<seq<byte>>, exits: bool, pending: seq<byte>)
  {
    && s.Valid() && Fits(outs) && now == After(s, outs, clock, polls) && packets == PacketsOf(outs, clock)
    && (exits <==> ExitsAfter(s, outs, clock, polls))
    && (forall n :: 0 <= n < |outs| ==> !ExitsAfter(s, outs[..n], clock, polls))
    && SoFar(line, FramesIn(outs), pending)
  }

  lemma NextFollows(line: seq<byte>, s: State, outs: Outcomes, clock: nat -> Clock, polls: nat -> nat, now: State,
                    packets: seq<seq<byte>>, before: seq<byte>, pending: seq<byte>, out: Option<seq<byte>>)
    requires Follows(line, s, outs, clock, polls, now, packets, false, before)
    requires before != [] && LeftBehind(Receive(before), pending)
    requires out == (if Receive(before).0.Received? then Some(Receive(before).0.frame) else None)
    requires out.Some? ==> 4 <= |out.value| <= 239
    ensures now.Valid()
    ensures Follows(line, s, outs + [out], clock, polls, AfterPass(now, out, clock(|outs|), polls(|outs|)),
                    packets + (if out.Some? then [Stamp(out.value, clock(|outs|))] else []),
                    out.Some? && Busy(now.path), pending)
  {
    OnePassMore(s, outs, out, clock, polls);
    CallContinues(line, FramesIn(outs), before, pending);
    assert FramesIn(outs) + [] == FramesIn(outs);
    NoEarlierExit(s, outs, out, clock, polls);
  }

  lemma NoEarlierExit(s: State, outs: Outcomes, out: Option<seq<byte>>, clock: nat -> Clock, polls: nat -> nat)
    requires s.Valid() && Fits(outs) && Fits(outs + [out]) && !ExitsAfter(s, outs, clock, polls)
    requires forall n :: 0 <= n < |outs| ==> !ExitsAfter(s, outs[..n], clock, polls)
    ensures forall n :: 0 <= n < |outs + [out]| ==> !ExitsAfter(s, (outs + [out])[..n], clock, polls)
  {
    forall n | 0 <= n < |outs + [out]|
      ensures !ExitsAfter(s, (outs + [out])[..n], clock, polls)
    {
      if n < |outs| {
        assert (outs + [out])[..n] == outs[..n];
      } else {
        assert (outs + [out])[..n] == outs;
      }
    }
  }

  lemma LoopHasFollowed(line: seq<byte>, s: State, outs: Outcomes, clock: nat -> Clock, polls: nat -> nat, now: State,
                        packets: seq<seq<byte>>, exits: bool, pending: seq<byte>)
    requires Follows(line, s, outs, clock, polls, now, packets, exits, pending)
    ensures now == After(s, outs, clock, polls) && packets == PacketsOf(outs, clock)
    ensures pending == [] ==> CanReturn(line, FramesIn(outs))
  {
    assert CanReturn([], []) && FramesIn(outs) + [] == FramesIn(outs);
  }

  // ---- The loop offers the elements of its frames ----

  /** The frames offered by a schedule, in order. */
  function OffersIn<T>(es: seq<Event<T>>): seq<T>
    decreases |es|
  {
    if es == [] then []
    else OffersIn(es[..|es| - 1]) + (if es[|es| - 1].Offer? then [es[|es| - 1].x] else [])
  }

  lemma OffersInStep<T>(es: seq<Event<T>>, e: Event<T>)
    ensures OffersIn(es + [e]) == OffersIn(es) + if e.Offer? then [e.x] else []
  {
    assert (es + [e])[..|es|] == es;
  }

  lemma RunStep<T>(s: Link<T>, es: seq<Event<T>>, e: Event<T>)
    requires s.sh.Valid()
    ensures Run(s, es + [e]) == Step(Run(s, es), e)
  {
    RunAppend(s, es, [e]);
    assert [e][1..] == [];
  }

  lemma ElementsStep(received: seq<seq<byte>>, cs: Circumstances, f: seq<byte>, c: (Clock, seq<byte>))
    requires Loggable(received) && Given(received, cs) && 4 <= |f| <= 239 && |c.1| == 256
    ensures Loggable(received + [f]) && Given(received + [f], cs + [c])
    ensures Elements(received + [f], cs + [c]) == Elements(received, cs) + [Overlay(Stamp(f, c.0), c.1)]
  {
    assert Loggable(received + [f]) && Given(received + [f], cs + [c]);
  }

  lemma PolledIsARun(s: Link<seq<byte>>, es: seq<Event<seq<byte>>>, n: nat) returns (events: seq<Event<seq<byte>>>)
    requires s.sh.Valid()
    ensures Run(s, events) == Polled(Run(s, es), n) && OffersIn(events) == OffersIn(es)
  {
    events := es;
    for j := 0 to n
      invariant Run(s, events) == Polled(Run(s, es), j) && OffersIn(events) == OffersIn(es)
    {
      RunStep(s, events, Poll);
      OffersInStep(events, Poll);
      events := events + [Poll];
    }
  }

  /** The frames that come with these outcomes have room for the timestamp. */
  lemma {:induction false} FramesAreLoggable(outs: Outcomes)
    requires Fits(outs)
    ensures Loggable(FramesIn(outs))
    decreases |outs|
  {
    if outs != [] {
      FramesAreLoggable(outs[..|outs| - 1]);
    }
  }

  /** The log path after the loop is that of a run whose offers are, in order, the elements that carry
      the received frames, each stamped and over the bytes cb_elem then held. */
  lemma {:induction false} LoopOffersElements(s: State, outs: Outcomes, clock: nat -> Clock, polls: nat -> nat)
      returns (events: seq<Event<seq<byte>>>, cs: Circumstances)
    requires s.Valid() && Fits(outs)
    ensures Run(s.path, events) == After(s, outs, clock, polls).path
    ensures Loggable(FramesIn(outs)) && Given(FramesIn(outs), cs) && OffersIn(events) == Elements(FramesIn(outs), cs)
    decreases |outs|
  {
    if outs == [] {
      events, cs := [], [];
    } else {
      var n := |outs| - 1;
      var before := After(s, outs[..n], clock, polls);
      events, cs := LoopOffersElements(s, outs[..n], clock, polls);
      if outs[n].Some? {
        var c := (clock(n), before.elem);
        var e := Overlay(Stamp(outs[n].value, clock(n)), before.elem);
        ElementsStep(FramesIn(outs[..n]), cs, outs[n].value, c);
        RunStep(s.path, events, Offer(e));
        OffersInStep(events, Offer(e));
        events, cs := events + [Offer(e)], cs + [c];
      }
      if !(outs[n].Some? && Busy(before.path)) {
        events := PolledIsARun(s.path, events, polls(n));
      }
    }
  }
}
