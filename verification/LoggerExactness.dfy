/** bbones/planebone/main_plane.c: exactly which interleavings keep the frames in order. */
module LoggerExactness {
  import opened Rings
  import opened LoggerProtocol
  import opened LoggerInterleaving
  import opened LoggerOrder

  /** In order in every state that the run reaches. */
  ghost predicate AlwaysInOrder<T>(s: Threads<T>, turns: seq<Turn<T>>, exits: bool)
    requires s.sh.Valid()
    decreases |turns|
  {
    InOrder(s) && (turns != [] ==> AlwaysInOrder(Take(s, turns[0], exits), turns[1..], exits))
  }

  /** With this turn the writer moves the read pointer to the ring it has filled. */
  predicate HandsOver<T>(s: Threads<T>, turn: Turn<T>) {
    turn.Writer? && s.wpc.MovingRead?
  }

  /** Whenever the read pointer is moved, cbIsEmpty holds of the ring it leaves. */
  ghost predicate SwapsOnlyWhenRead<T>(s: Threads<T>, turns: seq<Turn<T>>, exits: bool)
    requires s.sh.Valid()
    decreases |turns|
  {
    turns != [] ==>
      && (HandsOver(s, turns[0]) ==> s.ReadRing().IsEmpty())
      && SwapsOnlyWhenRead(Take(s, turns[0], exits), turns[1..], exits)
  }

  // ---- What one turn does to the frames ----

  /** The log and everything between it and the writer that the two pointers name. */
  ghost function Line<T>(s: Threads<T>): seq<T>
    requires s.sh.Valid()
  {
    s.log + InFlight(s) + Pending(s)
  }

  /** The frames in a ring that, in the middle of a swap, neither pointer names. */
  ghost function SetAside<T>(s: Threads<T>): seq<T>
    requires s.sh.Valid()
  {
    if s.wpc.MovingWrite? then s.sh.Get(s.temp).Contents() else []
  }

  function StoredBy<T>(s: Threads<T>, turn: Turn<T>): seq<T> {
    if turn.Writer? && s.wpc.Writing? then [s.wpc.x] else []
  }

  /** From s to t the line and the accepted frames have grown by the same, and nothing is set
      aside or taken up. */
  ghost predicate Grows<T>(s: Threads<T>, t: Threads<T>, stored: seq<T>)
    requires s.sh.Valid() && t.sh.Valid()
  {
    Line(t) == Line(s) + stored && t.accepted == s.accepted + stored && SetAside(t) == SetAside(s)
  }

  lemma StoreGrows<T>(s: Threads<T>, x: T, exits: bool)
    requires Coherent(s) && s.wpc.Writing?
    ensures Grows(s, Take(s, Writer(x), exits), [s.wpc.x])
  {
    var y, t := s.wpc.x, Take(s, Writer(x), exits);
    WriteContents(s.WriteRing(), y);
    assert t.sh.WriteSide() == s.sh.WriteSide() + [y] && t.sh.ReadSide() == s.sh.ReadSide();
    Regroup(s.sh.ReadSide(), s.sh.WriteSide(), [y]);
    Regroup(s.log + InFlight(s), Pending(s), [y]);
  }

  lemma ReadGrows<T>(s: Threads<T>, exits: bool)
    requires Coherent(s) && s.lpc.Reading? && !s.wpc.Exited?
    ensures Grows(s, Take(s, Turn<T>.Logger, exits), [])
  {
    var t := LoggerStep(s);
    ReadTakesTheOldest(s);
    MoveOne(s.log, s.ReadRing().ValueRead(), Pending(t));
    assert Line(t) == Line(s);
  }

  lemma LoggingGrows<T>(s: Threads<T>, exits: bool)
    requires Coherent(s) && s.lpc.Logging? && !s.wpc.Exited?
    ensures Grows(s, Take(s, Turn<T>.Logger, exits), [])
  {
    var t := Take(s, Turn<T>.Logger, exits);
    assert t.log + InFlight(t) == s.log + InFlight(s);
  }

  lemma NothingGrows<T>(s: Threads<T>, t: Threads<T>)
    requires s.sh.Valid() && t.sh.Valid() && t.accepted == s.accepted
    requires t.log == s.log && InFlight(t) == InFlight(s) && Pending(t) == Pending(s) && SetAside(t) == SetAside(s)
    ensures Grows(s, t, [])
  {
  }

  /** The writer's turns that change neither a ring nor a pointer. */
  lemma QuietWriterGrows<T>(s: Threads<T>, x: T, exits: bool)
    requires Coherent(s) && !s.wpc.Writing? && !s.wpc.MovingRead? && !s.wpc.MovingWrite?
    ensures Grows(s, Take(s, Writer(x), exits), [])
  {
    NothingGrows(s, Take(s, Writer(x), exits));
  }

  /** The logger's turns that change neither a ring nor the log. */
  lemma QuietLoggerGrows<T>(s: Threads<T>, exits: bool)
    requires Coherent(s) && (s.wpc.Exited? || !(s.lpc.Reading? || s.lpc.Logging?))
    ensures Grows(s, Take(s, Turn<T>.Logger, exits), [])
  {
    NothingGrows(s, Take(s, Turn<T>.Logger, exits));
  }

  /** Every turn that is not part of a swap leaves the line as it is, or stores at its end. */
  lemma TurnGrows<T>(s: Threads<T>, turn: Turn<T>, exits: bool)
    requires Coherent(s) && !(turn.Writer? && (s.wpc.MovingRead? || s.wpc.MovingWrite?))
    ensures Grows(s, Take(s, turn, exits), StoredBy(s, turn))
  {
    if turn.Writer? {
      if s.wpc.Writing? {
        StoreGrows(s, turn.x, exits);
      } else {
        QuietWriterGrows(s, turn.x, exits);
      }
    } else if s.lpc.Reading? && !s.wpc.Exited? {
      ReadGrows(s, exits);
    } else if s.lpc.Logging? && !s.wpc.Exited? {
      LoggingGrows(s, exits);
    } else {
      QuietLoggerGrows(s, exits);
    }
  }

  /** The first half of a swap sets the read ring aside. */
  lemma HandOverSetsAside<T>(s: Threads<T>, x: T, exits: bool)
    requires Coherent(s) && s.wpc.MovingRead?
    ensures var t := Take(s, Writer(x), exits);
            && Line(s) == s.log + InFlight(s) + (s.sh.ReadSide() + s.sh.WriteSide()) && SetAside(s) == []
            && Line(t) == s.log + InFlight(s) + s.sh.WriteSide() && SetAside(t) == s.sh.ReadSide()
            && t.accepted == s.accepted
  {
  }

  /** The second half puts it at the end of the line. */
  lemma EndOfSwapTakesUp<T>(s: Threads<T>, x: T, exits: bool)
    requires Coherent(s) && s.wpc.MovingWrite?
    ensures var t := Take(s, Writer(x), exits);
            Line(t) == Line(s) + SetAside(s) && SetAside(t) == [] && t.accepted == s.accepted
  {
    var t := Take(s, Writer(x), exits);
    assert t.sh.ReadSide() == s.sh.ReadSide() && t.sh.WriteSide() == SetAside(s);
    Regroup(s.log + InFlight(s), s.sh.ReadSide(), SetAside(s));
  }

  // ---- Exactly when every swap is made over an empty ring ----

  ghost predicate Sound<T>(s: Threads<T>) {
    Coherent(s) && InOrder(s) && SetAside(s) == []
  }

  lemma TakeKeepsCoherence<T>(s: Threads<T>, turn: Turn<T>, exits: bool)
    requires Coherent(s)
    ensures Coherent(Take(s, turn, exits))
  {
    match turn
    case Writer(x) => WriterKeepsCoherence(s, x, exits);
    case Logger => LoggerKeepsCoherence(s);
  }

  lemma TurnKeepsSound<T>(s: Threads<T>, turn: Turn<T>, exits: bool)
    requires Sound(s) && !(turn.Writer? && s.wpc.MovingRead?)
    ensures Sound(Take(s, turn, exits))
  {
    TakeKeepsCoherence(s, turn, exits);
    if turn.Writer? && s.wpc.MovingWrite? {
      EndOfSwapTakesUp(s, turn.x, exits);
    } else {
      TurnGrows(s, turn, exits);
    }
  }

  /** Moving the read pointer keeps the order exactly when nothing was left to read. */
  lemma HandOverIsSoundWhenRead<T>(s: Threads<T>, x: T, exits: bool)
    requires Sound(s) && s.wpc.MovingRead?
    ensures InOrder(Take(s, Writer(x), exits)) <==> s.ReadRing().IsEmpty()
    ensures s.ReadRing().IsEmpty() ==> Sound(Take(s, Writer(x), exits))
  {
    var t := Take(s, Writer(x), exits);
    TakeKeepsCoherence(s, Writer(x), exits);
    HandOverSetsAside(s, x, exits);
    assert s.ReadRing().IsEmpty() <==> s.sh.ReadSide() == [];
    if s.sh.ReadSide() == [] {
      assert s.sh.ReadSide() + s.sh.WriteSide() == s.sh.WriteSide();
    } else {
      assert |Line(t)| < |Line(s)|;
    }
  }

  lemma {:induction false} SoundExactlyWhenRead<T>(s: Threads<T>, turns: seq<Turn<T>>, exits: bool)
    requires Sound(s)
    ensures AlwaysInOrder(s, turns, exits) <==> SwapsOnlyWhenRead(s, turns, exits)
    decreases |turns|
  {
    if turns != [] {
      var t, rest := Take(s, turns[0], exits), turns[1..];
      if HandsOver(s, turns[0]) {
        HandOverIsSoundWhenRead(s, turns[0].x, exits);
        if s.ReadRing().IsEmpty() {
          SoundExactlyWhenRead(t, rest, exits);
        }
      } else {
        TurnKeepsSound(s, turns[0], exits);
        SoundExactlyWhenRead(t, rest, exits);
      }
    }
  }

  lemma StartIsSound<T>(s: Threads<T>, capacity: nat)
    requires capacity >= 1 && Start(s, capacity)
    ensures Sound(s)
  {
    assert Pending(s) == [];
  }

  /** Exactly which runs keep the order, on both paths: log, frame in hand, read ring and write ring
      are the accepted frames in arrival order in every reachable state if and only if the
      read pointer is only ever moved away from an empty ring. */
  lemma InOrderExactlyWhenRead<T>(s: Threads<T>, turns: seq<Turn<T>>, exits: bool, capacity: nat)
    requires capacity >= 1 && Start(s, capacity)
    ensures AlwaysInOrder(s, turns, exits) <==> SwapsOnlyWhenRead(s, turns, exits)
  {
    StartIsSound(s, capacity);
    SoundExactlyWhenRead(s, turns, exits);
  }

  /** So an attentive logger is enough for that: 3 turns by the writer's (3 * CBSIZE + 3)rd. */
  lemma {:induction false} AttentiveRunsSwapOnlyWhenRead<T>(s: Threads<T>, turns: seq<Turn<T>>, exits: bool, capacity: nat)
    requires Tracked(s, capacity) && Attentive(s, turns, exits, Bound(capacity))
    ensures SwapsOnlyWhenRead(s, turns, exits)
    decreases |turns|
  {
    if turns != [] {
      TurnKeepsOrder(s, turns[0], exits, capacity);
      AttentiveRunsSwapOnlyWhenRead(Take(s, turns[0], exits), turns[1..], exits, capacity);
    }
  }

  // ---- The same, if the ring that is set aside counts as the end of the line ----

  ghost predicate Arranged<T>(s: Threads<T>)
    requires s.sh.Valid()
  {
    Line(s) + SetAside(s) == s.accepted
  }

  ghost predicate AlwaysArranged<T>(s: Threads<T>, turns: seq<Turn<T>>, exits: bool)
    requires s.sh.Valid()
    decreases |turns|
  {
    Arranged(s) && (turns != [] ==> AlwaysArranged(Take(s, turns[0], exits), turns[1..], exits))
  }

  ghost predicate Commute<T>(s: Threads<T>)
    requires s.sh.Valid()
  {
    s.sh.ReadSide() + s.sh.WriteSide() == s.sh.WriteSide() + s.sh.ReadSide()
  }

  /** Whenever the read pointer is moved, the contents of the two rings can change places. */
  ghost predicate SwapsOnlyWhatCommutes<T>(s: Threads<T>, turns: seq<Turn<T>>, exits: bool)
    requires s.sh.Valid()
    decreases |turns|
  {
    turns != [] ==>
      && (HandsOver(s, turns[0]) ==> Commute(s))
      && SwapsOnlyWhatCommutes(Take(s, turns[0], exits), turns[1..], exits)
  }

  lemma GrowingKeepsArranged<T>(s: Threads<T>, t: Threads<T>, stored: seq<T>)
    requires s.sh.Valid() && t.sh.Valid() && Arranged(s) && Grows(s, t, stored)
    requires stored == [] || SetAside(s) == []
    ensures Arranged(t)
  {
    if stored == [] {
      assert Line(s) + [] == Line(s) && s.accepted + [] == s.accepted;
    } else {
      assert Line(s) + [] == Line(s) && Line(t) + [] == Line(t);
    }
  }

  lemma TurnKeepsArranged<T>(s: Threads<T>, turn: Turn<T>, exits: bool)
    requires Coherent(s) && Arranged(s) && !HandsOver(s, turn)
    ensures Arranged(Take(s, turn, exits))
  {
    var t := Take(s, turn, exits);
    if turn.Writer? && s.wpc.MovingWrite? {
      EndOfSwapTakesUp(s, turn.x, exits);
      assert Line(t) + [] == Line(t);
    } else {
      TurnGrows(s, turn, exits);
      GrowingKeepsArranged(s, t, StoredBy(s, turn));
    }
  }

  lemma HandOverArranges<T>(s: Threads<T>, x: T, exits: bool)
    requires Coherent(s) && Arranged(s) && s.wpc.MovingRead?
    ensures Arranged(Take(s, Writer(x), exits)) <==> Commute(s)
  {
    var front := s.log + InFlight(s);
    HandOverSetsAside(s, x, exits);
    assert Line(s) + [] == Line(s);
    Regroup(front, s.sh.WriteSide(), s.sh.ReadSide());
    CancelFront(front, s.sh.WriteSide() + s.sh.ReadSide(), s.sh.ReadSide() + s.sh.WriteSide());
  }

  lemma {:induction false} ArrangedExactlyWhenCommuting<T>(s: Threads<T>, turns: seq<Turn<T>>, exits: bool)
    requires Coherent(s) && Arranged(s)
    ensures AlwaysArranged(s, turns, exits) <==> SwapsOnlyWhatCommutes(s, turns, exits)
    decreases |turns|
  {
    if turns != [] {
      var t, rest := Take(s, turns[0], exits), turns[1..];
      TakeKeepsCoherence(s, turns[0], exits);
      if HandsOver(s, turns[0]) {
        HandOverArranges(s, turns[0].x, exits);
        if Commute(s) {
          ArrangedExactlyWhenCommuting(t, rest, exits);
        }
      } else {
        TurnKeepsArranged(s, turns[0], exits);
        ArrangedExactlyWhenCommuting(t, rest, exits);
      }
    }
  }

  predicate AllDifferent<T(==)>(frames: seq<T>) {
    forall i, j :: 0 <= i < j < |frames| ==> frames[i] != frames[j]
  }

  /** If no frame comes twice, rings commute only when there is nothing left to read. */
  lemma DifferentFramesDoNotCommute<T>(s: Threads<T>)
    requires Coherent(s) && Arranged(s) && s.wpc.MovingRead? && AllDifferent(s.accepted)
    ensures Commute(s) <==> s.ReadRing().IsEmpty()
  {
    var unread, written, front := s.sh.ReadSide(), s.sh.WriteSide(), s.log + InFlight(s);
    assert s.accepted == front + (unread + written) && written != [];
    if unread == [] {
      assert unread + written == written == written + unread;
    } else {
      assert s.accepted[|front|] == unread[0] && s.accepted[|front| + |unread|] == written[0];
      assert (unread + written)[0] == unread[0] && (written + unread)[0] == written[0];
    }
  }

  lemma {:induction false} AcceptedOnlyGrow<T>(s: Threads<T>, turns: seq<Turn<T>>, exits: bool)
    requires s.sh.Valid()
    ensures s.accepted <= Interleave(s, turns, exits).accepted
    decreases |turns|
  {
    if turns != [] {
      AcceptedOnlyGrow(Take(s, turns[0], exits), turns[1..], exits);
    }
  }

  lemma {:induction false} DifferentExactlyWhenRead<T>(s: Threads<T>, turns: seq<Turn<T>>, exits: bool)
    requires Coherent(s) && Arranged(s) && AllDifferent(Interleave(s, turns, exits).accepted)
    ensures AlwaysArranged(s, turns, exits) <==> SwapsOnlyWhenRead(s, turns, exits)
    decreases |turns|
  {
    if turns != [] {
      var t, rest := Take(s, turns[0], exits), turns[1..];
      TakeKeepsCoherence(s, turns[0], exits);
      if HandsOver(s, turns[0]) {
        AcceptedOnlyGrow(s, turns, exits);
        DifferentFramesDoNotCommute(s);
        HandOverArranges(s, turns[0].x, exits);
        if Commute(s) {
          DifferentExactlyWhenRead(t, rest, exits);
        }
      } else {
        TurnKeepsArranged(s, turns[0], exits);
        DifferentExactlyWhenRead(t, rest, exits);
      }
    }
  }

  /** If a ring that is set aside in the middle of a swap counts as the end of the line, the order is
      kept exactly when the rings of every swap commute; and if no frame comes twice, this too is
      exactly when every swap is made over an empty ring. */
  lemma ArrangedExactly<T>(s: Threads<T>, turns: seq<Turn<T>>, exits: bool, capacity: nat)
    requires capacity >= 1 && Start(s, capacity)
    ensures AlwaysArranged(s, turns, exits) <==> SwapsOnlyWhatCommutes(s, turns, exits)
    ensures AllDifferent(Interleave(s, turns, exits).accepted) ==>
              (AlwaysArranged(s, turns, exits) <==> SwapsOnlyWhenRead(s, turns, exits))
  {
    StartIsSound(s, capacity);
    assert Line(s) + [] == Line(s);
    ArrangedExactlyWhenCommuting(s, turns, exits);
    if AllDifferent(Interleave(s, turns, exits).accepted) {
      DifferentExactlyWhenRead(s, turns, exits);
    }
  }
}
