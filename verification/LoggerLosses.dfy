/** bbones/planebone/main_plane.c: which of the frames that arrive reach the log file. */
module LoggerLosses {
  import opened LoggerProtocol
  import opened LoggerInterleaving
  import opened LoggerOrder

  /** The frame that arrives with this turn, if the writer is waiting for one. */
  function ArrivesWith<T>(s: Threads<T>, turn: Turn<T>): seq<T> {
    if turn.Writer? && s.wpc.Receiving? then [turn.x] else []
  }

  /** The frames that arrive during the run, in order. */
  function Arrivals<T>(s: Threads<T>, turns: seq<Turn<T>>, exits: bool): seq<T>
    requires s.sh.Valid()
    decreases |turns|
  {
    if turns == [] then []
    else ArrivesWith(s, turns[0]) + Arrivals(Take(s, turns[0], exits), turns[1..], exits)
  }

  function InHand<T>(pc: WriterPC<T>): seq<T> {
    if pc.TestingFull? || pc.Writing? then [pc.x] else []
  }

  // ---- Nothing is accepted that has not arrived ----

  ghost predicate AllArrived<T>(s: Threads<T>, arrived: seq<T>) {
    forall f :: f in s.accepted + InHand(s.wpc) ==> f in arrived
  }

  lemma {:induction false} AcceptedHaveArrived<T>(s: Threads<T>, arrived: seq<T>, turns: seq<Turn<T>>, exits: bool)
    requires s.sh.Valid() && AllArrived(s, arrived)
    ensures AllArrived(Interleave(s, turns, exits), arrived + Arrivals(s, turns, exits))
    decreases |turns|
  {
    if turns == [] {
      assert arrived + [] == arrived;
    } else {
      var now := ArrivesWith(s, turns[0]);
      assert AllArrived(Take(s, turns[0], exits), arrived + now);
      AcceptedHaveArrived(Take(s, turns[0], exits), arrived + now, turns[1..], exits);
      Regroup(arrived, now, Arrivals(Take(s, turns[0], exits), turns[1..], exits));
    }
  }

  // ---- Exactly which frames are lost ----

  /** Accepted frame i is the one that arrived as number i + i / capacity: after each `capacity`
      accepted frames one is lost. */
  function Arrival(i: nat, capacity: nat): nat
    requires capacity >= 1
  {
    i + i / capacity
  }

  ghost predicate Thinned<T>(s: Threads<T>, arrived: seq<T>, capacity: nat)
    requires capacity >= 1
  {
    && |arrived| == s.offered
    && (forall i :: 0 <= i < |s.accepted| ==>
          Arrival(i, capacity) < |arrived| && s.accepted[i] == arrived[Arrival(i, capacity)])
    && (s.wpc.TestingFull? || s.wpc.Writing? ==> arrived != [] && arrived[|arrived| - 1] == s.wpc.x)
  }

  /** No frame has been dropped, unless that has ended the process. */
  predicate Ready<T>(s: Threads<T>) {
    s.notReady == 0 || s.wpc.Exited?
  }

  lemma ProductsGrow(c: nat, a: nat, b: nat)
    requires a < b
    ensures c * a + c <= c * b
  {
    assert c * (b - a) == c * b - c * a && c * (b - a) == c + c * (b - a - 1);
  }

  lemma QuotientOf(capacity: nat, q: nat, r: nat)
    requires r < capacity
    ensures (capacity * q + r) / capacity == q
  {
    var d := (capacity * q + r) / capacity;
    assert capacity * d <= capacity * q + r < capacity * d + capacity;
    if d < q {
      ProductsGrow(capacity, d, q);
    } else if q < d {
      ProductsGrow(capacity, q, d);
    }
  }

  /** A frame that is about to be stored is the latest arrival, and has the number that it
      should have. */
  lemma NextArrival<T>(s: Threads<T>, capacity: nat)
    requires capacity >= 1 && Tracked(s, capacity) && Accounted(s) && Ready(s) && s.wpc.Writing?
    ensures Arrival(|s.accepted|, capacity) == s.offered - 1
  {
    QuotientOf(capacity, s.swaps, |s.sh.WriteSide()|);
  }

  lemma StoreThins<T>(s: Threads<T>, arrived: seq<T>, x: T, exits: bool, capacity: nat)
    requires capacity >= 1 && Thinned(s, arrived, capacity) && s.sh.Valid() && s.wpc.Writing?
    requires Arrival(|s.accepted|, capacity) == s.offered - 1
    ensures Thinned(Take(s, Writer(x), exits), arrived, capacity)
  {
  }

  lemma ArrivalThins<T>(s: Threads<T>, arrived: seq<T>, x: T, exits: bool, capacity: nat)
    requires capacity >= 1 && s.sh.Valid() && Thinned(s, arrived, capacity) && s.wpc.Receiving?
    ensures Thinned(Take(s, Writer(x), exits), arrived + [x], capacity)
  {
  }

  lemma TurnThins<T>(s: Threads<T>, arrived: seq<T>, turn: Turn<T>, exits: bool, capacity: nat)
    requires capacity >= 1 && Tracked(s, capacity) && Accounted(s) && Ready(s)
    requires Thinned(s, arrived, capacity)
    ensures Thinned(Take(s, turn, exits), arrived + ArrivesWith(s, turn), capacity)
  {
    if turn.Writer? && s.wpc.Receiving? {
      ArrivalThins(s, arrived, turn.x, exits, capacity);
    } else {
      assert arrived + [] == arrived;
      if turn.Writer? && s.wpc.Writing? {
        NextArrival(s, capacity);
        StoreThins(s, arrived, turn.x, exits, capacity);
      }
    }
  }

  lemma {:induction false} DropsOnlyAdd<T>(s: Threads<T>, turns: seq<Turn<T>>, exits: bool)
    requires s.sh.Valid()
    ensures s.notReady <= Interleave(s, turns, exits).notReady
    decreases |turns|
  {
    if turns != [] {
      DropsOnlyAdd(Take(s, turns[0], exits), turns[1..], exits);
    }
  }

  lemma {:induction false} RunThins<T>(s: Threads<T>, arrived: seq<T>, turns: seq<Turn<T>>, exits: bool, capacity: nat)
    requires capacity >= 1 && Tracked(s, capacity) && Accounted(s) && Ready(s)
    requires Thinned(s, arrived, capacity) && Attentive(s, turns, exits, Bound(capacity))
    requires exits || Interleave(s, turns, exits).notReady == 0
    ensures Thinned(Interleave(s, turns, exits), arrived + Arrivals(s, turns, exits), capacity)
    decreases |turns|
  {
    if turns == [] {
      assert arrived + [] == arrived;
    } else {
      var t, now, rest := Take(s, turns[0], exits), ArrivesWith(s, turns[0]), turns[1..];
      TurnThins(s, arrived, turns[0], exits, capacity);
      TurnKeepsOrder(s, turns[0], exits, capacity);
      TakeAccounts(s, turns[0], exits);
      DropsOnlyAdd(t, rest, exits);
      RunThins(t, arrived + now, rest, exits, capacity);
      Regroup(arrived, now, Arrivals(t, rest, exits));
    }
  }

  /** Exactly which frames are lost. On the LISA path, and on the ground path as long as it has
      dropped nothing: in every attentive run, logged frame i is the frame that arrived as
      number i + i / CBSIZE, and every arrival is logged, in the logger's hand, in a
      ring, spent on a swap, or still undecided. */
  lemma OneFrameIsLostPerSwap<T>(s: Threads<T>, turns: seq<Turn<T>>, exits: bool, capacity: nat)
    requires capacity >= 1 && Start(s, capacity)
    requires Attentive(s, turns, exits, Bound(capacity))
    requires exits || Interleave(s, turns, exits).notReady == 0
    ensures var t, arrived := Interleave(s, turns, exits), Arrivals(s, turns, exits);
            && (forall i :: 0 <= i < |t.log| ==>
                  Arrival(i, capacity) < |arrived| && t.log[i] == arrived[Arrival(i, capacity)])
            && |arrived| == |t.log| + |InFlight(t)| + |Pending(t)| + t.swaps + t.notReady + Undecided(t.wpc)
  {
    StartIsTracked(s, capacity);
    RunThins(s, [], turns, exits, capacity);
    assert [] + Arrivals(s, turns, exits) == Arrivals(s, turns, exits);
    LogIsInArrivalOrder(s, turns, exits, capacity);
    FramesAreConserved(s, turns, exits, capacity);
    LogIsAPrefix(Interleave(s, turns, exits));
  }

  lemma LogIsAPrefix<T>(t: Threads<T>)
    requires t.sh.Valid() && InOrder(t)
    ensures |t.accepted| == |t.log| + |InFlight(t)| + |Pending(t)|
    ensures forall i :: 0 <= i < |t.log| ==> t.log[i] == t.accepted[i]
  {
  }
}
