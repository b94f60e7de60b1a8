/** bbones/planebone/main_plane.c: the order of the frames in the log file, for threads that
    interleave anywhere, also inside a swap and inside a loop body. */
module LoggerOrder {
  import opened Rings
  import opened LoggerProtocol
  import opened LoggerInterleaving

  /** Since the last completed swap the logger has had 3 turns, or the writer fewer than `bound`. */
  predicate Attended<T>(s: Threads<T>, bound: nat) {
    s.swaps == 0 || s.loggerTurns >= 3 || s.writerTurns < bound
  }

  /** Attended in every state that the run reaches. */
  ghost predicate Attentive<T>(s: Threads<T>, turns: seq<Turn<T>>, exits: bool, bound: nat)
    requires s.sh.Valid()
    decreases |turns|
  {
    Attended(s, bound) && (turns != [] ==> Attentive(Take(s, turns[0], exits), turns[1..], exits, bound))
  }

  /** The bound for rings of `capacity` frames: a store is 3 turns, and so is the way to SavingRead. */
  function Bound(capacity: nat): nat {
    3 * capacity + 3
  }

  /** The frames between the log and the writer. Within a swap both pointers name one ring. */
  ghost function Pending<T>(s: Threads<T>): seq<T>
    requires s.sh.Valid()
  {
    if s.wpc.MovingWrite? then s.sh.ReadSide() else s.sh.ReadSide() + s.sh.WriteSide()
  }

  ghost predicate InOrder<T>(s: Threads<T>)
    requires s.sh.Valid()
  {
    s.log + InFlight(s) + Pending(s) == s.accepted
  }

  ghost predicate Counted<T>(s: Threads<T>, capacity: nat)
    requires s.sh.Valid()
  {
    |s.accepted| == capacity * s.swaps + if s.wpc.MovingWrite? then capacity else |s.sh.WriteSide()|
  }

  /** How many turns the logger still needs before it has raised the flag over a filled ring. */
  function TurnsToRaise<T>(pc: LoggerPC<T>): nat {
    match pc
    case LoweringFlag => 3
    case TestingEmpty => 2
    case RaisingFlag => 1
    case _ => 0
  }

  /** How many turns into its pass the writer is. */
  function Phase<T>(pc: WriterPC<T>): nat {
    match pc
    case TestingFull(_) => 1
    case Writing(_) => 2
    case TestingFlag => 2
    case SavingRead => 3
    case MovingRead => 3
    case _ => 0
  }

  /** A swap only begins over an empty read ring, the flag is up while a frame is moved, and
      it is not about to be lowered over a filled ring. */
  ghost predicate FlagIsHonest<T>(s: Threads<T>)
    requires s.sh.Valid()
  {
    && (s.wpc.SavingRead? || s.wpc.MovingRead? ==> s.sh.ReadSide() == [] && !s.sh.flag)
    && (s.lpc.Reading? || s.lpc.Logging? ==> s.sh.flag)
    && (s.lpc.LoweringFlag? && s.sh.flag ==> s.sh.ReadSide() == [])
  }

  /** The flag is only late by the turns the logger has not had yet, and the write ring
      is only as full as the writer's turns can have made it. */
  ghost predicate Paced<T>(s: Threads<T>)
    requires s.sh.Valid()
  {
    !s.wpc.MovingWrite? ==>
      && (!s.sh.flag && s.sh.ReadSide() != [] ==> s.loggerTurns + TurnsToRaise(s.lpc) <= 3)
      && (s.swaps == 0 ==> s.sh.ReadSide() == [])
      && s.writerTurns >= 3 * |s.sh.WriteSide()| + Phase(s.wpc)
  }

  ghost predicate Tracked<T>(s: Threads<T>, capacity: nat) {
    && Coherent(s) && s.sh.ping.size == capacity + 1
    && FlagIsHonest(s) && Paced(s)
    && (s.wpc.MovingWrite? ==> s.sh.Get(s.temp).Contents() == [])
    && InOrder(s) && Counted(s, capacity)
  }

  // ---- The writer's turns ----

  lemma StoreKeepsOrder<T>(s: Threads<T>, x: T, exits: bool, capacity: nat)
    requires Tracked(s, capacity) && s.wpc.Writing?
    ensures Tracked(Take(s, Writer(x), exits), capacity)
  {
    var y, t := s.wpc.x, Take(s, Writer(x), exits);
    WriterKeepsCoherence(s, x, exits);
    WriteContents(s.WriteRing(), y);
    assert t.sh.WriteSide() == s.sh.WriteSide() + [y] && t.sh.ReadSide() == s.sh.ReadSide();
    Regroup(s.sh.ReadSide(), s.sh.WriteSide(), [y]);
    Regroup(s.log + InFlight(s), Pending(s), [y]);
  }

  /** When the writer finds the flag down over a full write ring, there is nothing left to read. */
  lemma FlagDownMeansRead<T>(s: Threads<T>, x: T, exits: bool, capacity: nat)
    requires Tracked(s, capacity) && s.wpc.TestingFlag? && !s.sh.flag
    requires Attended(Take(s, Writer(x), exits), Bound(capacity))
    ensures s.sh.ReadSide() == []
  {
    assert |s.sh.WriteSide()| == capacity;
  }

  lemma StartOfSwapKeepsOrder<T>(s: Threads<T>, x: T, exits: bool, capacity: nat)
    requires Tracked(s, capacity) && s.wpc.MovingRead?
    ensures Tracked(Take(s, Writer(x), exits), capacity)
  {
    WriterKeepsCoherence(s, x, exits);
    assert |s.sh.WriteSide()| == capacity;
    assert s.sh.ReadSide() + s.sh.WriteSide() == s.sh.WriteSide();
  }

  lemma EndOfSwapKeepsPending<T>(s: Threads<T>, x: T, exits: bool)
    requires s.sh.Valid() && s.wpc.MovingWrite? && s.sh.Get(s.temp).Contents() == []
    ensures var t := Take(s, Writer(x), exits);
            t.sh.WriteSide() == [] && Pending(t) == Pending(s)
  {
    var t := Take(s, Writer(x), exits);
    assert t.sh.ReadSide() == s.sh.ReadSide() && t.sh.WriteSide() == [];
  }

  lemma OneSwapMore(capacity: nat, swaps: nat)
    ensures capacity * (swaps + 1) == capacity * swaps + capacity
  {
  }

  lemma EndOfSwapKeepsOrder<T>(s: Threads<T>, x: T, exits: bool, capacity: nat)
    requires Tracked(s, capacity) && s.wpc.MovingWrite?
    ensures Tracked(Take(s, Writer(x), exits), capacity)
  {
    WriterKeepsCoherence(s, x, exits);
    EndOfSwapKeepsPending(s, x, exits);
    OneSwapMore(capacity, s.swaps);
  }

  lemma FlagTestKeepsOrder<T>(s: Threads<T>, x: T, exits: bool, capacity: nat)
    requires Tracked(s, capacity) && s.wpc.TestingFlag?
    requires Attended(Take(s, Writer(x), exits), Bound(capacity))
    ensures Tracked(Take(s, Writer(x), exits), capacity)
  {
    WriterKeepsCoherence(s, x, exits);
    if !s.sh.flag {
      FlagDownMeansRead(s, x, exits, capacity);
    }
  }

  /** The writer's turns that touch neither a ring nor the read and write pointers. */
  lemma QuietTurnKeepsOrder<T>(s: Threads<T>, x: T, exits: bool, capacity: nat)
    requires Tracked(s, capacity)
    requires s.wpc.Receiving? || s.wpc.TestingFull? || s.wpc.SavingRead? || s.wpc.Exited?
    ensures Tracked(Take(s, Writer(x), exits), capacity)
  {
    WriterKeepsCoherence(s, x, exits);
  }

  lemma WriterKeepsOrder<T>(s: Threads<T>, x: T, exits: bool, capacity: nat)
    requires Tracked(s, capacity) && Attended(Take(s, Writer(x), exits), Bound(capacity))
    ensures Tracked(Take(s, Writer(x), exits), capacity)
  {
    match s.wpc
    case Writing(_) => StoreKeepsOrder(s, x, exits, capacity);
    case MovingRead => StartOfSwapKeepsOrder(s, x, exits, capacity);
    case MovingWrite => EndOfSwapKeepsOrder(s, x, exits, capacity);
    case TestingFlag => FlagTestKeepsOrder(s, x, exits, capacity);
    case _ => QuietTurnKeepsOrder(s, x, exits, capacity);
  }

  // ---- The logger's turns ----

  /** A read takes the oldest pending frame and leaves everything else in place. */
  lemma ReadTakesTheOldest<T>(s: Threads<T>)
    requires Coherent(s) && s.lpc.Reading? && !s.wpc.Exited?
    ensures var t := LoggerStep(s);
            && Pending(s) == [s.ReadRing().ValueRead()] + Pending(t)
            && s.sh.ReadSide() != []
            && (!s.wpc.MovingWrite? ==> t.sh.WriteSide() == s.sh.WriteSide())
            && (s.wpc.MovingWrite? ==> t.sh.Get(s.temp) == s.sh.Get(s.temp))
  {
    var t, r := LoggerStep(s), s.ReadRing();
    ReadContents(r);
    assert s.sh.ReadSide() == [r.ValueRead()] + t.sh.ReadSide();
    if !s.wpc.MovingWrite? {
      Regroup([r.ValueRead()], t.sh.ReadSide(), s.sh.WriteSide());
    }
  }

  lemma MoveOne<T>(log: seq<T>, v: T, rest: seq<T>)
    ensures log + [v] + rest == log + [] + ([v] + rest)
  {
  }

  lemma ReadKeepsInOrder<T>(s: Threads<T>)
    requires Coherent(s) && s.lpc.Reading? && !s.wpc.Exited? && InOrder(s)
    ensures InOrder(LoggerStep(s))
  {
    ReadTakesTheOldest(s);
    MoveOne(s.log, s.ReadRing().ValueRead(), Pending(LoggerStep(s)));
  }

  lemma ReadKeepsOrder<T>(s: Threads<T>, exits: bool, capacity: nat)
    requires Tracked(s, capacity) && s.lpc.Reading? && !s.wpc.Exited?
    ensures Tracked(Take(s, Turn<T>.Logger, exits), capacity)
  {
    LoggerKeepsCoherence(s);
    ReadTakesTheOldest(s);
    ReadKeepsInOrder(s);
  }

  lemma LoggingKeepsOrder<T>(s: Threads<T>, exits: bool, capacity: nat)
    requires Tracked(s, capacity) && s.lpc.Logging? && !s.wpc.Exited?
    ensures Tracked(Take(s, Turn<T>.Logger, exits), capacity)
  {
    var t := Take(s, Turn<T>.Logger, exits);
    LoggerKeepsCoherence(s);
    assert t.log + InFlight(t) == s.log + InFlight(s);
  }

  lemma LoggerKeepsOrder<T>(s: Threads<T>, exits: bool, capacity: nat)
    requires Tracked(s, capacity)
    ensures Tracked(Take(s, Turn<T>.Logger, exits), capacity)
  {
    if !s.wpc.Exited? {
      match s.lpc {
        case Reading => ReadKeepsOrder(s, exits, capacity);
        case Logging(_) => LoggingKeepsOrder(s, exits, capacity);
        case _ => LoggerKeepsCoherence(s);
      }
    }
  }

  lemma TurnKeepsOrder<T>(s: Threads<T>, turn: Turn<T>, exits: bool, capacity: nat)
    requires Tracked(s, capacity) && Attended(Take(s, turn, exits), Bound(capacity))
    ensures Tracked(Take(s, turn, exits), capacity)
  {
    match turn
    case Writer(x) => WriterKeepsOrder(s, x, exits, capacity);
    case Logger => LoggerKeepsOrder(s, exits, capacity);
  }

  lemma {:induction false} AttentiveRunsStayOrdered<T>(s: Threads<T>, turns: seq<Turn<T>>, exits: bool, capacity: nat)
    requires Tracked(s, capacity) && Attentive(s, turns, exits, Bound(capacity))
    ensures Tracked(Interleave(s, turns, exits), capacity)
    decreases |turns|
  {
    if turns != [] {
      TurnKeepsOrder(s, turns[0], exits, capacity);
      AttentiveRunsStayOrdered(Take(s, turns[0], exits), turns[1..], exits, capacity);
    }
  }

  lemma StartIsTracked<T>(s: Threads<T>, capacity: nat)
    requires capacity >= 1 && Start(s, capacity)
    ensures Tracked(s, capacity)
  {
    assert capacity * s.swaps == 0;
  }

  /** Logger order, in every interleaving: if after each swap the logger has had 3 turns by the
      writer's (3 * CBSIZE + 3)rd, then in every reachable state the log, the frame in the
      logger's hand, the read ring and the write ring, one after the other, are the accepted
      frames in arrival order, and CBSIZE of them were handed over by each swap. */
  lemma LogIsInArrivalOrder<T>(s: Threads<T>, turns: seq<Turn<T>>, exits: bool, capacity: nat)
    requires capacity >= 1 && Start(s, capacity)
    requires Attentive(s, turns, exits, Bound(capacity))
    ensures var t := Interleave(s, turns, exits);
            && t.log + InFlight(t) + Pending(t) == t.accepted
            && |t.accepted| == capacity * t.swaps + if t.wpc.MovingWrite? then capacity else |t.sh.WriteSide()|
  {
    StartIsTracked(s, capacity);
    AttentiveRunsStayOrdered(s, turns, exits, capacity);
  }

  lemma CancelFront<T>(a: seq<T>, b: seq<T>, c: seq<T>)
    ensures a + b == a + c <==> b == c
  {
    if a + b == a + c {
      assert b == (a + b)[|a|..] && c == (a + c)[|a|..];
    }
  }

  lemma WhenRingsCommute<T>(unread: seq<T>, written: seq<T>)
    requires written != [] && forall f :: f in unread ==> f !in written
    ensures unread + written == written + unread <==> unread == []
  {
    if unread != [] {
      assert (unread + written)[0] == unread[0] && (written + unread)[0] == written[0];
      assert unread[0] in unread && written[0] in written;
    }
  }

  /** One swap, at whatever moment: it keeps the order exactly when the two rings commute; if no
      frame is in both, exactly when there was nothing left to read. */
  lemma SwapKeepsOrderExactly<T>(s: Threads<T>, x: T, y: T, exits: bool)
    requires Coherent(s) && InOrder(s) && s.wpc.MovingRead?
    ensures var t := Take(Take(s, Writer(x), exits), Writer(y), exits);
            var unread, written := s.sh.ReadSide(), s.sh.WriteSide();
            && (InOrder(t) <==> unread + written == written + unread)
            && ((forall f :: f in unread ==> f !in written) ==> (InOrder(t) <==> unread == []))
  {
    var unread, written := s.sh.ReadSide(), s.sh.WriteSide();
    SwapExchanges(s, x, y, exits);
    CancelFront(s.log + InFlight(s), written + unread, unread + written);
    if forall f :: f in unread ==> f !in written {
      WhenRingsCommute(unread, written);
    }
  }

  lemma SwapExchanges<T>(s: Threads<T>, x: T, y: T, exits: bool)
    requires Coherent(s) && s.wpc.MovingRead?
    ensures var t := Take(Take(s, Writer(x), exits), Writer(y), exits);
            && Pending(t) == s.sh.WriteSide() + s.sh.ReadSide() && s.sh.WriteSide() != []
            && t.log == s.log && t.lpc == s.lpc && t.accepted == s.accepted
  {
  }

  // ---- The bound is exact ----

  /** An attentive run leads from s to t. */
  ghost predicate Leads<T>(s: Threads<T>, turns: seq<Turn<T>>, exits: bool, bound: nat, t: Threads<T>)
    requires s.sh.Valid()
  {
    Attentive(s, turns, exits, bound) && Interleave(s, turns, exits) == t
  }

  lemma {:induction false} LeadsOn<T>(s: Threads<T>, a: seq<Turn<T>>, t: Threads<T>, b: seq<Turn<T>>, u: Threads<T>,
                                      exits: bool, bound: nat)
    requires s.sh.Valid() && t.sh.Valid()
    requires Leads(s, a, exits, bound, t) && Leads(t, b, exits, bound, u)
    ensures Leads(s, a + b, exits, bound, u)
    decreases |a|
  {
    if a == [] {
      assert a + b == b;
    } else {
      assert (a + b)[1..] == a[1..] + b;
      LeadsOn(Take(s, a[0], exits), a[1..], t, b, u, exits, bound);
    }
  }

  lemma {:induction false} LoggerAttends<T>(s: Threads<T>, n: nat, exits: bool, bound: nat)
    requires s.sh.Valid() && Attended(s, bound)
    ensures Attentive(s, Alone(Turn<T>.Logger, n), exits, bound)
    decreases n
  {
    if n > 0 {
      assert Alone(Turn<T>.Logger, n)[1..] == Alone(Turn<T>.Logger, n - 1);
      LoggerAttends(Take(s, Turn<T>.Logger, exits), n - 1, exits, bound);
    }
  }

  lemma {:induction false} WriterAttends<T>(s: Threads<T>, x: T, n: nat, exits: bool, bound: nat)
    requires s.sh.Valid() && n <= bound
    requires s.swaps == 0 || s.loggerTurns >= 3 || s.writerTurns + n < bound
    ensures Attentive(s, Alone(Writer(x), n), exits, bound)
    decreases n
  {
    if n > 0 {
      assert Alone(Writer(x), n)[1..] == Alone(Writer(x), n - 1);
      WriterAttends(Take(s, Writer(x), exits), x, n - 1, exits, bound);
    }
  }

  lemma ThreeLead<T>(s: Threads<T>, a: seq<Turn<T>>, t: Threads<T>, b: seq<Turn<T>>, u: Threads<T>, c: seq<Turn<T>>,
                     v: Threads<T>, exits: bool, bound: nat)
    requires s.sh.Valid() && t.sh.Valid() && u.sh.Valid()
    requires Leads(s, a, exits, bound, t) && Leads(t, b, exits, bound, u) && Leads(u, c, exits, bound, v)
    ensures Leads(s, a + (b + c), exits, bound, v)
  {
    LeadsOn(t, b, u, c, v, exits, bound);
    LeadsOn(s, a, t, b + c, v, exits, bound);
  }

  // The pieces of which the run is made.

  /** From s to t the writer has stored n copies of x, in 3 turns each. */
  ghost predicate Stores<T>(s: Threads<T>, t: Threads<T>, n: nat, x: T)
    requires s.sh.Valid() && t.sh.Valid()
  {
    && Filled(WholePasses(s), WholePasses(t), n, x)
    && t.wpc == s.wpc && t.lpc == s.lpc
    && t.writerTurns == s.writerTurns + 3 * n && t.loggerTurns == s.loggerTurns
  }

  lemma StoreLeads<T>(s: Threads<T>, x: T, exits: bool, bound: nat) returns (t: Threads<T>)
    requires s.sh.Valid() && s.wpc.Receiving? && !s.WriteRing().IsFull()
    requires bound >= 3 && (s.swaps == 0 || s.writerTurns + 3 < bound)
    ensures t.sh.Valid() && Leads(s, Alone(Writer(x), 3), exits, bound, t) && Stores(s, t, 1, x)
  {
    t := Interleave(s, Alone(Writer(x), 3), exits);
    WriterAttends(s, x, 3, exits, bound);
    StoreOrDropPass(s, x, exits);
    FillOnce(WholePasses(s), x);
  }

  lemma NoStoresLead<T>(s: Threads<T>, x: T, exits: bool, bound: nat)
    requires s.sh.Valid() && Attended(s, bound)
    ensures Leads(s, Alone(Writer(x), 0), exits, bound, s) && Stores(s, s, 0, x)
  {
    assert s.accepted + Copies(0, x) == s.accepted;
    assert s.sh.WriteSide() + Copies(0, x) == s.sh.WriteSide();
  }

  lemma OneStoreMore<T>(s: Threads<T>, t: Threads<T>, u: Threads<T>, n: nat, x: T, exits: bool, bound: nat)
    requires s.sh.Valid() && t.sh.Valid() && u.sh.Valid()
    requires Leads(s, Alone(Writer(x), 3), exits, bound, t) && Stores(s, t, 1, x)
    requires Leads(t, Alone(Writer(x), 3 * n), exits, bound, u) && Stores(t, u, n, x)
    ensures Leads(s, Alone(Writer(x), 3 * (n + 1)), exits, bound, u) && Stores(s, u, n + 1, x)
  {
    LeadsOn(s, Alone(Writer(x), 3), t, Alone(Writer(x), 3 * n), u, exits, bound);
    assert Alone(Writer(x), 3) + Alone(Writer(x), 3 * n) == Alone(Writer(x), 3 * (n + 1));
    FilledTransitive(WholePasses(s), WholePasses(t), WholePasses(u), n, x);
  }

  lemma {:induction false} StoresLead<T>(s: Threads<T>, n: nat, x: T, exits: bool, bound: nat) returns (t: Threads<T>)
    requires s.sh.Valid() && s.wpc.Receiving? && |s.sh.WriteSide()| + n < s.sh.ping.size
    requires bound >= 3 && (s.swaps == 0 || s.writerTurns + 3 * n < bound)
    ensures t.sh.Valid() && Leads(s, Alone(Writer(x), 3 * n), exits, bound, t) && Stores(s, t, n, x)
    decreases n
  {
    if n == 0 {
      t := s;
      NoStoresLead(s, x, exits, bound);
    } else {
      var u := StoreLeads(s, x, exits, bound);
      t := StoresLead(u, n - 1, x, exits, bound);
      OneStoreMore(s, u, t, n - 1, x, exits, bound);
    }
  }

  lemma SwapLeads<T>(s: Threads<T>, x: T, exits: bool, bound: nat)
    requires s.sh.Valid() && s.wpc.Receiving? && s.WriteRing().IsFull() && !s.sh.flag
    requires bound >= 6 && (s.swaps == 0 || s.writerTurns + 6 < bound)
    ensures Leads(s, Alone(Writer(x), 6), exits, bound, Swapped(s.(offered := s.offered + 1)))
  {
    WriterAttends(s, x, 6, exits, bound);
    SwapPass(s, x, exits);
  }

  /** After the writer has seen the flag down over a full ring. */
  function Decided<T>(s: Threads<T>): Threads<T> {
    s.(wpc := SavingRead, offered := s.offered + 1, writerTurns := s.writerTurns + 3)
  }

  lemma DecisionLeads<T>(s: Threads<T>, x: T, exits: bool, bound: nat)
    requires s.sh.Valid() && s.wpc.Receiving? && s.WriteRing().IsFull() && !s.sh.flag
    requires 3 <= bound && s.writerTurns + 3 < bound
    ensures Leads(s, Alone(Writer(x), 3), exits, bound, Decided(s))
  {
    WriterAttends(s, x, 3, exits, bound);
    SwapDecision(s, x, exits);
  }

  lemma ExchangeLeads<T>(s: Threads<T>, x: T, exits: bool, bound: nat)
    requires s.sh.Valid() && s.wpc.SavingRead? && s.loggerTurns >= 3 && bound >= 3
    ensures Leads(s, Alone(Writer(x), 3), exits, bound, Swapped(s))
  {
    WriterAttends(s, x, 3, exits, bound);
    SwapSteps(s, x, exits);
  }

  lemma LoggerTurnLeads<T>(s: Threads<T>, exits: bool, bound: nat)
    requires s.sh.Valid() && Attended(s, bound)
    ensures Leads(s, Alone(Turn<T>.Logger, 1), exits, bound, Take(s, Turn<T>.Logger, exits))
  {
    LoggerAttends(s, 1, exits, bound);
    OneTurnFirst(s, Turn<T>.Logger, 1, exits);
  }

  /** The logger finds nothing and pauses before it lowers the flag. The writer fills its ring
      and swaps. The logger goes on until it is about to raise the flag. The writer fills its
      ring again and sees the flag down; then the flag goes up and the writer swaps. */
  function LateRun(capacity: nat): seq<Turn<int>> {
    LateRunToSwap(capacity) + LateRunFromSwap(capacity)
  }

  function LateRunToSwap(capacity: nat): seq<Turn<int>> {
    Alone(Turn<int>.Logger, 1) + (Alone(Writer(0), 3 * capacity) + Alone(Writer(0), 6))
  }

  function LateRunFromSwap(capacity: nat): seq<Turn<int>> {
    Alone(Turn<int>.Logger, 2) +
    (Alone(Writer(1), 3 * capacity) + (Alone(Writer(1), 3) + (Alone(Turn<int>.Logger, 1) + Alone(Writer(1), 3))))
  }

  /** A full read ring of zeros that the logger, about to lower the flag, has not looked at. */
  ghost predicate UnreadZeros(s: Threads<int>, capacity: nat) {
    && s.sh.Valid() && s.sh.ping.size == capacity + 1 && s.sh.read != s.sh.write && !s.sh.flag
    && s.wpc.Receiving? && s.lpc.LoweringFlag? && s.writerTurns == s.loggerTurns == 0
    && s.offered == capacity + 1 && s.notReady == 0
    && s.log == [] && s.sh.WriteSide() == [] && s.sh.ReadSide() == s.accepted == Copies(capacity, 0)
  }

  lemma LateRunReachesSwap(s: Threads<int>, exits: bool, capacity: nat) returns (t: Threads<int>)
    requires capacity >= 1 && Start(s, capacity)
    ensures UnreadZeros(t, capacity) && Leads(s, LateRunToSwap(capacity), exits, Bound(capacity) + 1, t)
  {
    var bound := Bound(capacity) + 1;
    var s1 := Take(s, Turn<int>.Logger, exits);
    LoggerTurnLeads(s, exits, bound);
    var s2 := StoresLead(s1, capacity, 0, exits, bound);
    t := Swapped(s2.(offered := s2.offered + 1));
    ZerosAreUnread(s1, s2, capacity);
    SwapLeads(s2, 0, exits, bound);
    ThreeLead(s, Alone(Turn<int>.Logger, 1), s1, Alone(Writer(0), 3 * capacity), s2, Alone(Writer(0), 6), t, exits, bound);
  }

  lemma ZerosAreUnread(s: Threads<int>, t: Threads<int>, capacity: nat)
    requires s.sh.Valid() && t.sh.Valid() && Stores(s, t, capacity, 0)
    requires s.sh.ping.size == capacity + 1 && s.sh.read != s.sh.write && !s.sh.flag
    requires s.wpc.Receiving? && s.lpc.LoweringFlag? && s.log == s.accepted == [] && s.offered == s.notReady == 0
    requires s.sh.ReadSide() == s.sh.WriteSide() == []
    ensures t.WriteRing().IsFull() && !t.sh.flag
    ensures UnreadZeros(Swapped(t.(offered := t.offered + 1)), capacity)
  {
    assert t.sh.WriteSide() == Copies(capacity, 0) == t.accepted;
    assert t.sh.ReadSide() == [];
  }

  lemma LoggerWakesUp(s: Threads<int>, exits: bool, capacity: nat)
    requires capacity >= 1 && UnreadZeros(s, capacity)
    ensures Leads(s, Alone(Turn<int>.Logger, 2), exits, Bound(capacity) + 1, s.(lpc := RaisingFlag, loggerTurns := 2))
  {
    LoggerAttends(s, 2, exits, Bound(capacity) + 1);
    OneTurnFirst(s, Turn<int>.Logger, 2, exits);
    OneTurnFirst(Take(s, Turn<int>.Logger, exits), Turn<int>.Logger, 1, exits);
  }

  /** The write ring full, the flag seen down by the writer, and then raised. */
  lemma FlagGoesUpTooLate(s: Threads<int>, exits: bool, capacity: nat)
    requires s.sh.Valid() && !s.sh.flag && s.WriteRing().IsFull()
    requires s.wpc.Receiving? && s.lpc.RaisingFlag? && s.loggerTurns == 2
    requires s.writerTurns == 3 * capacity
    ensures Leads(s, Alone(Writer(1), 3) + (Alone(Turn<int>.Logger, 1) + Alone(Writer(1), 3)), exits, Bound(capacity) + 1,
                  Swapped(Take(Decided(s), Turn<int>.Logger, exits)))
  {
    var bound, s1 := Bound(capacity) + 1, Decided(s);
    var s2 := Take(s1, Turn<int>.Logger, exits);
    DecisionLeads(s, 1, exits, bound);
    LoggerTurnLeads(s1, exits, bound);
    ExchangeLeads(s2, 1, exits, bound);
    ThreeLead(s, Alone(Writer(1), 3), s1, Alone(Turn<int>.Logger, 1), s2, Alone(Writer(1), 3), Swapped(s2), exits, bound);
  }

  /** After the second swap the ones are in front of the zeros. */
  ghost predicate OnesFirst(t: Threads<int>, capacity: nat) {
    && t.sh.Valid() && t.wpc.Receiving? && t.log == [] && InFlight(t) == []
    && t.accepted == Copies(capacity, 0) + Copies(capacity, 1)
    && t.sh.ReadSide() == Copies(capacity, 1) && t.sh.WriteSide() == Copies(capacity, 0)
  }

  lemma LateRunSwapsBack(s: Threads<int>, exits: bool, capacity: nat) returns (t: Threads<int>)
    requires capacity >= 1 && UnreadZeros(s, capacity)
    ensures OnesFirst(t, capacity) && Leads(s, LateRunFromSwap(capacity), exits, Bound(capacity) + 1, t)
  {
    var bound, s1 := Bound(capacity) + 1, s.(lpc := RaisingFlag, loggerTurns := 2);
    LoggerWakesUp(s, exits, capacity);
    var s2 := StoresLead(s1, capacity, 1, exits, bound);
    OnesAreFirst(s1, s2, exits, capacity);
    FlagGoesUpTooLate(s2, exits, capacity);
    t := Swapped(Take(Decided(s2), Turn<int>.Logger, exits));
    ThreeLead(s, Alone(Turn<int>.Logger, 2), s1, Alone(Writer(1), 3 * capacity), s2,
              Alone(Writer(1), 3) + (Alone(Turn<int>.Logger, 1) + Alone(Writer(1), 3)), t, exits, bound);
  }

  lemma OnesAreFirst(s: Threads<int>, t: Threads<int>, exits: bool, capacity: nat)
    requires s.sh.Valid() && t.sh.Valid() && Stores(s, t, capacity, 1)
    requires s.sh.ping.size == capacity + 1 && s.sh.read != s.sh.write && s.log == []
    requires s.wpc.Receiving? && !s.lpc.Logging? && s.sh.WriteSide() == []
    requires s.sh.ReadSide() == s.accepted == Copies(capacity, 0)
    ensures t.WriteRing().IsFull() && t.sh.read != t.sh.write && t.sh.flag == s.sh.flag
    ensures s.lpc.RaisingFlag? ==> OnesFirst(Swapped(Take(Decided(t), Turn<int>.Logger, exits)), capacity)
    ensures OnesFirst(Swapped(t.(offered := t.offered + 1)), capacity)
  {
    assert t.sh.WriteSide() == Copies(capacity, 1);
    assert t.sh.ReadSide() == Copies(capacity, 0);
  }

  /** The bound is exact: if the writer may have one turn more, then for every ring size there
      is a run after which an unread ring is the write ring and a later one is read first. */
  lemma OneTurnMoreBreaksOrder(s: Threads<int>, exits: bool, capacity: nat)
    requires capacity >= 1 && Start(s, capacity)
    ensures Attentive(s, LateRun(capacity), exits, Bound(capacity) + 1)
    ensures var t := Interleave(s, LateRun(capacity), exits);
            && t.log == [] && t.accepted == Copies(capacity, 0) + Copies(capacity, 1)
            && Pending(t) == Copies(capacity, 1) + Copies(capacity, 0) != t.accepted
  {
    var t := LateRunReachesSwap(s, exits, capacity);
    var u := LateRunSwapsBack(t, exits, capacity);
    LeadsOn(s, LateRunToSwap(capacity), t, LateRunFromSwap(capacity), u, exits, Bound(capacity) + 1);
    assert Pending(u)[0] == 1 && u.accepted[0] == 0;
  }

  /** The writer fills its ring and swaps, in passes that no turn of the logger interrupts. */
  function FillAndSwap(capacity: nat): seq<Turn<int>> {
    Alone(Writer(1), 3 * capacity) + Alone(Writer(1), 6)
  }

  lemma FillAndSwapBack(s: Threads<int>, exits: bool, capacity: nat)
    requires capacity >= 1 && UnreadZeros(s.(lpc := LoweringFlag, loggerTurns := 0), capacity) && s.lpc.TestingEmpty?
    ensures var t := Interleave(s, FillAndSwap(capacity), exits);
            OnesFirst(t, capacity) && t.offered == s.offered + capacity + 1
  {
    var bound := 3 * capacity + 7;
    var t := StoresLead(s, capacity, 1, exits, bound);
    OnesAreFirst(s, t, exits, capacity);
    SwapLeads(t, 1, exits, bound);
    LeadsOn(s, Alone(Writer(1), 3 * capacity), t, Alone(Writer(1), 6), Swapped(t.(offered := t.offered + 1)), exits, bound);
  }

  /** If passes overlap, a logger that ends a pass among every CBSIZE + 2 consecutive offers is not
      enough: one that tested the ring before the swap lowers the flag after it, and the writer
      then fills its ring and swaps again. */
  lemma OverlappingPassesBreakOrder(s: Threads<int>, exits: bool, capacity: nat)
    requires capacity >= 1 && Start(s, capacity)
    ensures var t := Interleave(s, LateRunToSwap(capacity), exits);
            var u := Take(t, Turn<int>.Logger, exits);
            var v := Interleave(u, FillAndSwap(capacity), exits);
            && t.lpc.LoweringFlag? && u.lpc.TestingEmpty?
            && u.offered == capacity + 1 && v.offered == u.offered + capacity + 1
            && v.log == [] && v.accepted == Copies(capacity, 0) + Copies(capacity, 1)
            && Pending(v) == Copies(capacity, 1) + Copies(capacity, 0) != v.accepted
  {
    var t := LateRunReachesSwap(s, exits, capacity);
    var u := Take(t, Turn<int>.Logger, exits);
    FillAndSwapBack(u, exits, capacity);
    var v := Interleave(u, FillAndSwap(capacity), exits);
    assert Pending(v)[0] == 1 && v.accepted[0] == 0;
  }
}
