/** bbones/planebone/main_plane.c again, with each ring call and each assignment as one
    step, so that the threads interleave inside a swap and inside a loop body. */
module LoggerInterleaving {
  import opened Rings
  import opened LoggerProtocol

  /** Where the writer is, between two of its steps. */
  datatype WriterPC<T> =
    | Receiving
    | TestingFull(x: T)
    | Writing(x: T)
    | TestingFlag
    | SavingRead
    | MovingRead
    | MovingWrite
    | Exited

  datatype LoggerPC<T> =
    | TestingEmpty
    | RaisingFlag
    | Reading
    | Logging(y: T)
    | LoweringFlag

  /** `temp` is the local of switch_cb_*_pointers; the fields from `accepted` on are
      bookkeeping. The turns are counted from the last completed swap. */
  datatype Threads<T> = Threads(
    sh: Shared<T>, wpc: WriterPC<T>, temp: Which, lpc: LoggerPC<T>, log: seq<T>,
    accepted: seq<T>, offered: nat, swaps: nat, notReady: nat, writerTurns: nat, loggerTurns: nat)
  {
    function WriteRing(): Ring<T> { sh.Get(sh.write) }
    function ReadRing(): Ring<T> { sh.Get(sh.read) }
  }

  /** One writer step; x is the frame that arrives if the writer is waiting for one.
      On the LISA path a busy logger makes the writer exit, on the ground path it drops. */
  function WriterStep<T>(s: Threads<T>, x: T, exits: bool): (r: Threads<T>)
    requires s.sh.Valid()
    ensures r.sh.Valid()
  {
    match s.wpc
    case Receiving => s.(wpc := TestingFull(x), offered := s.offered + 1)
    case TestingFull(y) => s.(wpc := if !s.WriteRing().IsFull() then Writing(y) else TestingFlag)
    case Writing(y) =>
      s.(sh := s.sh.Put(s.sh.write, s.WriteRing().Write(y)), accepted := s.accepted + [y], wpc := Receiving)
    case TestingFlag =>
      if !s.sh.flag then s.(wpc := SavingRead)
      else s.(notReady := s.notReady + 1, wpc := if exits then Exited else Receiving)
    case SavingRead => s.(temp := s.sh.read, wpc := MovingRead)
    case MovingRead => s.(sh := s.sh.(read := s.sh.write), wpc := MovingWrite)
    case MovingWrite => s.(sh := s.sh.(write := s.temp), swaps := s.swaps + 1, wpc := Receiving)
    case Exited => s
  }

  /** One logger step. The process is gone once the writer has called exit. */
  function LoggerStep<T>(s: Threads<T>): (r: Threads<T>)
    requires s.sh.Valid()
    ensures r.sh.Valid()
  {
    if s.wpc.Exited? then s else
    match s.lpc
    case TestingEmpty => s.(lpc := if !s.ReadRing().IsEmpty() then RaisingFlag else LoweringFlag)
    case RaisingFlag => s.(sh := s.sh.(flag := true), lpc := Reading)
    case Reading =>
      s.(sh := s.sh.Put(s.sh.read, s.ReadRing().AfterRead()), lpc := Logging(s.ReadRing().ValueRead()))
    case Logging(y) => s.(log := s.log + [y], lpc := TestingEmpty)
    case LoweringFlag => s.(sh := s.sh.(flag := false), lpc := TestingEmpty)
  }

  datatype Turn<T> = Writer(x: T) | Logger

  function Take<T>(s: Threads<T>, turn: Turn<T>, exits: bool): (r: Threads<T>)
    requires s.sh.Valid()
    ensures r.sh.Valid()
  {
    if s.wpc.Exited? then s
    else match turn
      case Writer(x) =>
        if s.wpc.MovingWrite? then WriterStep(s, x, exits).(writerTurns := 0, loggerTurns := 0)
        else WriterStep(s, x, exits).(writerTurns := s.writerTurns + 1)
      case Logger => LoggerStep(s).(loggerTurns := s.loggerTurns + 1)
  }

  /** Every interleaving is a sequence of turns. */
  function Interleave<T>(s: Threads<T>, turns: seq<Turn<T>>, exits: bool): (r: Threads<T>)
    requires s.sh.Valid()
    ensures r.sh.Valid()
    decreases |turns|
  {
    if turns == [] then s else Interleave(Take(s, turns[0], exits), turns[1..], exits)
  }

  ghost predicate Start<T>(s: Threads<T>, capacity: nat) {
    && Initial(Link(s.sh, s.log, s.accepted, s.offered, s.swaps, s.notReady), capacity)
    && s.wpc == Receiving && s.lpc == TestingEmpty
    && s.writerTurns == s.loggerTurns == 0
  }

  /** No call is made that the ring does not allow. */
  ghost predicate Safe<T>(s: Threads<T>)
    requires s.sh.Valid()
  {
    && (s.wpc.Writing? ==> !s.WriteRing().IsFull())
    && (s.lpc.Reading? ==> !s.ReadRing().IsEmpty())
  }

  /** The pointers may only be equal between the two assignments of a swap, and until
      the swap is over the ring being handed across is known to be full. */
  ghost predicate Coherent<T>(s: Threads<T>) {
    && s.sh.Valid() && s.sh.ping.size >= 2
    && (s.sh.read == s.sh.write <==> s.wpc.MovingWrite?)
    && (s.wpc.MovingRead? ==> s.temp == s.sh.read)
    && (s.wpc.MovingWrite? ==> s.temp != s.sh.read)
    && (s.wpc.TestingFlag? || s.wpc.SavingRead? || s.wpc.MovingRead? ==> s.WriteRing().IsFull())
    && (s.lpc.RaisingFlag? ==> !s.ReadRing().IsEmpty())
    && Safe(s)
  }

  function InFlight<T>(s: Threads<T>): seq<T> {
    if s.lpc.Logging? then [s.lpc.y] else []
  }

  /** 1 while an offered frame is neither stored nor counted as lost. */
  function Undecided<T>(pc: WriterPC<T>): nat {
    if pc.Receiving? || pc.Exited? then 0 else 1
  }

  ghost function Stored<T>(sh: Shared<T>): multiset<T>
    requires sh.Valid()
  {
    multiset(sh.ping.Contents()) + multiset(sh.pong.Contents())
  }

  /** Frames are only ever moved. */
  ghost predicate Conserved<T>(s: Threads<T>)
    requires s.sh.Valid()
  {
    multiset(s.log) + multiset(InFlight(s)) + Stored(s.sh) == multiset(s.accepted)
  }

  /** Every offer is accepted, spent on a swap, dropped, or still undecided. */
  predicate Accounted<T>(s: Threads<T>) {
    s.offered == |s.accepted| + s.swaps + s.notReady + Undecided(s.wpc)
  }

  lemma WriterKeepsCoherence<T>(s: Threads<T>, x: T, exits: bool)
    requires Coherent(s)
    ensures Coherent(WriterStep(s, x, exits))
  {
    if s.wpc.Writing? {
      WriteContents(s.WriteRing(), s.wpc.x);
    }
  }

  lemma LoggerKeepsCoherence<T>(s: Threads<T>)
    requires Coherent(s)
    ensures Coherent(LoggerStep(s))
  {
    if s.lpc.Reading? {
      ReadContents(s.ReadRing());
    }
  }

  lemma WriteStores<T>(sh: Shared<T>, x: T)
    requires sh.Valid() && !sh.Get(sh.write).IsFull()
    ensures Stored(sh.Put(sh.write, sh.Get(sh.write).Write(x))) == Stored(sh) + multiset{x}
  {
    WriteContents(sh.Get(sh.write), x);
  }

  lemma ReadReleases<T>(sh: Shared<T>)
    requires sh.Valid() && !sh.Get(sh.read).IsEmpty()
    ensures multiset{sh.Get(sh.read).ValueRead()} + Stored(sh.Put(sh.read, sh.Get(sh.read).AfterRead())) == Stored(sh)
  {
    var r := sh.Get(sh.read);
    ReadContents(r);
    assert multiset(r.Contents()) == multiset{r.ValueRead()} + multiset(r.AfterRead().Contents());
  }

  lemma WriterConserves<T>(s: Threads<T>, x: T, exits: bool)
    requires Coherent(s) && Conserved(s)
    ensures Conserved(WriterStep(s, x, exits))
  {
    var t := WriterStep(s, x, exits);
    if s.wpc.Writing? {
      WriteStores(s.sh, s.wpc.x);
      assert multiset(t.accepted) == multiset(s.accepted) + multiset{s.wpc.x};
    } else {
      SameRings(s, t);
    }
  }

  lemma SameRings<T>(s: Threads<T>, t: Threads<T>)
    requires s.sh.Valid() && t.sh.Valid() && Conserved(s)
    requires t.sh.ping == s.sh.ping && t.sh.pong == s.sh.pong
    requires t.log == s.log && t.lpc == s.lpc && t.accepted == s.accepted
    ensures Conserved(t)
  {
    assert InFlight(s) == InFlight(t);
    assert Stored(t.sh) == Stored(s.sh);
  }

  lemma LoggerConserves<T>(s: Threads<T>)
    requires Coherent(s) && Conserved(s)
    ensures Conserved(LoggerStep(s))
  {
    if s.lpc.Reading? && !s.wpc.Exited? {
      ReadConserves(s);
    } else {
      var t := LoggerStep(s);
      SameStored(s.sh, t.sh);
      assert multiset(t.log) + multiset(InFlight(t)) == multiset(s.log) + multiset(InFlight(s));
    }
  }

  lemma ReadConserves<T>(s: Threads<T>)
    requires Coherent(s) && Conserved(s) && s.lpc.Reading? && !s.wpc.Exited?
    ensures Conserved(LoggerStep(s))
  {
    ReadReleases(s.sh);
    assert multiset(InFlight(LoggerStep(s))) == multiset{s.ReadRing().ValueRead()};
  }

  lemma SameStored<T>(s: Shared<T>, t: Shared<T>)
    requires s.Valid() && t.Valid() && t.ping == s.ping && t.pong == s.pong
    ensures Stored(t) == Stored(s)
  {
  }

  lemma TakeAccounts<T>(s: Threads<T>, turn: Turn<T>, exits: bool)
    requires s.sh.Valid() && Accounted(s)
    ensures Accounted(Take(s, turn, exits))
  {
  }

  ghost predicate Invariant<T>(s: Threads<T>) {
    Coherent(s) && Conserved(s) && Accounted(s)
  }

  lemma TakeKeepsInvariant<T>(s: Threads<T>, turn: Turn<T>, exits: bool)
    requires Invariant(s)
    ensures Invariant(Take(s, turn, exits))
  {
    match turn {
      case Writer(x) => WriterKeepsCoherence(s, x, exits); WriterConserves(s, x, exits);
      case Logger => LoggerKeepsCoherence(s); LoggerConserves(s);
    }
    TakeAccounts(s, turn, exits);
  }

  lemma {:induction false} InterleavingInvariant<T>(s: Threads<T>, turns: seq<Turn<T>>, exits: bool)
    requires Invariant(s)
    ensures Invariant(Interleave(s, turns, exits))
    decreases |turns|
  {
    if turns != [] {
      TakeKeepsInvariant(s, turns[0], exits);
      InterleavingInvariant(Take(s, turns[0], exits), turns[1..], exits);
    }
  }

  /** Interleaving safety: whatever the scheduler does, cbRead is never called on an empty
      ring and cbWrite never takes the branch that overwrites. */
  lemma RingCallsAreSafe<T>(s: Threads<T>, turns: seq<Turn<T>>, exits: bool, capacity: nat)
    requires capacity >= 1 && Start(s, capacity)
    ensures Safe(Interleave(s, turns, exits))
  {
    InterleavingInvariant(s, turns, exits);
  }

  /** Conservation in every interleaving, on the path that exits and on the one that does not. */
  lemma FramesAreConserved<T>(s: Threads<T>, turns: seq<Turn<T>>, exits: bool, capacity: nat)
    requires capacity >= 1 && Start(s, capacity)
    ensures var t := Interleave(s, turns, exits);
            && multiset(t.log) + multiset(InFlight(t)) + Stored(t.sh) == multiset(t.accepted)
            && t.offered == |t.accepted| + t.swaps + t.notReady + Undecided(t.wpc)
  {
    InterleavingInvariant(s, turns, exits);
  }

  // ---- A pass that is not interrupted is one step of LoggerProtocol ----

  function WholePasses<T>(s: Threads<T>): Link<T> {
    Link(s.sh, s.log, s.accepted, s.offered, s.swaps, s.notReady)
  }

  function Alone<T>(u: Turn<T>, n: nat): seq<Turn<T>> {
    seq(n, _ => u)
  }

  lemma OneTurnFirst<T>(s: Threads<T>, u: Turn<T>, n: nat, exits: bool)
    requires s.sh.Valid() && n > 0
    ensures Interleave(s, Alone(u, n), exits) == Interleave(Take(s, u, exits), Alone(u, n - 1), exits)
  {
    assert Alone(u, n)[1..] == Alone(u, n - 1);
  }

  lemma ThreeTurnsFirst<T>(s: Threads<T>, u: Turn<T>, n: nat, exits: bool)
    requires s.sh.Valid() && n >= 3
    ensures Interleave(s, Alone(u, n), exits)
         == Interleave(Take(Take(Take(s, u, exits), u, exits), u, exits), Alone(u, n - 3), exits)
  {
    OneTurnFirst(s, u, n, exits);
    OneTurnFirst(Take(s, u, exits), u, n - 1, exits);
    OneTurnFirst(Take(Take(s, u, exits), u, exits), u, n - 2, exits);
  }

  /** Where a swap of the rings leaves the writer. */
  function Swapped<T>(s: Threads<T>): Threads<T> {
    s.(sh := s.sh.(read := s.sh.write, write := s.sh.read), temp := s.sh.read,
       wpc := Receiving, swaps := s.swaps + 1, writerTurns := 0, loggerTurns := 0)
  }

  lemma SwapSteps<T>(s: Threads<T>, x: T, exits: bool)
    requires s.sh.Valid() && s.wpc.SavingRead?
    ensures Interleave(s, Alone(Writer(x), 3), exits) == Swapped(s)
  {
    var s1 := s.(temp := s.sh.read, wpc := MovingRead, writerTurns := s.writerTurns + 1);
    var s2 := s1.(sh := s.sh.(read := s.sh.write), wpc := MovingWrite, writerTurns := s.writerTurns + 2);
    assert Take(s, Writer(x), exits) == s1 && Take(s1, Writer(x), exits) == s2;
    ThreeTurnsFirst(s, Writer(x), 3, exits);
  }

  /** The first three steps of a swap. */
  lemma SwapDecision<T>(s: Threads<T>, x: T, exits: bool)
    requires s.sh.Valid() && s.wpc.Receiving? && s.WriteRing().IsFull() && !s.sh.flag
    ensures Interleave(s, Alone(Writer(x), 3), exits)
         == s.(wpc := SavingRead, offered := s.offered + 1, writerTurns := s.writerTurns + 3)
  {
    ThreeTurnsFirst(s, Writer(x), 3, exits);
  }

  /** The six steps of a swap. */
  lemma SwapPass<T>(s: Threads<T>, x: T, exits: bool)
    requires s.sh.Valid() && s.wpc.Receiving? && s.WriteRing().IsFull() && !s.sh.flag
    ensures Interleave(s, Alone(Writer(x), 6), exits) == Swapped(s.(offered := s.offered + 1))
  {
    var u := Writer(x);
    var half := s.(wpc := SavingRead, offered := s.offered + 1, writerTurns := s.writerTurns + 3);
    assert Take(Take(Take(s, u, exits), u, exits), u, exits) == half;
    ThreeTurnsFirst(s, u, 6, exits);
    SwapSteps(half, x, exits);
  }

  /** The three steps of a store or of a drop; on the LISA path a drop is the end. */
  lemma StoreOrDropPass<T>(s: Threads<T>, x: T, exits: bool)
    requires s.sh.Valid() && s.wpc.Receiving? && (!s.WriteRing().IsFull() || s.sh.flag)
    ensures var t := Interleave(s, Alone(Writer(x), 3), exits);
            && WholePasses(t) == WriterBody(WholePasses(s), x)
            && t.wpc == (if exits && s.WriteRing().IsFull() then Exited else Receiving)
            && t.lpc == s.lpc && t.temp == s.temp
            && t.writerTurns == s.writerTurns + 3 && t.loggerTurns == s.loggerTurns
  {
    ThreeTurnsFirst(s, Writer(x), 3, exits);
  }

  /** Store: 3 steps. Swap: 6 steps. Drop: 3 steps, after which the LISA path exits. */
  lemma UninterruptedWriterPass<T>(s: Threads<T>, x: T, exits: bool)
    requires s.sh.Valid() && s.wpc.Receiving?
    ensures var n := if s.WriteRing().IsFull() && !s.sh.flag then 6 else 3;
            var t := Interleave(s, Alone(Writer(x), n), exits);
            && WholePasses(t) == WriterBody(WholePasses(s), x)
            && t.wpc == (if exits && s.WriteRing().IsFull() && s.sh.flag then Exited else Receiving)
            && t.lpc == s.lpc
  {
    if s.WriteRing().IsFull() && !s.sh.flag {
      SwapPass(s, x, exits);
    } else {
      StoreOrDropPass(s, x, exits);
    }
  }

  lemma FourTurnsFirst<T>(s: Threads<T>, u: Turn<T>, exits: bool)
    requires s.sh.Valid()
    ensures Interleave(s, Alone(u, 4), exits) == Take(Take(Take(Take(s, u, exits), u, exits), u, exits), u, exits)
  {
    ThreeTurnsFirst(s, u, 4, exits);
    OneTurnFirst(Take(Take(Take(s, u, exits), u, exits), u, exits), u, 1, exits);
  }

  lemma TwoTurnsFirst<T>(s: Threads<T>, u: Turn<T>, exits: bool)
    requires s.sh.Valid()
    ensures Interleave(s, Alone(u, 2), exits) == Take(Take(s, u, exits), u, exits)
  {
    OneTurnFirst(s, u, 2, exits);
    OneTurnFirst(Take(s, u, exits), u, 1, exits);
  }

  /** Log one frame: 4 steps. Find nothing: 2 steps. */
  lemma UninterruptedLoggerPass<T>(s: Threads<T>, exits: bool)
    requires s.sh.Valid() && s.lpc.TestingEmpty? && !s.wpc.Exited?
    ensures var n := if s.ReadRing().IsEmpty() then 2 else 4;
            var t := Interleave(s, Alone(Turn<T>.Logger, n), exits);
            WholePasses(t) == LoggerBody(WholePasses(s)) && t.lpc.TestingEmpty? && t.wpc == s.wpc
  {
    if s.ReadRing().IsEmpty() {
      TwoTurnsFirst(s, Turn<T>.Logger, exits);
    } else {
      FourTurnsFirst(s, Turn<T>.Logger, exits);
    }
  }
}
