/** bbones/planebone/main_plane.c: that the logger empties its ring, lowers the flag again, and so
    keeps the writer from losing frames. */
module LoggerProgress {
  import opened Rings
  import opened LoggerProtocol
  import opened LoggerInterleaving
  import opened LoggerOrder

  // ---- Whole passes ----

  function Polls<T>(n: nat): seq<Event<T>> {
    seq(n, _ => Poll)
  }

  /** One poll of a filled ring logs its oldest frame, with the flag up. */
  lemma PollLogsOne<T>(s: Link<T>)
    requires s.sh.Valid() && s.sh.read != s.sh.write && s.sh.ReadSide() != []
    ensures var t := LoggerBody(s);
            && t.log == s.log + [s.sh.ReadSide()[0]] && t.sh.ReadSide() == s.sh.ReadSide()[1..] && t.sh.flag
            && t.sh.WriteSide() == s.sh.WriteSide() && t.sh.read == s.sh.read && t.sh.write == s.sh.write
  {
    ReadContents(s.sh.Get(s.sh.read));
  }

  /** From s to t the first k frames of the read ring have been logged, with the flag up; or all of
      them, and the flag is down again. */
  ghost predicate Drains<T>(s: Link<T>, t: Link<T>, k: nat)
    requires s.sh.Valid() && t.sh.Valid()
  {
    var r := s.sh.ReadSide();
    if k <= |r| then t.log == s.log + r[..k] && t.sh.ReadSide() == r[k..] && (k > 0 ==> t.sh.flag)
    else t.log == s.log + r && t.sh.ReadSide() == [] && !t.sh.flag
  }

  /** Everything that only the writer changes. */
  ghost predicate SameOffers<T>(s: Link<T>, t: Link<T>)
    requires s.sh.Valid() && t.sh.Valid()
  {
    && t.sh.read == s.sh.read && t.sh.write == s.sh.write && t.sh.WriteSide() == s.sh.WriteSide()
    && t.accepted == s.accepted && t.offered == s.offered && t.swaps == s.swaps && t.notReady == s.notReady
  }

  lemma DrainOneMore<T>(s: Link<T>, t: Link<T>, k: nat)
    requires s.sh.Valid() && t.sh.Valid() && s.sh.read != s.sh.write && s.sh.ReadSide() != [] && k > 0
    requires Drains(LoggerBody(s), t, k - 1) && (k == 1 ==> t == LoggerBody(s))
    ensures Drains(s, t, k)
  {
    PollLogsOne(s);
    FirstOfMany(s.log, s.sh.ReadSide(), k);
  }

  lemma PollOfEmpty<T>(s: Link<T>)
    requires s.sh.Valid() && s.sh.ReadSide() == []
    ensures LoggerBody(s).log == s.log && LoggerBody(s).sh.ReadSide() == [] && !LoggerBody(s).sh.flag
  {
  }

  lemma DrainNothing<T>(s: Link<T>, t: Link<T>, k: nat)
    requires s.sh.Valid() && t.sh.Valid() && s.sh.ReadSide() == [] && k > 0
    requires Drains(LoggerBody(s), t, k - 1) && (k == 1 ==> t == LoggerBody(s))
    ensures Drains(s, t, k)
  {
    PollOfEmpty(s);
    NothingAppended(s.log);
  }

  lemma NothingAppended<T>(log: seq<T>)
    ensures log + [] == log
  {
  }

  lemma OnePollFirst<T>(s: Link<T>, n: nat)
    requires s.sh.Valid() && n > 0
    ensures Run(s, Polls(n)) == Run(LoggerBody(s), Polls(n - 1))
  {
    assert Polls<T>(n)[1..] == Polls<T>(n - 1);
  }

  /** Polls in a row log the frames of the read ring, one each, in order; a poll of an empty
      ring only lowers the flag. */
  lemma {:induction false} PollsDrain<T>(s: Link<T>, k: nat)
    requires s.sh.Valid() && s.sh.read != s.sh.write
    ensures Drains(s, Run(s, Polls(k)), k) && SameOffers(s, Run(s, Polls(k)))
    decreases k
  {
    if k == 0 {
      assert s.log + s.sh.ReadSide()[..0] == s.log;
    } else {
      OnePollFirst(s, k);
      PollKeepsOffers(s);
      PollsDrain(LoggerBody(s), k - 1);
      if s.sh.ReadSide() != [] {
        DrainOneMore(s, Run(s, Polls(k)), k);
      } else {
        DrainNothing(s, Run(s, Polls(k)), k);
      }
    }
  }

  lemma PollKeepsOffers<T>(s: Link<T>)
    requires s.sh.Valid() && s.sh.read != s.sh.write
    ensures SameOffers(s, LoggerBody(s))
  {
  }

  lemma FirstOfMany<T>(log: seq<T>, r: seq<T>, k: nat)
    requires r != [] && k > 0
    ensures k <= |r| ==> log + [r[0]] + r[1..][..k - 1] == log + r[..k] && r[1..][k - 1..] == r[k..]
    ensures log + [r[0]] + r[1..] == log + r
  {
  }

  // ---- Single steps ----

  /** How many turns the logger needs until the ring it reads is logged and the flag is down. */
  function Work<T>(s: Threads<T>): nat
    requires s.sh.Valid()
  {
    var n := |s.ReadRing().Contents()|;
    match s.lpc
    case TestingEmpty => if n > 0 then 4 * n + 2 else if s.sh.flag then 2 else 0
    case RaisingFlag => 4 * n + 1
    case Reading => 4 * n
    case Logging(_) => 4 * n + 3
    case LoweringFlag => if n > 0 then 4 * n + 3 else if s.sh.flag then 1 else 0
  }

  /** At most 4 turns for each frame, and 3 more. */
  lemma WorkIsBounded<T>(s: Threads<T>)
    requires s.sh.Valid()
    ensures Work(s) <= 4 * |s.sh.ReadSide()| + 3
  {
  }

  lemma NoWorkMeansDrained<T>(s: Threads<T>)
    requires Coherent(s)
    ensures Work(s) == 0 <==> s.sh.ReadSide() == [] && !s.sh.flag && InFlight(s) == [] && !s.lpc.Reading?
                              && !s.lpc.RaisingFlag?
  {
  }

  /** What the logger has logged, has in hand and can still read. */
  ghost function Ahead<T>(s: Threads<T>): seq<T>
    requires s.sh.Valid()
  {
    s.log + InFlight(s) + s.sh.ReadSide()
  }

  function LessOne(n: nat): nat {
    if n == 0 then 0 else n - 1
  }

  lemma ReadWorks<T>(s: Threads<T>)
    requires Coherent(s) && s.lpc.Reading? && !s.wpc.Exited?
    ensures var t := LoggerStep(s); Work(t) <= LessOne(Work(s)) && Ahead(t) == Ahead(s)
  {
    var r, t := s.ReadRing(), LoggerStep(s);
    ReadContents(r);
    assert s.sh.ReadSide() == [r.ValueRead()] + t.sh.ReadSide();
    MoveOne(s.log, r.ValueRead(), t.sh.ReadSide());
  }

  lemma LoggingWorks<T>(s: Threads<T>, exits: bool)
    requires Coherent(s) && s.lpc.Logging? && !s.wpc.Exited?
    ensures var t := Take(s, Turn<T>.Logger, exits); Work(t) <= LessOne(Work(s)) && Ahead(t) == Ahead(s)
  {
    var t := Take(s, Turn<T>.Logger, exits);
    assert t.log + InFlight(t) == s.log + InFlight(s);
  }

  /** Every turn of the logger does one piece of the work, as long as there is any. */
  lemma LoggerWorks<T>(s: Threads<T>, exits: bool)
    requires Coherent(s) && !s.wpc.Exited?
    ensures var t := Take(s, Turn<T>.Logger, exits); Work(t) <= LessOne(Work(s)) && Ahead(t) == Ahead(s)
  {
    match s.lpc
    case Reading => ReadWorks(s);
    case Logging(_) => LoggingWorks(s, exits);
    case _ =>
      assert Take(s, Turn<T>.Logger, exits).ReadRing() == s.ReadRing();
  }

  /** The writer adds no work, unless it moves the read pointer. */
  lemma WriterAddsNoWork<T>(s: Threads<T>, x: T, exits: bool)
    requires Coherent(s) && !s.wpc.MovingRead?
    ensures var t := Take(s, Writer(x), exits); Work(t) == Work(s) && Ahead(t) == Ahead(s)
  {
    ReadRingStays(s, x, exits);
  }

  lemma ReadRingStays<T>(s: Threads<T>, x: T, exits: bool)
    requires Coherent(s) && !s.wpc.MovingRead?
    ensures var t := Take(s, Writer(x), exits);
            t.ReadRing() == s.ReadRing() && t.sh.flag == s.sh.flag && t.lpc == s.lpc && t.log == s.log
  {
  }

  function LoggerTurns<T>(turns: seq<Turn<T>>): nat {
    if turns == [] then 0 else (if turns[0].Logger? then 1 else 0) + LoggerTurns(turns[1..])
  }

  /** A stretch of turns in which the read pointer is not moved. */
  ghost predicate KeepsReading<T>(s: Threads<T>, turns: seq<Turn<T>>, exits: bool)
    requires s.sh.Valid()
    decreases |turns|
  {
    turns != [] ==>
      && !(turns[0].Writer? && s.wpc.MovingRead?)
      && KeepsReading(Take(s, turns[0], exits), turns[1..], exits)
  }

  lemma {:induction false} ExitedStays<T>(s: Threads<T>, turns: seq<Turn<T>>, exits: bool)
    requires s.sh.Valid() && s.wpc.Exited?
    ensures Interleave(s, turns, exits) == s
    decreases |turns|
  {
    if turns != [] {
      ExitedStays(s, turns[1..], exits);
    }
  }

  lemma {:induction false} TurnsDoTheWork<T>(s: Threads<T>, turns: seq<Turn<T>>, exits: bool)
    requires Coherent(s) && KeepsReading(s, turns, exits) && !Interleave(s, turns, exits).wpc.Exited?
    ensures var t, n := Interleave(s, turns, exits), LoggerTurns(turns);
            Coherent(t) && Ahead(t) == Ahead(s) && Work(t) <= if n <= Work(s) then Work(s) - n else 0
    decreases |turns|
  {
    if turns != [] {
      if s.wpc.Exited? {
        ExitedStays(s, turns, exits);
      }
      var u := Take(s, turns[0], exits);
      match turns[0] {
        case Writer(x) => WriterKeepsCoherence(s, x, exits); WriterAddsNoWork(s, x, exits);
        case Logger => LoggerKeepsCoherence(s); LoggerWorks(s, exits);
      }
      TurnsDoTheWork(u, turns[1..], exits);
    }
  }

  /** Progress: whatever the writer does meanwhile, short of moving the read pointer or exiting, after
      4 turns of the logger for each frame in its ring and 3 more, all these frames and the one
      in its hand are in the log, in order, the ring is empty and the flag is down. */
  lemma LoggerDrains<T>(s: Threads<T>, turns: seq<Turn<T>>, exits: bool)
    requires Coherent(s) && KeepsReading(s, turns, exits) && !Interleave(s, turns, exits).wpc.Exited?
    requires LoggerTurns(turns) >= 4 * |s.sh.ReadSide()| + 3
    ensures var t := Interleave(s, turns, exits);
            t.log == s.log + InFlight(s) + s.sh.ReadSide() && t.sh.ReadSide() == [] && !t.sh.flag
  {
    var t := Interleave(s, turns, exits);
    TurnsDoTheWork(s, turns, exits);
    WorkIsBounded(s);
    NoWorkMeansDrained(t);
    assert t.log + [] + [] == t.log;
  }

  // ---- A logger that gets to drain its ring loses the writer nothing ----

  /** The turns a logger may need for a full ring: 4 for each frame, and 3 more. */
  function Due(capacity: nat): nat {
    4 * capacity + 3
  }

  /** Since the last completed swap the logger has had `due` turns, or the writer too few to
      have filled its ring. */
  predicate Diligent<T>(s: Threads<T>, capacity: nat, due: nat) {
    s.swaps == 0 || s.loggerTurns >= due || s.writerTurns < Bound(capacity)
  }

  ghost predicate AlwaysDiligent<T>(s: Threads<T>, turns: seq<Turn<T>>, exits: bool, capacity: nat, due: nat)
    requires s.sh.Valid()
    decreases |turns|
  {
    && Diligent(s, capacity, due)
    && (turns != [] ==> AlwaysDiligent(Take(s, turns[0], exits), turns[1..], exits, capacity, due))
  }

  /** What is left of the work that the last swap brought. */
  ghost predicate OnSchedule<T>(s: Threads<T>, capacity: nat)
    requires s.sh.Valid()
  {
    !s.wpc.MovingWrite? ==> Work(s) == 0 || (s.swaps > 0 && Work(s) + s.loggerTurns <= Due(capacity))
  }

  ghost predicate NothingLost<T>(s: Threads<T>, capacity: nat) {
    Tracked(s, capacity) && OnSchedule(s, capacity) && s.notReady == 0 && !s.wpc.Exited?
  }

  /** A writer that finds its ring full finds the flag down. */
  lemma FullRingMeansNoWork<T>(s: Threads<T>, x: T, exits: bool, capacity: nat)
    requires NothingLost(s, capacity) && s.wpc.TestingFlag? && Diligent(Take(s, Writer(x), exits), capacity, Due(capacity))
    ensures !s.sh.flag
  {
    assert |s.sh.WriteSide()| == capacity;
    assert Work(s) == 0;
    NoWorkMeansDrained(s);
  }

  lemma ScheduleIsKept<T>(s: Threads<T>, turn: Turn<T>, exits: bool, capacity: nat)
    requires NothingLost(s, capacity)
    ensures OnSchedule(Take(s, turn, exits), capacity)
  {
    match turn {
      case Writer(x) =>
        if s.wpc.MovingWrite? {
          WorkIsBounded(Take(s, turn, exits));
        } else if !s.wpc.MovingRead? {
          WriterAddsNoWork(s, x, exits);
        }
      case Logger => LoggerWorks(s, exits);
    }
  }

  lemma NothingIsDropped<T>(s: Threads<T>, turn: Turn<T>, exits: bool, capacity: nat)
    requires NothingLost(s, capacity) && Diligent(Take(s, turn, exits), capacity, Due(capacity))
    ensures Take(s, turn, exits).notReady == 0 && !Take(s, turn, exits).wpc.Exited?
  {
    if turn.Writer? && s.wpc.TestingFlag? {
      FullRingMeansNoWork(s, turn.x, exits, capacity);
    }
  }

  lemma DiligentIsAttended<T>(s: Threads<T>, capacity: nat)
    requires Diligent(s, capacity, Due(capacity))
    ensures Attended(s, Bound(capacity))
  {
  }

  lemma DiligentTurn<T>(s: Threads<T>, turn: Turn<T>, exits: bool, capacity: nat)
    requires NothingLost(s, capacity) && Diligent(Take(s, turn, exits), capacity, Due(capacity))
    ensures NothingLost(Take(s, turn, exits), capacity)
  {
    DiligentIsAttended(Take(s, turn, exits), capacity);
    TurnKeepsOrder(s, turn, exits, capacity);
    ScheduleIsKept(s, turn, exits, capacity);
    NothingIsDropped(s, turn, exits, capacity);
  }

  lemma {:induction false} DiligentTurns<T>(s: Threads<T>, turns: seq<Turn<T>>, exits: bool, capacity: nat)
    requires NothingLost(s, capacity) && AlwaysDiligent(s, turns, exits, capacity, Due(capacity))
    ensures NothingLost(Interleave(s, turns, exits), capacity)
    decreases |turns|
  {
    if turns != [] {
      DiligentTurn(s, turns[0], exits, capacity);
      DiligentTurns(Take(s, turns[0], exits), turns[1..], exits, capacity);
    }
  }

  /** No frame is dropped and the LISA path never exits if after each swap the logger gets
      4 * CBSIZE + 3 turns by the writer's (3 * CBSIZE + 3)rd; and the order is kept. */
  lemma DiligentLoggerLosesNothing<T>(s: Threads<T>, turns: seq<Turn<T>>, exits: bool, capacity: nat)
    requires capacity >= 1 && Start(s, capacity) && AlwaysDiligent(s, turns, exits, capacity, Due(capacity))
    ensures var t := Interleave(s, turns, exits);
            t.notReady == 0 && !t.wpc.Exited? && t.log + InFlight(t) + Pending(t) == t.accepted
  {
    StartIsTracked(s, capacity);
    DiligentTurns(s, turns, exits, capacity);
  }

  // ---- One turn less is not enough ----

  lemma {:induction false} DiligentAppend<T>(s: Threads<T>, a: seq<Turn<T>>, b: seq<Turn<T>>, exits: bool, capacity: nat,
                                             due: nat)
    requires s.sh.Valid() && AlwaysDiligent(s, a, exits, capacity, due)
    requires AlwaysDiligent(Interleave(s, a, exits), b, exits, capacity, due)
    ensures AlwaysDiligent(s, a + b, exits, capacity, due)
    ensures Interleave(s, a + b, exits) == Interleave(Interleave(s, a, exits), b, exits)
    decreases |a|
  {
    if a == [] {
      assert a + b == b;
    } else {
      assert (a + b)[1..] == a[1..] + b;
      DiligentAppend(Take(s, a[0], exits), a[1..], b, exits, capacity, due);
    }
  }

  lemma {:induction false} DiligentWriter<T>(s: Threads<T>, x: T, n: nat, exits: bool, capacity: nat, due: nat)
    requires s.sh.Valid() && n <= Bound(capacity)
    requires s.swaps == 0 || s.loggerTurns >= due || s.writerTurns + n < Bound(capacity)
    ensures AlwaysDiligent(s, Alone(Writer(x), n), exits, capacity, due)
    decreases n
  {
    if n > 0 {
      assert Alone(Writer(x), n)[1..] == Alone(Writer(x), n - 1);
      DiligentWriter(Take(s, Writer(x), exits), x, n - 1, exits, capacity, due);
    }
  }

  lemma {:induction false} DiligentLogger<T>(s: Threads<T>, n: nat, exits: bool, capacity: nat, due: nat)
    requires s.sh.Valid() && Diligent(s, capacity, due)
    ensures AlwaysDiligent(s, Alone(Turn<T>.Logger, n), exits, capacity, due)
    decreases n
  {
    if n > 0 {
      assert Alone(Turn<T>.Logger, n)[1..] == Alone(Turn<T>.Logger, n - 1);
      DiligentLogger(Take(s, Turn<T>.Logger, exits), n - 1, exits, capacity, due);
    }
  }

  /** n turns of the logger alone count as n, and leave the writer where it is. */
  lemma {:induction false} LoggerAlone<T>(s: Threads<T>, n: nat, exits: bool)
    requires s.sh.Valid() && !s.wpc.Exited?
    ensures var t := Interleave(s, Alone(Turn<T>.Logger, n), exits);
            && t.wpc == s.wpc && t.swaps == s.swaps && t.notReady == s.notReady
            && t.writerTurns == s.writerTurns && t.loggerTurns == s.loggerTurns + n
    decreases n
  {
    if n > 0 {
      OneTurnFirst(s, Turn<T>.Logger, n, exits);
      LoggerAlone(Take(s, Turn<T>.Logger, exits), n - 1, exits);
    }
  }

  lemma {:induction false} InterleaveAppend<T>(s: Threads<T>, a: seq<Turn<T>>, b: seq<Turn<T>>, exits: bool)
    requires s.sh.Valid()
    ensures Interleave(s, a + b, exits) == Interleave(Interleave(s, a, exits), b, exits)
    decreases |a|
  {
    if a == [] {
      assert a + b == b;
    } else {
      assert (a + b)[1..] == a[1..] + b;
      InterleaveAppend(Take(s, a[0], exits), a[1..], b, exits);
    }
  }

  lemma AloneAppend<T>(s: Threads<T>, u: Turn<T>, m: nat, n: nat, exits: bool)
    requires s.sh.Valid()
    ensures Interleave(s, Alone(u, m + n), exits) == Interleave(Interleave(s, Alone(u, m), exits), Alone(u, n), exits)
  {
    InterleaveAppend(s, Alone(u, m), Alone(u, n), exits);
    assert Alone(u, m) + Alone(u, n) == Alone(u, m + n);
  }

  /** Four turns over a filled ring are one poll. */
  lemma FourTurnsOnce<T>(s: Threads<T>, exits: bool)
    requires s.sh.Valid() && s.sh.read != s.sh.write && !s.wpc.Exited? && s.lpc.TestingEmpty? && s.sh.ReadSide() != []
    ensures var t := Interleave(s, Alone(Turn<T>.Logger, 4), exits);
            && WholePasses(t) == LoggerBody(WholePasses(s)) && t.lpc.TestingEmpty? && t.wpc == s.wpc
            && t.sh.read != t.sh.write && |t.sh.ReadSide()| == |s.sh.ReadSide()| - 1
  {
    UninterruptedLoggerPass(s, exits);
    PollLogsOne(WholePasses(s));
  }

  lemma FourMore<T>(s: Threads<T>, n: nat, exits: bool)
    requires s.sh.Valid() && n > 0
    ensures var u := Turn<T>.Logger;
            var t := Interleave(s, Alone(u, 4), exits);
            Interleave(s, Alone(u, 4 * n), exits) == Interleave(t, Alone(u, 4 * (n - 1)), exits)
  {
    AloneAppend(s, Turn<T>.Logger, 4, 4 * (n - 1), exits);
    assert 4 + 4 * (n - 1) == 4 * n;
  }

  /** Four turns for each frame are as many polls. */
  lemma {:induction false} FourTurnsEach<T>(s: Threads<T>, n: nat, exits: bool)
    requires s.sh.Valid() && s.sh.read != s.sh.write && !s.wpc.Exited? && s.lpc.TestingEmpty? && n <= |s.sh.ReadSide()|
    ensures var t := Interleave(s, Alone(Turn<T>.Logger, 4 * n), exits);
            WholePasses(t) == Run(WholePasses(s), Polls(n)) && t.lpc.TestingEmpty? && t.wpc == s.wpc
    decreases n
  {
    if n > 0 {
      var u := Interleave(s, Alone(Turn<T>.Logger, 4), exits);
      FourTurnsOnce(s, exits);
      FourMore(s, n, exits);
      FourTurnsEach(u, n - 1, exits);
      OnePollFirst(WholePasses(s), n);
    }
  }

  /** The logger has read everything and is about to lower the flag. */
  ghost predicate AlmostDone(s: Threads<int>, capacity: nat) {
    && s.sh.Valid() && s.sh.ping.size == capacity + 1 && s.sh.read != s.sh.write && s.sh.flag
    && s.wpc.Receiving? && s.sh.WriteSide() == [] && s.notReady == 0
    && s.writerTurns == 0 && s.loggerTurns == 4 * capacity + 2
  }

  /** Everything logged, nothing written, and the flag still up. */
  ghost predicate AllLogged(t: Threads<int>, capacity: nat) {
    && t.sh.Valid() && t.sh.ping.size == capacity + 1 && t.sh.read != t.sh.write && t.sh.flag
    && t.wpc.Receiving? && t.lpc.TestingEmpty? && t.notReady == 0
    && t.sh.ReadSide() == [] && t.sh.WriteSide() == []
  }

  /** After C polls over a ring of C frames the flag is still up. */
  lemma DrainedButForTheFlag(s: Threads<int>, exits: bool, capacity: nat)
    requires s.sh.Valid() && s.sh.ping.size == capacity + 1 && s.sh.read != s.sh.write && capacity >= 1
    requires s.wpc.Receiving? && s.lpc.TestingEmpty? && s.notReady == 0
    requires |s.sh.ReadSide()| == capacity && s.sh.WriteSide() == []
    ensures AllLogged(Interleave(s, Alone(Turn<int>.Logger, 4 * capacity), exits), capacity)
  {
    FourTurnsEach(s, capacity, exits);
    PollsDrain(WholePasses(s), capacity);
    PollsKeepTheRest(WholePasses(s), capacity);
  }

  lemma PausesBeforeLowering(t: Threads<int>, exits: bool, capacity: nat)
    requires AllLogged(t, capacity)
    ensures var u := Take(t, Turn<int>.Logger, exits);
            && u.sh == t.sh && u.wpc == t.wpc && u.notReady == t.notReady
  {
  }

  lemma FirstAndLast<T>(s: Threads<T>, u: Turn<T>, n: nat, exits: bool)
    requires s.sh.Valid()
    ensures Interleave(s, Alone(u, n + 2), exits) == Take(Interleave(Take(s, u, exits), Alone(u, n), exits), u, exits)
  {
    OneTurnFirst(s, u, n + 2, exits);
    AloneAppend(Take(s, u, exits), u, n, 1, exits);
    OneTurnFirst(Interleave(Take(s, u, exits), Alone(u, n), exits), u, 1, exits);
  }

  lemma AlmostDrained(s: Threads<int>, exits: bool, capacity: nat)
    requires capacity >= 1 && UnreadZeros(s, capacity)
    ensures AlmostDone(Interleave(s, Alone(Turn<int>.Logger, 4 * capacity + 2), exits), capacity)
  {
    DrainedButForTheFlag(Take(s, Turn<int>.Logger, exits), exits, capacity);
    FirstAndLast(s, Turn<int>.Logger, 4 * capacity, exits);
    PausesBeforeLowering(Interleave(Take(s, Turn<int>.Logger, exits), Alone(Turn<int>.Logger, 4 * capacity), exits), exits,
                         capacity);
    LoggerAlone(s, 4 * capacity + 2, exits);
  }

  lemma {:induction false} PollsKeepTheRest<T>(s: Link<T>, k: nat)
    requires s.sh.Valid()
    ensures var t := Run(s, Polls(k));
            t.sh.ping.size == s.sh.ping.size && t.sh.read == s.sh.read && t.sh.write == s.sh.write
    decreases k
  {
    if k > 0 {
      OnePollFirst(s, k);
      PollsKeepTheRest(LoggerBody(s), k - 1);
    }
  }

  /** The writer then fills its ring and offers one frame more. */
  lemma TooLate(s: Threads<int>, exits: bool, capacity: nat)
    requires capacity >= 1 && AlmostDone(s, capacity)
    ensures var t := Interleave(s, Alone(Writer(1), 3 * capacity), exits);
            && t.loggerTurns == s.loggerTurns
            && Interleave(t, Alone(Writer(1), 3), exits).notReady == 1
  {
    var t := StoresLead(s, capacity, 1, exits, 3 * capacity + 7);
    assert t.sh.WriteSide() == Copies(capacity, 1);
    StoreOrDropPass(t, 1, exits);
  }

  /** The logger finds nothing and pauses; the writer fills its ring and swaps; the logger logs
      all of it and pauses before it lowers the flag; the writer fills its ring again. */
  function SlowRun(capacity: nat): seq<Turn<int>> {
    LateRunToSwap(capacity) + SlowRunFromSwap(capacity)
  }

  function SlowRunFromSwap(capacity: nat): seq<Turn<int>> {
    Alone(Turn<int>.Logger, 4 * capacity + 2) + FillAndOffer(capacity)
  }

  function FillAndOffer(capacity: nat): seq<Turn<int>> {
    Alone(Writer(1), 3 * capacity) + Alone(Writer(1), 3)
  }

  lemma DiligentToSwap(s: Threads<int>, exits: bool, capacity: nat, due: nat)
    requires capacity >= 1 && Start(s, capacity)
    ensures AlwaysDiligent(s, LateRunToSwap(capacity), exits, capacity, due)
  {
    var u := Take(s, Turn<int>.Logger, exits);
    DiligentLogger(s, 1, exits, capacity, due);
    OneTurnFirst(s, Turn<int>.Logger, 1, exits);
    DiligentWriter(u, 0, 3 * capacity, exits, capacity, due);
    var t := StoresLead(u, capacity, 0, exits, 3 * capacity + 7);
    DiligentWriter(t, 0, 6, exits, capacity, due);
    DiligentAppend(u, Alone(Writer(0), 3 * capacity), Alone(Writer(0), 6), exits, capacity, due);
    DiligentAppend(s, Alone(Turn<int>.Logger, 1), Alone(Writer(0), 3 * capacity) + Alone(Writer(0), 6), exits, capacity,
                   due);
  }

  lemma DiligentButTooLate(s: Threads<int>, exits: bool, capacity: nat)
    requires capacity >= 1 && AlmostDone(s, capacity)
    ensures AlwaysDiligent(s, FillAndOffer(capacity), exits, capacity, Due(capacity) - 1)
    ensures Interleave(s, FillAndOffer(capacity), exits).notReady == 1
  {
    var due := Due(capacity) - 1;
    TooLate(s, exits, capacity);
    DiligentWriter(s, 1, 3 * capacity, exits, capacity, due);
    DiligentWriter(Interleave(s, Alone(Writer(1), 3 * capacity), exits), 1, 3, exits, capacity, due);
    DiligentAppend(s, Alone(Writer(1), 3 * capacity), Alone(Writer(1), 3), exits, capacity, due);
  }

  lemma DiligentFromSwap(s: Threads<int>, exits: bool, capacity: nat)
    requires capacity >= 1 && UnreadZeros(s, capacity)
    ensures AlwaysDiligent(s, SlowRunFromSwap(capacity), exits, capacity, Due(capacity) - 1)
    ensures Interleave(s, SlowRunFromSwap(capacity), exits).notReady == 1
  {
    var n := 4 * capacity + 2;
    DiligentLogger(s, n, exits, capacity, Due(capacity) - 1);
    AlmostDrained(s, exits, capacity);
    var u := Interleave(s, Alone(Turn<int>.Logger, n), exits);
    DiligentButTooLate(u, exits, capacity);
    DiligentAppend(s, Alone(Turn<int>.Logger, n), FillAndOffer(capacity), exits, capacity, Due(capacity) - 1);
  }

  /** The count is exact: with one logger turn less, for every ring size there is a run in which
      a frame is dropped, or the LISA path exits. */
  lemma OneTurnLessLosesAFrame(s: Threads<int>, exits: bool, capacity: nat)
    requires capacity >= 1 && Start(s, capacity)
    ensures AlwaysDiligent(s, SlowRun(capacity), exits, capacity, Due(capacity) - 1)
    ensures Interleave(s, SlowRun(capacity), exits).notReady == 1
  {
    var t := LateRunReachesSwap(s, exits, capacity);
    DiligentToSwap(s, exits, capacity, Due(capacity) - 1);
    DiligentFromSwap(t, exits, capacity);
    DiligentAppend(s, LateRunToSwap(capacity), SlowRunFromSwap(capacity), exits, capacity, Due(capacity) - 1);
  }
}
