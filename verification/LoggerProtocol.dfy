/** bbones/planebone/main_plane.c, with each pass through a thread's loop as one step.
    The writer offers a frame to the ring `write`; the logger polls the ring `read`. */
module LoggerProtocol {
  import opened Rings

  datatype Which = Ping | Pong

  /** What the two threads share: both rings, both pointers and `reading_flag`. */
  datatype Shared<T> = Shared(ping: Ring<T>, pong: Ring<T>, read: Which, write: Which, flag: bool) {

    ghost predicate Valid() {
      ping.Valid() && pong.Valid() && ping.size == pong.size
    }

    function Get(w: Which): Ring<T> {
      if w == Ping then ping else pong
    }

    function Put(w: Which, r: Ring<T>): Shared<T> {
      if w == Ping then this.(ping := r) else this.(pong := r)
    }

    ghost function ReadSide(): seq<T>
      requires Valid()
    {
      Get(read).Contents()
    }

    ghost function WriteSide(): seq<T>
      requires Valid()
    {
      Get(write).Contents()
    }
  }

  /** The state between steps, with the log file and the bookkeeping of every offer. */
  datatype Link<T> = Link(sh: Shared<T>, log: seq<T>, accepted: seq<T>, offered: nat, swaps: nat, notReady: nat)

  /** One pass of lisa_to_pc, or of the ground-station loop in main, for frame x. */
  function WriterBody<T>(s: Link<T>, x: T): (r: Link<T>)
    requires s.sh.Valid()
    ensures r.sh.Valid()
  {
    var sh, o := s.sh, s.(offered := s.offered + 1);
    if !sh.Get(sh.write).IsFull() then
      o.(sh := sh.Put(sh.write, sh.Get(sh.write).Write(x)), accepted := s.accepted + [x])
    else if !sh.flag then
      o.(sh := sh.(read := sh.write, write := sh.read), swaps := s.swaps + 1)
    else
      o.(notReady := s.notReady + 1)
  }

  /** One pass of data_logging_lisa or data_logging_groundstation. */
  function LoggerBody<T>(s: Link<T>): (r: Link<T>)
    requires s.sh.Valid()
    ensures r.sh.Valid()
  {
    var sh := s.sh;
    if !sh.Get(sh.read).IsEmpty() then
      s.(sh := sh.Put(sh.read, sh.Get(sh.read).AfterRead()).(flag := true),
         log := s.log + [sh.Get(sh.read).ValueRead()])
    else
      s.(sh := sh.(flag := false))
  }

  datatype Event<T> = Offer(x: T) | Poll

  function Step<T>(s: Link<T>, e: Event<T>): (r: Link<T>)
    requires s.sh.Valid()
    ensures r.sh.Valid()
  {
    match e
    case Offer(x) => WriterBody(s, x)
    case Poll => LoggerBody(s)
  }

  function Run<T>(s: Link<T>, es: seq<Event<T>>): (r: Link<T>)
    requires s.sh.Valid()
    ensures r.sh.Valid()
    decreases |es|
  {
    if es == [] then s else Run(Step(s, es[0]), es[1..])
  }

  /** After cbInit on both rings: `capacity` is CBSIZE, the vectors hold anything. */
  ghost predicate Initial<T>(s: Link<T>, capacity: nat) {
    && s.sh.Valid()
    && s.sh.ping.size == capacity + 1
    && s.sh.ping.IsEmpty() && s.sh.pong.IsEmpty()
    && s.sh.read == Ping && s.sh.write == Pong && !s.sh.flag
    && s.log == [] && s.accepted == []
    && s.offered == s.swaps == s.notReady == 0
  }

  /** How many offers have gone by since the last poll. */
  function Gap<T>(es: seq<Event<T>>, gap: nat): nat
    decreases |es|
  {
    if es == [] then gap else Gap(es[1..], NextGap(es[0], gap))
  }

  function NextGap<T>(e: Event<T>, gap: nat): nat {
    if e.Poll? then 0 else gap + 1
  }

  /** Never more than `bound` offers in a row without a poll, when `gap` have gone by already. */
  predicate Fair<T>(es: seq<Event<T>>, gap: nat, bound: nat)
    decreases |es|
  {
    gap <= bound && (es != [] ==> Fair(es[1..], NextGap(es[0], gap), bound))
  }

  /** Nothing lost, nothing reordered, exactly one swap for each full ring; and a flag
      that is down over a filled read ring is only as old as the offers since. */
  ghost predicate Ordered<T>(s: Link<T>, capacity: nat, gap: nat) {
    && s.sh.Valid() && s.sh.ping.size == capacity + 1
    && s.sh.read != s.sh.write
    && s.log + s.sh.ReadSide() + s.sh.WriteSide() == s.accepted
    && |s.accepted| == capacity * s.swaps + |s.sh.WriteSide()|
    && (!s.sh.flag && s.sh.ReadSide() != [] ==> |s.sh.WriteSide()| < gap)
  }

  lemma AcceptKeepsOrder<T>(s: Link<T>, x: T, capacity: nat, gap: nat)
    requires Ordered(s, capacity, gap) && !s.sh.Get(s.sh.write).IsFull()
    ensures Ordered(WriterBody(s, x), capacity, gap + 1)
  {
    WriteContents(s.sh.Get(s.sh.write), x);
    var r := WriterBody(s, x);
    assert r.sh.WriteSide() == s.sh.WriteSide() + [x];
    assert r.sh.ReadSide() == s.sh.ReadSide();
    assert s.log + s.sh.ReadSide() + (s.sh.WriteSide() + [x]) == s.accepted + [x];
  }

  lemma SwapKeepsOrder<T>(s: Link<T>, x: T, capacity: nat, gap: nat)
    requires Ordered(s, capacity, gap) && s.sh.Get(s.sh.write).IsFull() && !s.sh.flag
    requires gap <= capacity
    ensures Ordered(WriterBody(s, x), capacity, gap + 1)
  {
    var r := WriterBody(s, x);
    assert |s.sh.WriteSide()| == capacity;
    assert s.sh.ReadSide() == [];
    assert r.sh.ReadSide() == s.sh.WriteSide() && r.sh.WriteSide() == [];
    assert capacity * s.swaps + capacity == capacity * (s.swaps + 1);
  }

  lemma OfferKeepsOrder<T>(s: Link<T>, x: T, capacity: nat, gap: nat)
    requires Ordered(s, capacity, gap) && gap <= capacity
    ensures Ordered(WriterBody(s, x), capacity, gap + 1)
  {
    if !s.sh.Get(s.sh.write).IsFull() {
      AcceptKeepsOrder(s, x, capacity, gap);
    } else if !s.sh.flag {
      SwapKeepsOrder(s, x, capacity, gap);
    }
  }

  lemma Regroup<T>(a: seq<T>, b: seq<T>, c: seq<T>)
    ensures (a + b) + c == a + (b + c)
  {
  }

  /** A poll that finds a frame moves the oldest one to the log. */
  lemma PollMovesOne<T>(s: Link<T>)
    requires s.sh.Valid() && s.sh.read != s.sh.write && !s.sh.Get(s.sh.read).IsEmpty()
    ensures var t := LoggerBody(s); t.log + t.sh.ReadSide() == s.log + s.sh.ReadSide()
  {
    var r, t := s.sh.Get(s.sh.read), LoggerBody(s);
    ReadContents(r);
    assert t.log == s.log + [r.ValueRead()] && t.sh.ReadSide() == r.AfterRead().Contents();
    Regroup(s.log, [r.ValueRead()], r.AfterRead().Contents());
  }

  lemma PollKeepsOrder<T>(s: Link<T>, capacity: nat, gap: nat)
    requires Ordered(s, capacity, gap)
    ensures Ordered(LoggerBody(s), capacity, 0)
  {
    var t := LoggerBody(s);
    assert t.sh.WriteSide() == s.sh.WriteSide();
    if !s.sh.Get(s.sh.read).IsEmpty() {
      PollMovesOne(s);
    }
  }

  lemma StepKeepsOrder<T>(s: Link<T>, e: Event<T>, capacity: nat, gap: nat)
    requires Ordered(s, capacity, gap) && NextGap(e, gap) <= capacity + 1
    ensures Ordered(Step(s, e), capacity, NextGap(e, gap))
  {
    match e
    case Offer(x) => OfferKeepsOrder(s, x, capacity, gap);
    case Poll => PollKeepsOrder(s, capacity, gap);
  }

  lemma {:induction false} FairRunsStayOrdered<T>(s: Link<T>, es: seq<Event<T>>, capacity: nat, gap: nat)
    requires Ordered(s, capacity, gap) && Fair(es, gap, capacity + 1)
    ensures Ordered(Run(s, es), capacity, Gap(es, gap))
    decreases |es|
  {
    if es != [] {
      StepKeepsOrder(s, es[0], capacity, gap);
      FairRunsStayOrdered(Step(s, es[0]), es[1..], capacity, NextGap(es[0], gap));
    }
  }

  /** Logger order. If the logger polls before every (CBSIZE + 2)nd offer in a row, then in
      every reachable state the log, the read ring and the write ring, one after the other,
      are the accepted frames in arrival order, and one frame was lost to a swap for every
      CBSIZE accepted frames that left the write ring. */
  lemma LogKeepsArrivalOrder<T>(s: Link<T>, es: seq<Event<T>>, capacity: nat)
    requires Initial(s, capacity) && Fair(es, 0, capacity + 1)
    ensures var t := Run(s, es);
            && t.log + t.sh.ReadSide() + t.sh.WriteSide() == t.accepted
            && |t.accepted| == capacity * t.swaps + |t.sh.WriteSide()|
  {
    FairRunsStayOrdered(s, es, capacity, 0);
  }

  // ---- The bound is exact ----

  function Offers<T>(n: nat, x: T): seq<Event<T>> {
    seq(n, _ => Offer(x))
  }

  lemma {:induction false} RunAppend<T>(s: Link<T>, a: seq<Event<T>>, b: seq<Event<T>>)
    requires s.sh.Valid()
    ensures Run(s, a + b) == Run(Run(s, a), b)
    decreases |a|
  {
    if a == [] {
      assert a + b == b;
    } else {
      assert (a + b)[1..] == a[1..] + b;
      RunAppend(Step(s, a[0]), a[1..], b);
    }
  }

  function Copies<T>(n: nat, x: T): seq<T> {
    seq(n, _ => x)
  }

  /** From s to t, n copies of x have been stored in the write ring and nothing else has happened. */
  ghost predicate Filled<T>(s: Link<T>, t: Link<T>, n: nat, x: T)
    requires s.sh.Valid() && t.sh.Valid()
  {
    && t == s.(sh := t.sh, accepted := s.accepted + Copies(n, x), offered := s.offered + n)
    && t.sh == s.sh.Put(s.sh.write, t.sh.Get(s.sh.write))
    && t.sh.WriteSide() == s.sh.WriteSide() + Copies(n, x)
  }

  lemma CopiesAppend<T>(q: seq<T>, n: nat, x: T)
    ensures (q + Copies(1, x)) + Copies(n, x) == q + Copies(n + 1, x)
  {
  }

  lemma FilledTransitive<T>(s: Link<T>, t: Link<T>, u: Link<T>, n: nat, x: T)
    requires s.sh.Valid() && t.sh.Valid() && u.sh.Valid()
    requires Filled(s, t, 1, x) && Filled(t, u, n, x)
    ensures Filled(s, u, n + 1, x)
  {
    CopiesAppend(s.accepted, n, x);
    CopiesAppend(s.sh.WriteSide(), n, x);
  }

  lemma FillOnce<T>(s: Link<T>, x: T)
    requires s.sh.Valid() && !s.sh.Get(s.sh.write).IsFull()
    ensures Filled(s, WriterBody(s, x), 1, x)
  {
    WriteContents(s.sh.Get(s.sh.write), x);
    assert Copies(1, x) == [x];
  }

  lemma {:induction false} FillWriteRing<T>(s: Link<T>, n: nat, x: T)
    requires s.sh.Valid() && |s.sh.WriteSide()| + n < s.sh.ping.size
    ensures Filled(s, Run(s, Offers(n, x)), n, x)
    decreases n
  {
    if n == 0 {
      assert s.accepted + Copies(0, x) == s.accepted;
      assert s.sh.WriteSide() + Copies(0, x) == s.sh.WriteSide();
    } else {
      var t := WriterBody(s, x);
      FillOnce(s, x);
      assert Offers(n, x)[1..] == Offers(n - 1, x);
      FillWriteRing(t, n - 1, x);
      FilledTransitive(s, t, Run(t, Offers(n - 1, x)), n - 1, x);
    }
  }

  lemma {:induction false} FairAfterOffers<T>(n: nat, x: T, rest: seq<Event<T>>, gap: nat, bound: nat)
    requires Fair(rest, gap + n, bound)
    ensures Fair(Offers(n, x) + rest, gap, bound)
    decreases n
  {
    if n == 0 {
      assert Offers(0, x) + rest == rest;
    } else {
      assert (Offers(n, x) + rest)[1..] == Offers(n - 1, x) + rest;
      FairAfterOffers(n - 1, x, rest, gap + 1, bound);
    }
  }

  /** Fill the write ring, poll once, then offer 2 + CBSIZE more frames without a poll. */
  function StarvedRun(capacity: nat): seq<Event<nat>> {
    Offers(capacity, 0) + ([Poll, Offer(0)] + (Offers(capacity, 1) + [Offer(1)]))
  }

  /** The bound is exact: with one more offer allowed between polls, for every ring size there
      is a run that swaps a full, unread ring back under the writer and reorders the log. */
  lemma OneMoreOfferBreaksOrder(s: Link<nat>, capacity: nat)
    requires capacity >= 1 && Initial(s, capacity)
    ensures Fair(StarvedRun(capacity), 0, capacity + 2)
    ensures var t := Run(s, StarvedRun(capacity));
            t.log + t.sh.ReadSide() + t.sh.WriteSide() != t.accepted
  {
    var last := [Offer(1)];
    var mid := [Poll, Offer(0)] + (Offers(capacity, 1) + last);
    assert Fair(last, capacity + 1, capacity + 2) by {
      assert Fair<nat>([], capacity + 2, capacity + 2);
      assert last[1..] == [];
    }
    FairAfterOffers(capacity, 1, last, 1, capacity + 2);
    assert mid[1..][1..] == Offers(capacity, 1) + last;
    assert Fair(mid[1..], 0, capacity + 2);
    assert Fair(mid, capacity, capacity + 2);
    FairAfterOffers(capacity, 0, mid, 0, capacity + 2);

    var filled := Run(s, Offers(capacity, 0));
    RunAppend(s, Offers(capacity, 0), mid);
    FillWriteRing(s, capacity, 0);
    var swapped := Run(filled, [Poll, Offer(0)]);
    StarvedSwap(filled, capacity);
    RunAppend(filled, [Poll, Offer(0)], Offers(capacity, 1) + last);
    var refilled := Run(swapped, Offers(capacity, 1));
    FillWriteRing(swapped, capacity, 1);
    RunAppend(swapped, Offers(capacity, 1), last);
    var t := WriterBody(refilled, 1);
    assert Run(refilled, last) == t by { assert last[1..] == []; }
    assert t.sh.ReadSide()[0] == 1;
    assert t.accepted[0] == 0;
    assert t.log == [];
  }

  lemma StarvedSwap(s: Link<nat>, capacity: nat)
    requires s.sh.Valid() && s.sh.ping.size == capacity + 1 && s.sh.read != s.sh.write
    requires s.sh.ReadSide() == [] && |s.sh.WriteSide()| == capacity
    ensures var t := Run(s, [Poll, Offer(0)]);
            && t == s.(sh := t.sh, offered := s.offered + 1, swaps := s.swaps + 1)
            && t.sh == s.sh.(flag := false, read := s.sh.write, write := s.sh.read)
  {
    assert [Poll, Offer(0)][1..] == [Offer(0)];
    assert Run(s, [Poll, Offer(0)]) == WriterBody(LoggerBody(s), 0) by {
      assert [Offer(0)][1..] == [];
    }
  }
}
