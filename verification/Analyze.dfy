/** bbones/server/analyze.c: average period and latency of a stream of packages. Doubles are
    modelled as reals, a C long as an unbounded integer. */
module Analyze {

  const MICRO := 1_000_000

  datatype Timeval = Timeval(sec: int, usec: int) {
    function Micros(): int { usec + MICRO * sec }
  }

  /** C's division and remainder truncate toward zero. */
  function Quot(a: int, b: int): int
    requires b > 0
  {
    if a >= 0 then a / b else -((-a) / b)
  }

  function Rem(a: int, b: int): int
    requires b > 0
  {
    a - b * Quot(a, b)
  }

  /** timeval_subtract; both parts of the result carry the sign of the difference. */
  function Subtract(t2: Timeval, t1: Timeval): Timeval {
    var diff := t2.Micros() - t1.Micros();
    Timeval(Quot(diff, MICRO), Rem(diff, MICRO))
  }

  /** `((double)tv_sec * 1e6 + tv_usec) * 1e-3` */
  function Millis(t: Timeval): real {
    (t.sec as real * 1000000.0 + t.usec as real) / 1000.0
  }

  /** The truncated parts recombine, whatever the sign: splitting the difference into
      seconds and microseconds loses nothing, and the microseconds stay below a second. */
  lemma SubtractRecombines(t2: Timeval, t1: Timeval)
    ensures Millis(Subtract(t2, t1)) == (t2.Micros() - t1.Micros()) as real / 1000.0
    ensures -MICRO < Subtract(t2, t1).usec < MICRO
  {
    var d := Subtract(t2, t1);
    assert d.Micros() == t2.Micros() - t1.Micros();
    assert (d.usec + MICRO * d.sec) as real == d.usec as real + 1000000.0 * d.sec as real;
  }

  /** A difference in ms is the difference of the times in ms. */
  lemma DifferenceInMillis(t2: Timeval, t1: Timeval)
    ensures Millis(Subtract(t2, t1)) == Millis(t2) - Millis(t1)
    ensures Millis(t2) == t2.Micros() as real / 1000.0
  {
    SubtractRecombines(t2, t1);
    MicrosInMillis(t2);
    MicrosInMillis(t1);
  }

  lemma MicrosInMillis(t: Timeval)
    ensures Millis(t) == t.Micros() as real / 1000.0
  {
    assert (t.usec + MICRO * t.sec) as real == t.usec as real + 1000000.0 * t.sec as real;
  }

  function Sum(s: seq<real>): real {
    if s == [] then 0.0 else Sum(s[..|s| - 1]) + s[|s| - 1]
  }

  /** Successive differences of the timestamps, in ms. */
  function Periods(ts: seq<Timeval>): (ps: seq<real>)
    ensures |ps| == if ts == [] then 0 else |ts| - 1
  {
    if |ts| <= 1 then [] else Periods(ts[..|ts| - 1]) + [Millis(Subtract(ts[|ts| - 1], ts[|ts| - 2]))]
  }

  function Latencies(sent: seq<Timeval>, now: seq<Timeval>): (ls: seq<real>)
    requires |sent| == |now|
    ensures |ls| == |sent|
  {
    seq(|sent|, i requires 0 <= i < |sent| => Millis(Subtract(now[i], sent[i])))
  }

  /** A latency is the time of arrival less the time of sending. */
  lemma LatencyIsNowMinusSent(sent: seq<Timeval>, now: seq<Timeval>, i: nat)
    requires |sent| == |now| && i < |sent|
    ensures Latencies(sent, now)[i] == Millis(now[i]) - Millis(sent[i])
  {
    DifferenceInMillis(now[i], sent[i]);
  }

  /** A period is the time between two neighbouring timestamps. */
  lemma {:induction false} PeriodIsBetweenNeighbours(ts: seq<Timeval>, i: nat)
    requires i + 1 < |ts|
    ensures Periods(ts)[i] == Millis(ts[i + 1]) - Millis(ts[i])
  {
    if i + 2 == |ts| {
      DifferenceInMillis(ts[i + 1], ts[i]);
    } else {
      PeriodIsBetweenNeighbours(ts[..|ts| - 1], i);
    }
  }

  lemma {:induction false} SumOfConcatenation(a: seq<real>, b: seq<real>)
    ensures Sum(a + b) == Sum(a) + Sum(b)
    decreases |b|
  {
    if b == [] {
      assert a + b == a;
    } else {
      assert (a + b)[..|a + b| - 1] == a + b[..|b| - 1];
      SumOfConcatenation(a, b[..|b| - 1]);
    }
  }

  lemma SumSnoc(s: seq<real>, x: real)
    ensures Sum(s + [x]) == Sum(s) + x
  {
    assert (s + [x])[..|s|] == s;
  }

  lemma Telescope(a: int, b: int, c: int)
    ensures (b - a) as real / 1000.0 + (c - b) as real / 1000.0 == (c - a) as real / 1000.0
  {
  }

  /** The sum of the periods telescopes, for any timestamps. */
  lemma {:induction false} PeriodsTelescope(ts: seq<Timeval>)
    requires ts != []
    ensures Sum(Periods(ts)) == (ts[|ts| - 1].Micros() - ts[0].Micros()) as real / 1000.0
  {
    if |ts| > 1 {
      var init, t0, t1, t2 := ts[..|ts| - 1], ts[0], ts[|ts| - 2], ts[|ts| - 1];
      PeriodsTelescope(init);
      assert init[0] == t0 && init[|init| - 1] == t1;
      SubtractRecombines(t2, t1);
      SumSnoc(Periods(init), Millis(Subtract(t2, t1)));
      Telescope(t0.Micros(), t1.Micros(), t2.Micros());
    }
  }

  class Analyze {
    var sum: real
    const buffsize: nat
    var index: nat
    var avg: real
    var isFirstData: bool
    var previousTimestamp: Timeval
    const buffer: array<real>

    ghost predicate Valid()
      reads this, buffer
    {
      && buffer.Length == buffsize && index <= buffsize
      && sum == Sum(buffer[..index])
    }

    /** The buffer holds the periods of the timestamps seen so far. */
    ghost predicate HasSeen(ts: seq<Timeval>)
      reads this, buffer
    {
      && Valid()
      && isFirstData == (ts == [])
      && (ts != [] ==> previousTimestamp == ts[|ts| - 1])
      && buffer[..index] == Periods(ts)
    }

    /** init_analyze */
    constructor (buffsize: nat)
      ensures HasSeen([]) && this.buffsize == buffsize && fresh(buffer) && index == 0
    {
      this.buffsize := buffsize;
      sum, avg, index := 0.0, 0.0, 0;
      isFirstData := true;
      previousTimestamp := Timeval(0, 0);
      buffer := new real[buffsize];
    }

    lemma SumOfPrefix(i: nat)
      requires i < buffer.Length
      ensures Sum(buffer[..i + 1]) == Sum(buffer[..i]) + buffer[i]
    {
      assert buffer[..i + 1][..i] == buffer[..i];
    }

    /** One period more, of which the buffer has room. */
    method Store(diff: real)
      requires Valid() && index < buffsize
      modifies this`sum, this`index, buffer
      ensures Valid() && index == old(index) + 1
      ensures buffer[..index] == old(buffer[..index]) + [diff]
    {
      buffer[index] := diff;
      SumOfPrefix(index);
      assert buffer[..index + 1] == old(buffer[..index]) + [diff];
      sum := sum + diff;
      index := index + 1;
    }

    /** The average of a full buffer. */
    lemma AverageOfPeriods(ts: seq<Timeval>)
      requires HasSeen(ts) && index == buffsize > 0
      ensures |ts| == buffsize + 1
      ensures sum / buffsize as real == ((ts[buffsize].Micros() - ts[0].Micros()) as real / 1000.0) / buffsize as real
    {
      PeriodsTelescope(ts);
    }

    /** calculate_frequency. The period is taken from the second timestamp on; once the
        buffer is full the call only computes the average. */
    method CalculateFrequency(tvSent: Timeval, ghost ts: seq<Timeval>) returns (done: int)
      requires HasSeen(ts) && buffsize > 0
      modifies this, buffer
      ensures Valid() && buffer[..old(index)] == old(buffer[..index])
      ensures done == if old(index) < buffsize then 0 else 1
      ensures done == 0 ==> HasSeen(ts + [tvSent]) && avg == old(avg)
      ensures done == 1 ==> HasSeen(ts) && |ts| == buffsize + 1
                            && avg == ((ts[buffsize].Micros() - ts[0].Micros()) as real / 1000.0) / buffsize as real
    {
      if index < buffsize {
        if isFirstData {
          isFirstData := false;
        } else {
          var tvResult := Subtract(tvSent, previousTimestamp);
          assert (ts + [tvSent])[..|ts|] == ts;
          Store(Millis(tvResult));
        }
        previousTimestamp := tvSent;
        done := 0;
      } else {
        AverageOfPeriods(ts);
        avg := sum / (buffsize as real);
        done := 1;
      }
    }

    /** calculate_latency */
    method CalculateLatency(tvSent: Timeval, tvNow: Timeval, ghost sent: seq<Timeval>, ghost now: seq<Timeval>)
        returns (done: int)
      requires Valid() && buffsize > 0
      requires |sent| == |now| && buffer[..index] == Latencies(sent, now)
      modifies this`sum, this`index, this`avg, buffer
      ensures Valid() && buffer[..old(index)] == old(buffer[..index])
      ensures done == if old(index) < buffsize then 0 else 1
      ensures done == 0 ==> buffer[..index] == Latencies(sent + [tvSent], now + [tvNow]) && avg == old(avg)
      ensures done == 1 ==> buffer[..index] == Latencies(sent, now)
                            && avg == Sum(Latencies(sent, now)) / buffsize as real
    {
      if index < buffsize {
        var tvResult := Subtract(tvNow, tvSent);
        assert Latencies(sent + [tvSent], now + [tvNow]) == Latencies(sent, now) + [Millis(tvResult)];
        Store(Millis(tvResult));
        done := 0;
      } else {
        avg := sum / (buffsize as real);
        done := 1;
      }
    }
  }
}
