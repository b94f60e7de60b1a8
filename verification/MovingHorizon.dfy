/** rawesome_stuff/offline_mhe_test/run_mhe_through_meas.py, lines 578-690: the measurement and
    weight window of the moving-horizon estimator. Camera data arrive nDelay samples late,
    cable data late by a delay that differs from sample to sample; both are written into
    past rows of the window while the window moves. */
module MovingHorizon {

  // Columns of y: 12 camera, 10 undelayed, r, dr, ddr, then the controls.
  const CAM := 12
  const CABLE := 22
  const NYN := 25

  /** weights are the diagonals of the source before it zeroes the delayed entries. */
  datatype Config = Config(N: nat, nDelay: nat, nY: nat, weights: seq<real>, camWeight: real, cableWeight: real) {
    predicate Valid() {
      1 <= nDelay <= N && NYN <= nY == |weights|
    }
  }

  /** What arrives in one step: measurements[...][itSim]. */
  datatype Sample = Sample(led: seq<real>, camFlag: real, undelayed: seq<real>,
                           r: real, rFlag: real, rDelay: nat)
  {
    predicate Valid(cfg: Config) {
      |led| == CAM && |undelayed| == CABLE - CAM && rDelay <= cfg.N
    }

    /** led_data_valid */
    function LedValid(c: nat): real
      requires c < |led|
    {
      (if led[c] > 0.0 then 1.0 else 0.0) * camFlag
    }

    function LedData(c: nat): real
      requires c < |led|
    {
      led[c] * LedValid(c)
    }

    /** diagonal entry c of ledS */
    function LedWeight(cfg: Config, c: nat): real
      requires c < |led|
    {
      LedValid(c) * cfg.camWeight
    }

    function CableMeas(): real { r * rFlag }

    function CableMeasWeight(cfg: Config): real { rFlag * cfg.cableWeight }
  }

  type History = seq<Sample>

  ghost predicate AllValid(cfg: Config, h: History) {
    forall i :: 0 <= i < |h| ==> h[i].Valid(cfg)
  }

  // ---- The window as a function of the arrivals ----

  datatype Arrival = Never | At(step: nat)

  /** The arrival that carries the camera data of time tau, if it has come. */
  function CameraArrival(cfg: Config, h: History, tau: nat): Arrival {
    if tau + cfg.nDelay < |h| then At(tau + cfg.nDelay) else Never
  }

  /** The last arrival whose cable measurement belongs to time tau. */
  function CableArrival(h: History, tau: nat): Arrival {
    if h == [] then Never
    else if |h| - 1 == tau + h[|h| - 1].rDelay then At(|h| - 1)
    else CableArrival(h[..|h| - 1], tau)
  }

  /** h[a] is the last sample whose cable measurement is about time tau. */
  ghost predicate LastAbout(h: History, tau: nat, a: nat) {
    && a < |h| && a == tau + h[a].rDelay
    && forall b :: a < b < |h| ==> b != tau + h[b].rDelay
  }

  lemma {:induction false} CableArrivalIsLast(h: History, tau: nat)
    ensures match CableArrival(h, tau)
            case At(a) => LastAbout(h, tau, a)
            case Never => forall b :: 0 <= b < |h| ==> b != tau + h[b].rDelay
  {
    if h != [] {
      CableArrivalIsLast(h[..|h| - 1], tau);
    }
  }

  /** The measurement row of time tau, given all arrivals so far; zero where nothing has come. */
  ghost function YAt(cfg: Config, h: History, tau: nat, c: nat): real
    requires AllValid(cfg, h)
  {
    if c < CAM then
      match CameraArrival(cfg, h, tau)
      case At(a) => h[a].LedData(c)
      case Never => 0.0
    else if c < CABLE then
      if tau < |h| then h[tau].undelayed[c - CAM] else 0.0
    else if c == CABLE then
      CableArrivalIsLast(h, tau);
      match CableArrival(h, tau)
      case At(a) => h[a].CableMeas()
      case Never => 0.0
    else 0.0
  }

  /** The weight block of time tau: diagonal, with each delayed weight from the arrival
      that the measurement is from, and zero where nothing has come. */
  ghost function SAt(cfg: Config, h: History, tau: nat, i: nat, j: nat): real
    requires cfg.Valid() && AllValid(cfg, h) && i < cfg.nY
  {
    if i != j then 0.0
    else if i < CAM then
      match CameraArrival(cfg, h, tau)
      case At(a) => h[a].LedWeight(cfg, i)
      case Never => 0.0
    else if i == CABLE then
      CableArrivalIsLast(h, tau);
      match CableArrival(h, tau)
      case At(a) => h[a].CableMeasWeight(cfg)
      case Never => 0.0
    else cfg.weights[i]
  }

  /** Entry c of the row of time tau after the arrival of s, if it was v before. */
  function Arrived(cfg: Config, h: History, s: Sample, tau: nat, c: nat, v: real): real
    requires s.Valid(cfg)
  {
    if c < CAM && tau + cfg.nDelay == |h| then s.LedData(c)
    else if CAM <= c < CABLE && tau == |h| then s.undelayed[c - CAM]
    else if c == CABLE && tau + s.rDelay == |h| then s.CableMeas()
    else v
  }

  /** The same for a weight. */
  function Reweighed(cfg: Config, h: History, s: Sample, tau: nat, i: nat, j: nat, v: real): real
    requires s.Valid(cfg)
  {
    if i == j < CAM && tau + cfg.nDelay == |h| then s.LedWeight(cfg, i)
    else if i == j == CABLE && tau + s.rDelay == |h| then s.CableMeasWeight(cfg)
    else v
  }

  /** One arrival changes the row of its own time, the camera columns nDelay steps back and
      the cable entry rDelay steps back, and nothing else. */
  lemma YAfterArrival(cfg: Config, h: History, s: Sample, tau: nat, c: nat)
    requires AllValid(cfg, h) && s.Valid(cfg)
    ensures AllValid(cfg, h + [s])
    ensures YAt(cfg, h + [s], tau, c) == Arrived(cfg, h, s, tau, c, YAt(cfg, h, tau, c))
  {
    assert (h + [s])[..|h|] == h;
    CableArrivalIsLast(h, tau);
  }

  lemma SAfterArrival(cfg: Config, h: History, s: Sample, tau: nat, i: nat, j: nat)
    requires cfg.Valid() && AllValid(cfg, h) && s.Valid(cfg) && i < cfg.nY
    ensures AllValid(cfg, h + [s])
    ensures SAt(cfg, h + [s], tau, i, j) == Reweighed(cfg, h, s, tau, i, j, SAt(cfg, h, tau, i, j))
  {
    assert (h + [s])[..|h|] == h;
    CableArrivalIsLast(h, tau);
  }

  /** Nothing has come for a time that has not been reached. */
  lemma FutureIsEmpty(cfg: Config, h: History, tau: nat)
    requires cfg.Valid() && AllValid(cfg, h) && tau >= |h|
    ensures forall c: nat :: YAt(cfg, h, tau, c) == 0.0
    ensures forall i: nat, j: nat :: i < cfg.nY ==> SAt(cfg, h, tau, i, j) == Default(cfg, i, j)
  {
    CableArrivalIsLast(h, tau);
  }

  /** No camera data have come for the latest time, nor for one not yet reached. */
  lemma LatestHasNoCamera(cfg: Config, h: History, tau: nat)
    requires cfg.Valid() && AllValid(cfg, h) && tau + 1 >= |h|
    ensures forall i: nat, j: nat :: i < cfg.nY && !(i == j == CABLE) ==> SAt(cfg, h, tau, i, j) == Default(cfg, i, j)
  {
  }

  /** The weights before anything has come: the delayed ones are zero. */
  function Default(cfg: Config, i: nat, j: nat): real
    requires i < |cfg.weights|
  {
    if i != j || i < CAM || i == CABLE then 0.0 else cfg.weights[i]
  }

  /** The time of row 0 once h has arrived. */
  function Base(cfg: Config, h: History): nat {
    if |h| <= cfg.N + 1 then 0 else |h| - 1 - cfg.N
  }

  /** The time that row k is about (row N is yN). */
  function TimeOf(cfg: Config, h: History, k: nat): nat {
    if |h| <= cfg.N then k else |h| - 1 - cfg.N + k
  }

  /** A flag is 0 or 1. */
  predicate IsFlag(x: real) { x == 0.0 || x == 1.0 }

  /** A marker coordinate and its weight: kept if it is positive and the camera has seen it. */
  lemma MarkerIsKept(s: Sample, cfg: Config, c: nat)
    requires s.Valid(cfg) && c < CAM
    ensures s.led[c] > 0.0 ==> s.LedData(c) == s.led[c] * s.camFlag && s.LedWeight(cfg, c) == s.camFlag * cfg.camWeight
    ensures s.led[c] <= 0.0 ==> s.LedData(c) == 0.0 && s.LedWeight(cfg, c) == 0.0
    ensures s.led[c] > 0.0 && s.camFlag == 1.0 ==> s.LedData(c) == s.led[c] && s.LedWeight(cfg, c) == cfg.camWeight
    ensures s.camFlag == 0.0 ==> s.LedData(c) == 0.0 && s.LedWeight(cfg, c) == 0.0
  {
  }

  /** A cable measurement m and its weight w are those of the sample s. */
  predicate CableFrom(s: Sample, cfg: Config, m: real, w: real) {
    && m == s.r * s.rFlag && w == s.rFlag * cfg.cableWeight
    && (s.rFlag == 1.0 ==> m == s.r && w == cfg.cableWeight)
    && (s.rFlag == 0.0 ==> m == w == 0.0)
  }

  lemma CableIsKept(s: Sample, cfg: Config)
    ensures CableFrom(s, cfg, s.CableMeas(), s.CableMeasWeight(cfg))
  {
  }

  /** mheRT.y, yN, S, SN. S is the stack of N square blocks, indexed by block, row, column. */
  class Estimator {
    const cfg: Config
    const y: array2<real>
    var yN: array<real>
    const S: array3<real>
    const SN: array2<real>
    ghost var h: History

    ghost predicate Shaped()
      reads this`yN
    {
      && cfg.Valid()
      && y.Length0 == cfg.N && y.Length1 == cfg.nY
      && yN.Length == NYN
      && S.Length0 == cfg.N && S.Length1 == cfg.nY && S.Length2 == cfg.nY
      && SN.Length0 == NYN && SN.Length1 == NYN
      && y != SN
    }

    /** y and yN hold the rows of times `base`, ..., base + N as h determines them. */
    ghost predicate YHolds(h: History, base: nat)
      requires Shaped() && AllValid(cfg, h)
      reads this`yN, y, yN
    {
      && (forall k, c :: 0 <= k < cfg.N && 0 <= c < cfg.nY ==> y[k, c] == YAt(cfg, h, base + k, c))
      && (forall c :: 0 <= c < NYN ==> yN[c] == YAt(cfg, h, base + cfg.N, c))
    }

    ghost predicate SHolds(h: History, base: nat)
      requires Shaped() && AllValid(cfg, h)
      reads this`yN, S, SN
    {
      && (forall k, i, j :: 0 <= k < cfg.N && 0 <= i < cfg.nY && 0 <= j < cfg.nY ==>
            S[k, i, j] == SAt(cfg, h, base + k, i, j))
      && (forall i, j :: 0 <= i < NYN && 0 <= j < NYN ==> SN[i, j] == SAt(cfg, h, base + cfg.N, i, j))
    }

    /** The window is the function of the arrivals. */
    ghost predicate Valid()
      reads this, y, yN, S, SN
    {
      Shaped() && AllValid(cfg, h) && YHolds(h, Base(cfg, h)) && SHolds(h, Base(cfg, h))
    }

    /** Row k of the window; row N is yN. */
    ghost function Row(k: nat, c: nat): real
      requires Shaped() && k <= cfg.N && c < NYN
      reads this, y, yN
    {
      if k < cfg.N then y[k, c] else yN[c]
    }

    /** Weight block k of the window; block N is SN. */
    ghost function Weight(k: nat, i: nat, j: nat): real
      requires Shaped() && k <= cfg.N && i < NYN && j < NYN
      reads this, S, SN
    {
      if k < cfg.N then S[k, i, j] else SN[i, j]
    }

    /** Row k of y (row N is yN) holds the undelayed measurements of its time, once they have come,
        and zeros for the derivatives of r and for the controls. */
    lemma WindowRow(k: nat, c: nat)
      requires Valid() && k <= cfg.N && CAM <= c && c != CABLE && c < (if k < cfg.N then cfg.nY else NYN)
      ensures var tau := TimeOf(cfg, h, k);
              && AllValid(cfg, h)
              && (if k < cfg.N then y[k, c] else yN[c]) ==
                   (if c < CABLE && tau < |h| then h[tau].undelayed[c - CAM] else 0.0)
    {
      assert Base(cfg, h) + k == TimeOf(cfg, h, k);
    }

    /** The camera columns of row k hold the marker coordinates that arrived nDelay steps after its
        time, with the camera's weight, if they are positive and the camera flag was set; zeros with
        weight zero if not, or if nothing has arrived yet. */
    lemma CameraWeightsMoveWithData(k: nat, c: nat)
      requires Valid() && k <= cfg.N && c < CAM
      ensures var a := TimeOf(cfg, h, k) + cfg.nDelay;
              if a < |h| then
                && h[a].Valid(cfg)
                && (if h[a].led[c] > 0.0
                    then Row(k, c) == h[a].led[c] * h[a].camFlag && Weight(k, c, c) == h[a].camFlag * cfg.camWeight
                    else Row(k, c) == Weight(k, c, c) == 0.0)
                && (IsFlag(h[a].camFlag) ==>
                      if h[a].led[c] > 0.0 && h[a].camFlag == 1.0
                      then Row(k, c) == h[a].led[c] && Weight(k, c, c) == cfg.camWeight
                      else Row(k, c) == Weight(k, c, c) == 0.0)
              else Row(k, c) == Weight(k, c, c) == 0.0
    {
      var a := TimeOf(cfg, h, k) + cfg.nDelay;
      assert Base(cfg, h) + k == TimeOf(cfg, h, k);
      if a < |h| {
        MarkerIsKept(h[a], cfg, c);
      }
    }

    /** The cable entry of row k holds the length of the last sample that was about its time, with the
        cable's weight, if the cable flag of that sample was set; zero with weight zero if not, or
        if there has been no such sample. */
    lemma CableWeightMovesWithData(k: nat)
      requires Valid() && k <= cfg.N
      ensures var tau := TimeOf(cfg, h, k);
              || (exists a: nat :: LastAbout(h, tau, a) && CableFrom(h[a], cfg, Row(k, CABLE), Weight(k, CABLE, CABLE)))
              || ((forall b :: 0 <= b < |h| ==> b != tau + h[b].rDelay)
                    && Row(k, CABLE) == Weight(k, CABLE, CABLE) == 0.0)
    {
      var tau := TimeOf(cfg, h, k);
      assert Base(cfg, h) + k == tau;
      CableArrivalIsLast(h, tau);
      match CableArrival(h, tau) {
        case At(a) => CableIsKept(h[a], cfg); assert LastAbout(h, tau, a);
        case Never =>
      }
    }

    /** All other weights stay what they were set to: the given ones on the diagonal, zero off it. */
    lemma OtherWeightsStay(k: nat, i: nat, j: nat)
      requires Valid() && k <= cfg.N && i < (if k < cfg.N then cfg.nY else NYN) && j < (if k < cfg.N then cfg.nY else NYN)
      ensures var w := if k < cfg.N then S[k, i, j] else SN[i, j];
              && (i != j ==> w == 0.0)
              && (i == j && i >= CAM && i != CABLE ==> w == cfg.weights[i])
    {
    }

    /** The set-up before the loop: zero measurements, the default weights with the delayed
        entries zeroed, and the same for the last node. */
    constructor (cfg: Config)
      requires cfg.Valid()
      ensures Valid() && this.cfg == cfg && h == []
      ensures fresh(y) && fresh(yN) && fresh(S) && fresh(SN)
    {
      this.cfg := cfg;
      h := [];
      y := new real[cfg.N, cfg.nY]((k, c) => 0.0);
      yN := new real[NYN](c => 0.0);
      S := new real[cfg.N, cfg.nY, cfg.nY]((k, i, j) requires 0 <= i < |cfg.weights| && 0 <= j => Default(cfg, i, j));
      SN := new real[NYN, NYN]((i, j) requires 0 <= i < |cfg.weights| && 0 <= j => Default(cfg, i, j));
      new;
      StartsEmpty();
    }

    lemma StartsEmpty()
      requires Shaped()
      requires forall k, c :: 0 <= k < cfg.N && 0 <= c < cfg.nY ==> y[k, c] == 0.0
      requires forall c :: 0 <= c < NYN ==> yN[c] == 0.0
      requires forall k, i, j :: 0 <= k < cfg.N && 0 <= i < cfg.nY && 0 <= j < cfg.nY ==>
        S[k, i, j] == Default(cfg, i, j)
      requires forall i, j :: 0 <= i < NYN && 0 <= j < NYN ==> SN[i, j] == Default(cfg, i, j)
      ensures YHolds([], 0) && SHolds([], 0)
    {
      forall k, c | 0 <= k <= cfg.N && 0 <= c < cfg.nY
        ensures YAt(cfg, [], k, c) == 0.0
      {
        FutureIsEmpty(cfg, [], k);
      }
      forall k, i, j | 0 <= k <= cfg.N && 0 <= i < cfg.nY && 0 <= j < cfg.nY
        ensures SAt(cfg, [], k, i, j) == Default(cfg, i, j)
      {
        FutureIsEmpty(cfg, [], k);
      }
    }

    /** A new row: zero camera columns, the undelayed measurements, zero r, dr, ddr and controls. */
    static function NewRow(s: Sample, c: nat): real
      requires |s.undelayed| == CABLE - CAM
    {
      if CAM <= c < CABLE then s.undelayed[c - CAM] else 0.0
    }

    method ShiftWeights()
      requires Shaped()
      modifies S
      ensures forall k, i, j :: 0 <= k < cfg.N && 0 <= i < cfg.nY && 0 <= j < cfg.nY ==>
        S[k, i, j] == if k + 1 < cfg.N then old(S[k + 1, i, j])
                      else if i < NYN && j < NYN then SN[i, j] else old(S[k, i, j])
    {
      var last := cfg.N - 1;
      var n := 0;
      while n < last
        invariant 0 <= n <= last
        invariant forall k, i, j :: 0 <= k < n && 0 <= i < cfg.nY && 0 <= j < cfg.nY ==>
          S[k, i, j] == old(S[k + 1, i, j])
        invariant forall k, i, j :: n <= k < cfg.N && 0 <= i < cfg.nY && 0 <= j < cfg.nY ==>
          S[k, i, j] == old(S[k, i, j])
      {
        forall i, j | 0 <= i < cfg.nY && 0 <= j < cfg.nY {
          S[n, i, j] := S[n + 1, i, j];
        }
        n := n + 1;
      }
      forall i, j | 0 <= i < NYN && 0 <= j < NYN {
        S[last, i, j] := SN[i, j];
      }
    }

    method ShiftMeasurements()
      requires Shaped()
      modifies y
      ensures forall k, c :: 0 <= k < cfg.N && 0 <= c < cfg.nY ==>
        y[k, c] == if k + 1 < cfg.N then old(y[k + 1, c])
                   else if c < NYN then yN[c] else old(y[k, c])
    {
      var last := cfg.N - 1;
      var n := 0;
      while n < last
        invariant 0 <= n <= last
        invariant forall k, c :: 0 <= k < n && 0 <= c < cfg.nY ==> y[k, c] == old(y[k + 1, c])
        invariant forall k, c :: n <= k < cfg.N && 0 <= c < cfg.nY ==> y[k, c] == old(y[k, c])
      {
        forall c | 0 <= c < cfg.nY {
          y[n, c] := y[n + 1, c];
        }
        n := n + 1;
      }
      forall c | 0 <= c < NYN {
        y[last, c] := yN[c];
      }
    }

    /** mheRT.yN = yN */
    method NewLastRow(s: Sample)
      requires Shaped() && s.Valid(cfg)
      modifies this`yN
      ensures Shaped() && fresh(yN) && forall c :: 0 <= c < NYN ==> yN[c] == NewRow(s, c)
    {
      yN := new real[NYN](c requires 0 <= c => NewRow(s, c));
    }

    /** Camera data and their weights into row and block k. */
    method PutCamera(k: nat, s: Sample)
      requires Shaped() && k < cfg.N && s.Valid(cfg)
      modifies y, S
      ensures forall m, c :: 0 <= m < cfg.N && 0 <= c < cfg.nY ==>
        y[m, c] == if m == k && c < CAM then s.LedData(c) else old(y[m, c])
      ensures forall m, i, j :: 0 <= m < cfg.N && 0 <= i < cfg.nY && 0 <= j < cfg.nY ==>
        S[m, i, j] == if m == k && i < CAM && j < CAM then (if i == j then s.LedWeight(cfg, i) else 0.0)
                      else old(S[m, i, j])
    {
      forall c | 0 <= c < CAM {
        y[k, c] := s.LedData(c);
      }
      forall i, j | 0 <= i < CAM && 0 <= j < CAM {
        S[k, i, j] := if i == j then s.LedWeight(cfg, i) else 0.0;
      }
    }

    /** The cable measurement and its weight into row and block k. */
    method PutCable(k: nat, s: Sample)
      requires Shaped() && k < cfg.N
      modifies y, S
      ensures forall m, c :: 0 <= m < cfg.N && 0 <= c < cfg.nY ==>
        y[m, c] == if m == k && c == CABLE then s.CableMeas() else old(y[m, c])
      ensures forall m, i, j :: 0 <= m < cfg.N && 0 <= i < cfg.nY && 0 <= j < cfg.nY ==>
        S[m, i, j] == if m == k && i == j == CABLE then s.CableMeasWeight(cfg) else old(S[m, i, j])
    {
      y[k, CABLE] := s.CableMeas();
      S[k, CABLE, CABLE] := s.CableMeasWeight(cfg);
    }

    /** If the arrival of s has been written where it belongs, then the measurements hold the
        window that starts at `base` after that arrival. */
    lemma YAdvances(h0: History, s: Sample, base: nat)
      requires Shaped() && AllValid(cfg, h0) && s.Valid(cfg)
      requires forall k, c :: 0 <= k < cfg.N && 0 <= c < cfg.nY ==>
        y[k, c] == Arrived(cfg, h0, s, base + k, c, YAt(cfg, h0, base + k, c))
      requires forall c :: 0 <= c < NYN ==>
        yN[c] == Arrived(cfg, h0, s, base + cfg.N, c, YAt(cfg, h0, base + cfg.N, c))
      ensures AllValid(cfg, h0 + [s]) && YHolds(h0 + [s], base)
    {
      YAfterArrival(cfg, h0, s, base, 0);
      forall k, c | 0 <= k < cfg.N && 0 <= c < cfg.nY
        ensures y[k, c] == YAt(cfg, h0 + [s], base + k, c)
      {
        YAfterArrival(cfg, h0, s, base + k, c);
      }
      forall c | 0 <= c < NYN
        ensures yN[c] == YAt(cfg, h0 + [s], base + cfg.N, c)
      {
        YAfterArrival(cfg, h0, s, base + cfg.N, c);
      }
    }

    lemma SAdvances(h0: History, s: Sample, base: nat)
      requires Shaped() && AllValid(cfg, h0) && s.Valid(cfg)
      requires forall k, i, j :: 0 <= k < cfg.N && 0 <= i < cfg.nY && 0 <= j < cfg.nY ==>
        S[k, i, j] == Reweighed(cfg, h0, s, base + k, i, j, SAt(cfg, h0, base + k, i, j))
      requires forall i, j :: 0 <= i < NYN && 0 <= j < NYN ==>
        SN[i, j] == Reweighed(cfg, h0, s, base + cfg.N, i, j, SAt(cfg, h0, base + cfg.N, i, j))
      ensures AllValid(cfg, h0 + [s]) && SHolds(h0 + [s], base)
    {
      YAfterArrival(cfg, h0, s, base, 0);
      forall k, i, j | 0 <= k < cfg.N && 0 <= i < cfg.nY && 0 <= j < cfg.nY
        ensures S[k, i, j] == SAt(cfg, h0 + [s], base + k, i, j)
      {
        SAfterArrival(cfg, h0, s, base + k, i, j);
      }
      forall i, j | 0 <= i < NYN && 0 <= j < NYN
        ensures SN[i, j] == SAt(cfg, h0 + [s], base + cfg.N, i, j)
      {
        SAfterArrival(cfg, h0, s, base + cfg.N, i, j);
      }
    }

    /** itSim < N: write the new row, and the delayed data if their rows exist. */
    method FillWrites(itSim: nat, s: Sample)
      requires Shaped() && s.Valid(cfg) && itSim < cfg.N
      modifies y, S
      ensures forall k, c :: 0 <= k < cfg.N && 0 <= c < cfg.nY ==>
        y[k, c] == (if c < CAM && k + cfg.nDelay == itSim then s.LedData(c)
                    else if c == CABLE && k + s.rDelay == itSim then s.CableMeas()
                    else if k == itSim then NewRow(s, c)
                    else old(y[k, c]))
      ensures forall k, i, j :: 0 <= k < cfg.N && 0 <= i < cfg.nY && 0 <= j < cfg.nY ==>
        S[k, i, j] == (if i < CAM && j < CAM && k + cfg.nDelay == itSim
                       then (if i == j then s.LedWeight(cfg, i) else 0.0)
                       else if i == j == CABLE && k + s.rDelay == itSim then s.CableMeasWeight(cfg)
                       else old(S[k, i, j]))
    {
      forall c | 0 <= c < cfg.nY {
        y[itSim, c] := NewRow(s, c);
      }
      var ledInd := itSim - cfg.nDelay;
      if ledInd >= 0 {
        PutCamera(ledInd, s);
      }
      var cableInd := itSim - s.rDelay;
      if cableInd >= 0 {
        PutCable(cableInd, s);
      }
    }

    /** The first branch of the loop: itSim < N. */
    method Fill(itSim: nat, s: Sample)
      requires Valid() && s.Valid(cfg) && itSim == |h| < cfg.N
      modifies this`h, y, S
      ensures Valid() && h == old(h) + [s]
    {
      ghost var h0 := h;
      FillWrites(itSim, s);
      FutureIsEmpty(cfg, h0, itSim);
      YAdvances(h0, s, 0);
      SAdvances(h0, s, 0);
      h := h + [s];
    }

    /** itSim >= N: the new last row, and the delayed data where they belong. */
    method PutNew(s: Sample)
      requires Shaped() && s.Valid(cfg)
      modifies this`yN, y, S, SN
      ensures Shaped() && fresh(yN)
      ensures forall k, c :: 0 <= k < cfg.N && 0 <= c < cfg.nY ==>
        y[k, c] == (if c < CAM && k + cfg.nDelay == cfg.N then s.LedData(c)
                    else if c == CABLE && k + s.rDelay == cfg.N then s.CableMeas()
                    else old(y[k, c]))
      ensures forall c :: 0 <= c < NYN ==>
        yN[c] == if c == CABLE && s.rDelay == 0 then s.CableMeas() else NewRow(s, c)
      ensures forall k, i, j :: 0 <= k < cfg.N && 0 <= i < cfg.nY && 0 <= j < cfg.nY ==>
        S[k, i, j] == (if i < CAM && j < CAM && k + cfg.nDelay == cfg.N
                       then (if i == j then s.LedWeight(cfg, i) else 0.0)
                       else if i == j == CABLE && k + s.rDelay == cfg.N then s.CableMeasWeight(cfg)
                       else old(S[k, i, j]))
      ensures forall i, j :: 0 <= i < NYN && 0 <= j < NYN ==>
        SN[i, j] == (if i == j == CABLE then (if s.rDelay == 0 then s.CableMeasWeight(cfg) else 0.0)
                     else old(SN[i, j]))
    {
      NewLastRow(s);
      var ledInd := cfg.N - cfg.nDelay;
      PutCamera(ledInd, s);
      var cableInd := cfg.N - s.rDelay;
      if cableInd < cfg.N {
        PutCable(cableInd, s);
        SN[CABLE, CABLE] := 0.0;
      } else {
        yN[CABLE] := s.CableMeas();
        SN[CABLE, CABLE] := s.CableMeasWeight(cfg);
      }
    }

    /** PutNew completes the window that starts at `base`, if y and S already hold its first N rows. */
    method Arrive(s: Sample, ghost base: nat)
      requires Shaped() && AllValid(cfg, h) && s.Valid(cfg) && base + cfg.N == |h|
      requires forall k, c :: 0 <= k < cfg.N && 0 <= c < cfg.nY ==> y[k, c] == YAt(cfg, h, base + k, c)
      requires forall k, i, j :: 0 <= k < cfg.N && 0 <= i < cfg.nY && 0 <= j < cfg.nY ==>
        S[k, i, j] == SAt(cfg, h, base + k, i, j)
      requires forall i, j :: 0 <= i < NYN && 0 <= j < NYN && !(i == j == CABLE) ==> SN[i, j] == Default(cfg, i, j)
      modifies this`h, this`yN, y, S, SN
      ensures Valid() && h == old(h) + [s] && fresh(yN)
    {
      ghost var h0 := h;
      FutureIsEmpty(cfg, h0, |h0|);
      PutNew(s);
      YAdvances(h0, s, base);
      SAdvances(h0, s, base);
      h := h + [s];
      HoldsIsValid(base);
    }

    lemma HoldsIsValid(base: nat)
      requires Shaped() && AllValid(cfg, h) && base + cfg.N + 1 == |h|
      requires YHolds(h, base) && SHolds(h, base)
      ensures Valid()
    {
      assert base == Base(cfg, h);
    }

    /** The second branch: itSim == N. */
    method Initialize(s: Sample)
      requires Valid() && s.Valid(cfg) && |h| == cfg.N
      modifies this`h, this`yN, y, S, SN
      ensures Valid() && h == old(h) + [s] && fresh(yN)
    {
      LatestHasNoCamera(cfg, h, cfg.N);
      Arrive(s, 0);
    }

    /** Shifting moves the window on by one, up to the row that has not come yet. */
    method SlideMeasurements()
      requires Shaped() && AllValid(cfg, h) && YHolds(h, Base(cfg, h)) && |h| > cfg.N
      modifies y
      ensures forall k, c :: 0 <= k < cfg.N && 0 <= c < cfg.nY ==> y[k, c] == YAt(cfg, h, |h| - cfg.N + k, c)
    {
      ghost var base := Base(cfg, h);
      ShiftMeasurements();
      forall k, c | 0 <= k < cfg.N && 0 <= c < cfg.nY
        ensures y[k, c] == YAt(cfg, h, |h| - cfg.N + k, c)
      {
        assert |h| - cfg.N + k == base + (k + 1);
      }
    }

    method SlideWeights()
      requires Shaped() && AllValid(cfg, h) && SHolds(h, Base(cfg, h)) && |h| > cfg.N
      modifies S
      ensures forall k, i, j :: 0 <= k < cfg.N && 0 <= i < cfg.nY && 0 <= j < cfg.nY ==>
        S[k, i, j] == SAt(cfg, h, |h| - cfg.N + k, i, j)
    {
      ghost var base := Base(cfg, h);
      ShiftWeights();
      forall k, i, j | 0 <= k < cfg.N && 0 <= i < cfg.nY && 0 <= j < cfg.nY
        ensures S[k, i, j] == SAt(cfg, h, |h| - cfg.N + k, i, j)
      {
        assert |h| - cfg.N + k == base + (k + 1);
        if k + 1 < cfg.N {
          assert old(S[k + 1, i, j]) == SAt(cfg, h, base + (k + 1), i, j);
        } else if i >= NYN || j >= NYN {
          assert old(S[k, i, j]) == SAt(cfg, h, base + k, i, j);
        }
      }
    }

    /** The third branch: shift, then take in what has arrived. */
    method ShiftAndArrive(s: Sample)
      requires Valid() && s.Valid(cfg) && |h| > cfg.N
      modifies this`h, this`yN, y, S, SN
      ensures Valid() && h == old(h) + [s] && fresh(yN)
    {
      LatestHasNoCamera(cfg, h, |h| - 1);
      SlideWeights();
      SlideMeasurements();
      Arrive(s, |h| - cfg.N);
    }

    /** One pass of the loop, as far as the window goes. */
    method Step(itSim: nat, s: Sample)
      requires Valid() && s.Valid(cfg) && itSim == |h|
      modifies this`h, this`yN, y, S, SN
      ensures Valid() && h == old(h) + [s]
      ensures fresh(yN) || yN == old(yN)
    {
      if itSim < cfg.N {
        Fill(itSim, s);
      } else if itSim == cfg.N {
        Initialize(s);
      } else {
        ShiftAndArrive(s);
      }
    }
  }
}
