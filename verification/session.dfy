/** The measurement session of the heart-rate monitor: the start button,
    the camera outcome, one window push per frame tick, and the analysis
    that fires once the centered window is full and ends the run as either
    a completed estimate or an invalid signal. */
module Session {
  import opened Signal
  import Window
  import Filter
  import Peaks
  import Rate

  datatype Option<T> = None | Some(value: T)

  /** The pipeline's constants: window capacity, peak threshold, warm-up
      trim, validity threshold and sampling interval in seconds. */
  datatype Config = Config(
    capacity: nat,
    peakThreshold: real,
    offset: nat,
    validityThreshold: real,
    intervalSeconds: real)

  /** The values the monitor uses: 450 samples every 0.033 s, threshold 1,
      trim 30, minimum amplitude 2. */
  const Baseline := Config(450, 1.0, 30, 2.0, 0.033)

  /** A usable configuration: a non-empty window and a positive duration. */
  predicate ValidConfig(cfg: Config)
  {
    cfg.capacity >= 1 && cfg.intervalSeconds > 0.0
  }

  /** What one pass of the analysis effect produces. */
  datatype Outcome = Pending | Invalid | Complete(bpm: int)

  /** The signal the peaks are counted in: smoothed, then trimmed. */
  function Conditioned(cfg: Config, centered: seq<real>): seq<real>
  {
    Filter.Trim(Filter.Smooth(centered), cfg.offset)
  }

  /** The analysis effect on the centered window. It does nothing until the
      window holds `capacity` samples; then it rejects a signal whose
      conditioned amplitude is below the validity threshold, and otherwise
      converts the peak count into beats per minute over the full window:
      the duration is that of `capacity` samples, not of the trimmed signal
      the peaks were counted in. */
  function Analyze(cfg: Config, centered: seq<real>): (r: Outcome)
    requires ValidConfig(cfg)
    ensures r.Pending? <==> |centered| < cfg.capacity
    ensures r.Invalid? <==>
      (|centered| >= cfg.capacity
       && !Filter.IsValidSignal(Conditioned(cfg, centered), cfg.validityThreshold))
    ensures r.Complete? ==> r.bpm >= 0
    ensures r.Complete? ==>
      var peaks := |Peaks.PeakIndices(Conditioned(cfg, centered), cfg.peakThreshold)|;
      var rate := (peaks as real) * 60.0 / Rate.Duration(cfg.capacity, cfg.intervalSeconds);
      r.bpm as real - 0.5 <= rate < r.bpm as real + 0.5
  {
    if |centered| < cfg.capacity then Pending
    else
      var t := Conditioned(cfg, centered);
      if !Filter.IsValidSignal(t, cfg.validityThreshold) then Invalid
      else
        var peaks := |Peaks.PeakIndices(t, cfg.peakThreshold)|;
        Complete(Rate.Bpm(peaks, cfg.capacity, cfg.intervalSeconds))
  }

  /** A full window of equal samples is always rejected, whatever the peak
      threshold, as long as the validity threshold is positive. */
  lemma ConstantWindowInvalid(cfg: Config, centered: seq<real>)
    requires ValidConfig(cfg)
    requires cfg.validityThreshold > 0.0
    requires |centered| >= cfg.capacity
    requires Constant(centered)
    ensures Analyze(cfg, centered) == Invalid
  {
    Filter.SmoothConstant(centered);
    var t := Conditioned(cfg, centered);
    assert Constant(t) by {
      forall i | 0 <= i < |t| ensures t[i] == t[0] {
        assert t[i] == centered[i + cfg.offset] && t[0] == centered[cfg.offset];
      }
    }
    Filter.ConstantRejected(t, cfg.validityThreshold);
  }

  /** With the monitor's constants a full window leaves 420 samples after
      the trim, yet the estimate divides their peak count by the duration of
      all 450 samples, 14.85 s. */
  lemma BaselineEstimate(centered: seq<real>)
    requires |centered| == Baseline.capacity
    ensures |Conditioned(Baseline, centered)| == 420
    ensures var r := Analyze(Baseline, centered);
      r.Complete? ==>
        var peaks := |Peaks.PeakIndices(Conditioned(Baseline, centered), 1.0)|;
        r.bpm as real - 0.5 <= (peaks as real) * 60.0 / 14.85 < r.bpm as real + 0.5
  {
    assert Rate.Duration(Baseline.capacity, Baseline.intervalSeconds) == 14.85;
  }

  /** With the monitor's constants a completed estimate never exceeds 844:
      the 420 trimmed samples hold at most 209 peaks. */
  lemma BaselineBpmBound(centered: seq<real>)
    requires |centered| == Baseline.capacity
    ensures Analyze(Baseline, centered).Complete? ==> 0 <= Analyze(Baseline, centered).bpm <= 844
  {
    var t := Conditioned(Baseline, centered);
    var peaks := |Peaks.PeakIndices(t, Baseline.peakThreshold)|;
    Peaks.PeakCountBound(t, Baseline.peakThreshold);
    assert peaks <= 209;
    Rate.BpmMonotone(peaks, 209, 450, 0.033);
    assert Rate.Bpm(209, 450, 0.033) == 844;
  }

  /** The message shown to the user, as an enumeration. */
  datatype Status = Prompt | PlaceFinger | Measuring | NoSignal | Done

  /** The component's state: the measuring flag, the estimate, the raw and
      centered windows, whether the camera failed, and the status. */
  datatype State = State(
    measuring: bool,
    bpm: Option<int>,
    data: seq<real>,
    centered: seq<real>,
    cameraError: bool,
    status: Status)

  /** Start pressed, camera streaming, camera unavailable, or one frame
      tick carrying the frame's red mean. */
  datatype Event = Start | CameraReady | CameraFailed | Tick(sample: real)

  function Initial(): State
  {
    State(false, None, [], [], false, Prompt)
  }

  /** The start button is enabled only while not measuring. */
  predicate StartEnabled(s: State)
  {
    !s.measuring
  }

  /** The result of one event. A tick pushes the sample, recomputes the
      centered window, and lets the analysis effect settle the run. */
  function Step(cfg: Config, s: State, e: Event): (r: State)
    requires ValidConfig(cfg)
    ensures !s.measuring && r.measuring ==> e.Start?
    ensures s.measuring && !r.measuring ==>
      e.CameraFailed? || (e.Tick? && |r.centered| >= cfg.capacity)
    ensures e.Tick? && s.measuring && |r.centered| >= cfg.capacity ==> !r.measuring
    ensures e.CameraFailed? ==> !r.measuring && r.cameraError
  {
    match e
    case Start =>
      if !StartEnabled(s) then s
      else State(true, None, [], [], false, PlaceFinger)
    case CameraReady =>
      s.(status := Measuring)
    case CameraFailed =>
      s.(cameraError := true, measuring := false)
    case Tick(x) =>
      if !s.measuring then s
      else
        var data := Window.Push(s.data, x, cfg.capacity);
        var centered := Filter.Center(data);
        Settle(cfg, s.(data := data, centered := centered))
  }

  /** Applying the analysis outcome: the invalid and complete paths both
      clear the measuring flag; only the complete path sets the estimate. */
  function Settle(cfg: Config, s: State): (r: State)
    requires ValidConfig(cfg)
    ensures r.data == s.data && r.centered == s.centered && r.cameraError == s.cameraError
    ensures |s.centered| < cfg.capacity ==> r == s
    ensures |s.centered| >= cfg.capacity ==> !r.measuring
    ensures r.bpm != s.bpm ==> r.status == Done
  {
    match Analyze(cfg, s.centered)
    case Pending => s
    case Invalid => s.(status := NoSignal, measuring := false)
    case Complete(b) => s.(bpm := Some(b), status := Done, measuring := false)
  }

  /** What every reachable state satisfies: the centered window is the
      centering of the raw one, the window never exceeds its capacity, and
      while measuring the window is not yet full and no estimate is set. */
  predicate Inv(cfg: Config, s: State)
  {
    && |s.data| <= cfg.capacity
    && (|s.data| == 0 ==> s.centered == [])
    && (|s.data| > 0 ==> s.centered == Filter.Center(s.data))
    && (s.measuring ==> |s.data| < cfg.capacity && s.bpm == None)
  }

  lemma InitialInv(cfg: Config)
    ensures Inv(cfg, Initial())
  {
  }

  /** Every event preserves the invariant. */
  lemma StepPreservesInv(cfg: Config, s: State, e: Event)
    requires ValidConfig(cfg)
    requires Inv(cfg, s)
    ensures Inv(cfg, Step(cfg, s, e))
  {
    if e.Tick? && s.measuring {
      TickAppends(cfg, s, e.sample);
    }
  }

  /** The state after a sequence of events. */
  function Run(cfg: Config, s: State, es: seq<Event>): State
    requires ValidConfig(cfg)
    decreases |es|
  {
    if |es| == 0 then s else Run(cfg, Step(cfg, s, es[0]), es[1..])
  }

  /** Every reachable state satisfies the invariant. */
  lemma {:induction false} RunPreservesInv(cfg: Config, s: State, es: seq<Event>)
    requires ValidConfig(cfg)
    requires Inv(cfg, s)
    ensures Inv(cfg, Run(cfg, s, es))
    decreases |es|
  {
    if |es| > 0 {
      StepPreservesInv(cfg, s, es[0]);
      RunPreservesInv(cfg, Step(cfg, s, es[0]), es[1..]);
    }
  }

  /** Busy guard: start while measuring changes nothing; otherwise it clears
      the estimate, both windows and the camera error and starts measuring. */
  lemma StartGuard(cfg: Config, s: State)
    requires ValidConfig(cfg)
    ensures s.measuring ==> Step(cfg, s, Start) == s
    ensures !s.measuring ==> var r := Step(cfg, s, Start);
      r.measuring && r.bpm == None && r.data == [] && r.centered == [] && !r.cameraError
  {
  }

  /** A camera failure records the error and ends the run; the estimate,
      the windows and the status are left as they were. */
  lemma CameraFailureEndsRun(cfg: Config, s: State)
    requires ValidConfig(cfg)
    ensures var r := Step(cfg, s, CameraFailed);
      && !r.measuring && r.cameraError
      && r.bpm == s.bpm && r.data == s.data && r.centered == s.centered && r.status == s.status
  {
  }

  /** Once the camera streams the status says the pulse is being measured,
      and nothing else changes. The pending camera request is never
      cancelled, so this also happens when it completes after the run has
      ended: the status then reads "measuring" while measuring is off. */
  lemma CameraReadyShowsMeasuring(cfg: Config, s: State)
    requires ValidConfig(cfg)
    ensures var r := Step(cfg, s, CameraReady);
      && r.status == Measuring
      && r.measuring == s.measuring && r.bpm == s.bpm && r.data == s.data
      && r.centered == s.centered && r.cameraError == s.cameraError
  {
  }

  /** Ticks outside a run change nothing. */
  lemma IdleTickIgnored(cfg: Config, s: State, x: real)
    requires ValidConfig(cfg)
    requires !s.measuring
    ensures Step(cfg, s, Tick(x)) == s
  {
  }

  /** The state after one tick per sample, the samples arriving in order. */
  function RunTicks(cfg: Config, s: State, xs: seq<real>): State
    requires ValidConfig(cfg)
  {
    if |xs| == 0 then s else Step(cfg, RunTicks(cfg, s, xs[..|xs| - 1]), Tick(xs[|xs| - 1]))
  }

  lemma AppendLast(a: seq<real>, xs: seq<real>)
    requires |xs| > 0
    ensures a + xs[..|xs| - 1] + [xs[|xs| - 1]] == a + xs
  {
    assert xs[..|xs| - 1] + [xs[|xs| - 1]] == xs;
  }

  lemma RunTicksLast(cfg: Config, s: State, xs: seq<real>)
    requires ValidConfig(cfg)
    requires |xs| > 0
    ensures RunTicks(cfg, s, xs) == Step(cfg, RunTicks(cfg, s, xs[..|xs| - 1]), Tick(xs[|xs| - 1]))
  {
  }

  /** One tick of a run appends its sample, since a running window is
      never full; the run ends exactly when this tick fills the window,
      with the outcome of analysing the new window. */
  lemma TickAppends(cfg: Config, s: State, x: real)
    requires ValidConfig(cfg)
    requires s.measuring && |s.data| < cfg.capacity
    ensures var r := Step(cfg, s, Tick(x));
      && r.data == s.data + [x]
      && r.centered == Filter.Center(s.data + [x])
      && (r.measuring <==> |s.data| + 1 < cfg.capacity)
      && (r.measuring ==> r.bpm == s.bpm && r.status == s.status)
      && (Analyze(cfg, r.centered) == Invalid ==> r.status == NoSignal && r.bpm == s.bpm)
      && (Analyze(cfg, r.centered).Complete? ==>
            r.status == Done && r.bpm == Some(Analyze(cfg, r.centered).bpm))
  {
  }

  /** Before the window fills, each tick of a run only appends its sample:
      nothing is evicted and the run goes on. */
  lemma {:induction false} TicksAccumulate(cfg: Config, s: State, xs: seq<real>)
    requires ValidConfig(cfg)
    requires s.measuring
    requires |s.data| + |xs| < cfg.capacity
    ensures var r := RunTicks(cfg, s, xs);
      r.measuring && r.data == s.data + xs && r.bpm == s.bpm && r.status == s.status
  {
    if |xs| > 0 {
      var init, x := xs[..|xs| - 1], xs[|xs| - 1];
      var mid := RunTicks(cfg, s, init);
      assert mid.measuring && mid.data == s.data + init && mid.bpm == s.bpm && mid.status == s.status by {
        TicksAccumulate(cfg, s, init);
      }
      var r := Step(cfg, mid, Tick(x));
      assert r.measuring && r.data == mid.data + [x] && r.bpm == mid.bpm && r.status == mid.status by {
        TickAppends(cfg, mid, x);
      }
      RunTicksLast(cfg, s, xs);
      AppendLast(s.data, xs);
    }
  }

  /** A run fed exactly `capacity` samples from an empty window ends on the
      last of them: the window holds those samples, measuring is off, and
      the outcome is the analysis of their centering (an invalid signal
      leaves the estimate unset). The samples are the first capacity − 1
      followed by the last one. */
  lemma RunEndsWhenFull(cfg: Config, s: State, init: seq<real>, x: real)
    requires ValidConfig(cfg)
    requires s.measuring && s.data == [] && s.bpm == None
    requires |init| + 1 == cfg.capacity
    ensures var r, w := RunTicks(cfg, s, init + [x]), init + [x];
      && !r.measuring
      && r.data == w
      && r.centered == Filter.Center(w)
      && (Analyze(cfg, Filter.Center(w)) == Invalid ==> r.status == NoSignal && r.bpm == None)
      && (Analyze(cfg, Filter.Center(w)).Complete? ==>
            r.status == Done && r.bpm == Some(Analyze(cfg, Filter.Center(w)).bpm))
  {
    var mid := RunTicks(cfg, s, init);
    assert mid.measuring && mid.data == init && mid.bpm == None by {
      TicksAccumulate(cfg, s, init);
      assert s.data + init == init;
    }
    assert RunTicks(cfg, s, init + [x]) == Step(cfg, mid, Tick(x)) by {
      RunTicksLast(cfg, s, init + [x]);
      assert (init + [x])[..|init|] == init;
    }
    TickAppends(cfg, mid, x);
  }

  /** End to end: a session that sees the same intensity on every frame
      ends with an invalid signal and no estimate. */
  lemma ConstantInputInvalid(cfg: Config, xs: seq<real>)
    requires ValidConfig(cfg)
    requires cfg.validityThreshold > 0.0
    requires |xs| == cfg.capacity
    requires Constant(xs)
    ensures var r := RunTicks(cfg, Step(cfg, Initial(), Start), xs);
      !r.measuring && r.status == NoSignal && r.bpm == None
  {
    var s := Step(cfg, Initial(), Start);
    var init, x := xs[..|xs| - 1], xs[|xs| - 1];
    assert init + [x] == xs;
    RunEndsWhenFull(cfg, s, init, x);
    ShiftConstant(xs, Mean(xs));
    assert Filter.Center(xs) == Shift(xs, Mean(xs));
    ConstantWindowInvalid(cfg, Filter.Center(xs));
  }
}
