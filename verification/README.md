# Heart-rate monitor pipeline, modelled in Dafny

The `HeartRateMonitor` React component estimates a pulse from the phone
camera. Each frame tick turns the canvas image into one sample, the mean of
its red channel. The sample is pushed into a window of at most 450 samples,
and the window is centered by subtracting its mean. Once the centered window
is full, the analysis effect runs:

- a three-tap smoothing with pass-through ends;
- a trim of the first 30 smoothed samples;
- a validity gate that rejects a signal whose max − min is below 2;
- a count of the strict local maxima that rise more than 1 above both
  neighbours;
- the estimate `round(peaks · 60 / (450 · 0.033))`.

A small state machine around this is driven by the `isMeasuring` flag. The
start button works only while not measuring. A camera failure, an invalid
signal or a completed estimate each clear the flag.

This project models that pipeline as pure functions over `seq<real>` and the
session as a datatype state machine. Intensities are exact reals. The
constants are the fields of `Session.Config`, and `Session.Baseline` gives
them the component's values: capacity 450, peak threshold 1, trim offset 30,
validity threshold 2 and interval 0.033 s.

Modules, in pipeline order:

- `Signal`: sum, mean, minimum and maximum of a sequence, and their bounds.
- `Js`: the JavaScript built-ins whose exact behaviour matters. These are
  one-argument `slice`, including a start of 0, which keeps the whole array, and `Math.round`.
- `Frame`: the red bytes of an RGBA frame and their mean.
- `Window`: the push with FIFO eviction, and what a stream of pushes leaves.
- `Filter`: centering, smoothing, trim and the validity gate.
- `Peaks`: the peak predicate, the ordered peak indices, and the counting loop.
- `Rate`: duration and BPM.
- `Session`: the configuration, the analysis effect, the state machine and
  its invariant, and end-to-end runs.

Notes on how the code behaves, which the model reproduces:

- The session is governed by the `isMeasuring` flag alone. There is no
  stop command: a run ends by a camera failure, an invalid signal or a
  completed estimate.
- The window slides (`slice(-449)`). The analysis fires on the tick that
  first fills it, and, with the effect taken to run synchronously after
  that tick (see "## Left out"), the same tick ends the run. Under that
  reading nothing is evicted within a run (`Session.TickAppends`,
  `Session.TicksAccumulate`).
- The estimate divides by the duration of the whole window,
  450 · 0.033 = 14.85 s, although the peaks are counted in the 420 samples
  left after the trim (`Session.BaselineEstimate`). Ten peaks give 40 and
  eighteen give 73 (`Rate.BaselineExamples`).
- An empty trimmed signal is rejected. `Math.max()` − `Math.min()` of no
  arguments is −∞, which is below any threshold.
- A camera that starts streaming after the run has ended still sets the
  "measuring" status, because the pending camera request is never
  cancelled (`Session.CameraReadyShowsMeasuring`).
- Centering an empty window would give NaN. It never happens, because a
  push always adds a sample before the centering.

## Model

| member | source | states |
|---|---|---|
| Frame.Reds | src/App.jsx:88-91 | the red bytes are exactly those at indices 0, 4, 8, … below the frame length: there are ⌈len/4⌉ of them and the k-th is byte 4k |
| Frame.ExtractReds | src/App.jsx:88-91 | the stride-4 loop collects exactly those red bytes |
| Frame.RedMean | src/App.jsx:93 | the red mean of a non-empty frame lies between the smallest and largest red byte, hence within [0, 255] |
| Signal.SeqMin | src/App.jsx:114 | `Math.min` of a non-empty signal is one of its samples and no sample is smaller |
| Signal.SeqMax | src/App.jsx:115 | `Math.max` of a non-empty signal is one of its samples and no sample is larger |
| Signal.Sum | src/App.jsx:93-96 | the sum `reduce((a, b) => a + b, 0)`, folded from the first sample |
| Signal.Mean | src/App.jsx:93-96 | the sum divided by the number of samples, for a non-empty sequence |
| Signal.MeanWithin | src/App.jsx:96 | the mean of a non-empty window lies between its minimum and maximum |
| Signal.MeanBetween | src/App.jsx:96 | any bounds that hold for every sample of a non-empty window also hold for its mean |
| Signal.SumShift | src/App.jsx:97 | subtracting c from every sample lowers the sum by n·c |
| Js.SliceFrom | src/App.jsx:95 | `slice(start)` returns a suffix: the last −start elements for a negative start (clamped to the length), and all but the first `start` otherwise |
| Js.Round | src/App.jsx:137 | `Math.round(x)` is the integer r with r − ½ ≤ x < r + ½ |
| Js.RoundMonotone | src/App.jsx:137 | rounding preserves order |
| Window.Push | src/App.jsx:95 | the new window is a suffix of old window + sample, ends with the sample, and holds min(len+1, capacity) samples for capacity ≥ 2; below capacity it only appends; with capacity 1 the start is −1 + 1 = 0, and `slice(0)` keeps everything |
| Window.PushAllKeepsMostRecent | src/App.jsx:95 | after any stream of pushes the window holds exactly the most recent min(total, capacity) samples in arrival order (FIFO eviction) |
| Window.PushAllNoEviction | src/App.jsx:95 | while old window and stream fit within capacity, pushing only appends |
| Filter.Center | src/App.jsx:96-98 | centering keeps the length, subtracts the window mean from every sample, and the result sums to zero |
| Filter.Smooth | src/App.jsx:108-111 | smoothing keeps the length; the first and last samples pass through; each interior sample becomes the mean of itself and its two neighbours |
| Filter.SmoothWithinRange | src/App.jsx:108-111 | every smoothed sample lies between the input's minimum and maximum |
| Filter.SmoothConstant | src/App.jsx:108-111 | a constant signal is a fixed point of smoothing |
| Session.Conditioned | src/App.jsx:108-113 | the signal peaks are counted in: the smoothed window with its first `offset` samples dropped |
| Filter.Trim | src/App.jsx:113 | the trimmed signal is the smoothed one without its first `offset` samples: length max(len − offset, 0), element i equal to element i + offset |
| Filter.IsValidSignal | src/App.jsx:114-117 | the gate: a signal passes when it is non-empty and its maximum minus its minimum reaches the validity threshold; an empty one fails, since `Math.max()` − `Math.min()` is −∞ |
| Filter.ValidSignalWitnesses | src/App.jsx:114-117 | the gate passes a signal if and only if it holds two samples at least the threshold apart (so never an empty one) |
| Filter.ConstantRejected | src/App.jsx:114-121 | a constant signal is rejected by any positive validity threshold |
| Peaks.IsPeak | src/App.jsx:125-129 | index i is a peak when it is interior and the sample there is above both neighbours by more than the threshold |
| Peaks.NoAdjacentPeaks | src/App.jsx:125-129 | two adjacent indices are never both peaks |
| Peaks.PeaksBelow | src/App.jsx:123-133 | the peak list holds every peak index below n and nothing else, ascending, with consecutive peaks at least two apart |
| Peaks.CountPeaks | src/App.jsx:123-133 | the loop over indices 1 … len−2 counts exactly the peak indices |
| Peaks.PeakCountBound | src/App.jsx:124-133 | a signal of length n ≥ 1 has at most (n − 1)/2 peaks |
| Peaks.ThresholdMonotone | src/App.jsx:128-129 | raising the peak threshold never increases the count |
| Peaks.ConstantHasNoPeaks | src/App.jsx:125-129 | a constant signal has no peaks |
| Rate.Duration | src/App.jsx:135 | the window duration is positive for a positive capacity and interval |
| Rate.Bpm | src/App.jsx:135-137 | the estimate is the nearest integer to peaks·60/duration; it is non-negative and 0 for no peaks |
| Rate.BpmMonotone | src/App.jsx:135-137 | more peaks never give a lower estimate |
| Rate.BaselineExamples | src/App.jsx:135-137 | over 450 × 0.033 s, 0, 10 and 18 peaks give 0, 40 and 73 BPM |
| Session.Analyze | src/App.jsx:106-137 | the analysis is pending if and only if the centered window is shorter than capacity; it is invalid if and only if the window is full and the smoothed, trimmed signal fails the gate; a completed estimate is the non-negative integer nearest to the trimmed signal's peak count · 60 divided by the duration of the full window (capacity · interval), not of the trimmed signal |
| Session.ConstantWindowInvalid | src/App.jsx:107-121 | a full constant window is invalid whatever the peak threshold |
| Session.BaselineEstimate | src/App.jsx:113-137 | with the component's constants a full window leaves 420 samples after the trim, and a completed estimate is the integer nearest to their peak count · 60 / 14.85, the duration of all 450 samples |
| Session.BaselineBpmBound | src/App.jsx:113-137 | with the component's constants a completed estimate is at most 844 (at most 209 peaks in 420 trimmed samples) |
| Session.Step | src/App.jsx:94-139 | only start turns measuring on; measuring ends only by a camera failure or by the tick whose analysis finds the window full, and such a tick always ends it |
| Session.CameraFailureEndsRun | src/App.jsx:52-55 | a camera failure records the error and clears measuring, leaving estimate, windows and status as they were |
| Session.CameraReadyShowsMeasuring | src/App.jsx:59-63 | when the camera streams, the status becomes "measuring" and nothing else changes, even when the stream arrives after the run has ended |
| Session.Settle | src/App.jsx:117-139 | the analysis outcome never touches the windows; pending changes nothing; a full window clears measuring; the estimate changes only on completion |
| Session.Baseline | src/App.jsx:25-27 | the component's constants: 450 samples, peak threshold 1, offset 30, amplitude threshold 2 (line 117) and a 0.033 s interval (line 135) |
| Session.StartEnabled | src/App.jsx:176 | the start button is enabled exactly while not measuring |
| Session.Initial | src/App.jsx:17-22 | the initial state: not measuring, no estimate, empty windows, no camera error, the prompt status |
| Session.InitialInv | src/App.jsx:17-22 | the initial state (not measuring, no estimate, empty windows) satisfies the invariant |
| Session.StepPreservesInv | src/App.jsx:94-139 | every event keeps the invariant: the window never exceeds capacity, the centered window is the centering of the raw one, and while measuring the window is not full and no estimate is set |
| Session.RunPreservesInv | src/App.jsx:94-139 | every state reachable by any event sequence satisfies the invariant |
| Session.StartGuard | src/App.jsx:168-176 | start while measuring changes nothing; otherwise it clears the estimate, both windows and the error and sets measuring |
| Session.IdleTickIgnored | src/App.jsx:79-103 | no sample is pushed while not measuring |
| Session.TickAppends | src/App.jsx:94-107 | a tick in a run appends its sample, recomputes the centering, and ends the run exactly when it fills the window, with status and estimate set by the analysis outcome |
| Session.TicksAccumulate | src/App.jsx:94-100 | before the window fills, a run's ticks only append their samples in order and the run goes on |
| Session.RunEndsWhenFull | src/App.jsx:106-139 | a run fed exactly `capacity` samples ends on the last one; the window holds those samples; an invalid signal leaves the estimate unset and a completed one sets it |
| Session.ConstantInputInvalid | src/App.jsx:93-121 | end to end, a run that sees the same intensity on every frame ends with an invalid signal and no estimate |

## Left out

- Camera acquisition is browser I/O: `getUserMedia`, the rear-camera fallback, torch capability and track teardown (src/App.jsx:29-75). It appears only as the `CameraReady` and `CameraFailed` events.
- The canvas frame grab (`drawImage`, `getImageData`, src/App.jsx:81-86) is I/O. A tick carries the red mean as a real, and `Frame` models how a byte frame becomes that mean.
- The 33 ms `setInterval` cadence and React's effect scheduling and state batching are timing and framework concerns. One tick is one push, and the analysis effect runs synchronously after it. In the code the analysis is a passive effect after the filling tick's commit, and the interval is cleared only after a further commit (src/App.jsx:103, 106-141). A tick arriving in between would push onto the full window, evict its oldest sample, and make the analysis run again and overwrite the estimate and status. This is not modelled. `Session.IdleTickIgnored` and the end of a run in `Session.Step` rest on the same synchronous reading.
- Chart.js, the JSX layout and the torch checkbox are UI.
- The Spanish status strings are replaced by the `Session.Status` enumeration.
- IEEE-754 doubles are replaced by exact reals. The model has no rounding error and no NaN.
- Frame.RedMean: requires a non-empty frame. In the code, an empty frame would give NaN; the canvas is always 300 × 200 pixels.
- Rate.Bpm: requires a positive capacity and interval. In the code they are the constants 450 and 0.033.
- The torch flag also re-runs the camera effect. It cannot change during a run, because the checkbox is disabled while measuring.
