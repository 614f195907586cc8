/** Converting a peak count into beats per minute. The duration is that of
    the full window (capacity times the sampling interval), not of the
    trimmed signal the peaks were counted in. */
module Rate {
  import Js

  /** Window duration in seconds. */
  function Duration(capacity: nat, intervalSeconds: real): (d: real)
    ensures capacity > 0 && intervalSeconds > 0.0 ==> d > 0.0
  {
    (capacity as real) * intervalSeconds
  }

  /** `Math.round(peaks * 60 / duration)`: the whole number of beats per
      minute nearest to the exact rate. */
  function Bpm(peaks: nat, capacity: nat, intervalSeconds: real): (bpm: int)
    requires capacity > 0 && intervalSeconds > 0.0
    ensures var rate := (peaks as real) * 60.0 / Duration(capacity, intervalSeconds);
      bpm as real - 0.5 <= rate < bpm as real + 0.5
    ensures bpm >= 0
    ensures peaks == 0 ==> bpm == 0
  {
    Js.Round((peaks as real) * 60.0 / Duration(capacity, intervalSeconds))
  }

  /** More peaks never give a lower rate. */
  lemma BpmMonotone(p: nat, q: nat, capacity: nat, intervalSeconds: real)
    requires p <= q
    requires capacity > 0 && intervalSeconds > 0.0
    ensures Bpm(p, capacity, intervalSeconds) <= Bpm(q, capacity, intervalSeconds)
  {
    var d := Duration(capacity, intervalSeconds);
    assert (p as real) * 60.0 <= (q as real) * 60.0;
    DivideMonotone((p as real) * 60.0, (q as real) * 60.0, d);
    Js.RoundMonotone((p as real) * 60.0 / d, (q as real) * 60.0 / d);
  }

  lemma DivideMonotone(x: real, y: real, d: real)
    requires x <= y
    requires d > 0.0
    ensures x / d <= y / d
  {
    assert x / d * d == x && y / d * d == y;
  }

  /** With the window of 450 samples at 0.033 s (14.85 s), ten peaks give
      40 beats per minute and eighteen give 73. */
  lemma BaselineExamples()
    ensures Bpm(10, 450, 0.033) == 40
    ensures Bpm(18, 450, 0.033) == 73
    ensures Bpm(0, 450, 0.033) == 0
  {
  }
}
