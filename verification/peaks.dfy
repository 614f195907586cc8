/** Peak detection on the trimmed signal: an interior sample counts as a
    peak when it is strictly above both neighbours by more than the
    threshold. There is no minimum spacing between peaks. */
module Peaks {
  import opened Signal

  /** Index i is a peak of t: interior, and rising more than `threshold`
      from both neighbours. */
  predicate IsPeak(t: seq<real>, i: int, threshold: real)
  {
    && 1 <= i && i + 1 < |t|
    && t[i] > t[i - 1] && t[i] > t[i + 1]
    && t[i] - t[i - 1] > threshold && t[i] - t[i + 1] > threshold
  }

  /** Two adjacent indices are never both peaks. */
  lemma NoAdjacentPeaks(t: seq<real>, i: int, threshold: real)
    ensures !(IsPeak(t, i, threshold) && IsPeak(t, i + 1, threshold))
  {
  }

  /** The peak indices below n, in increasing order, each at least two
      above the previous one. */
  function PeaksBelow(t: seq<real>, threshold: real, n: nat): (ps: seq<nat>)
    requires n <= |t|
    ensures forall k :: 0 <= k < |ps| ==> ps[k] < n && IsPeak(t, ps[k], threshold)
    ensures forall i :: 0 <= i < n && IsPeak(t, i, threshold) ==> i in ps
    ensures forall k :: 0 < k < |ps| ==> ps[k - 1] + 2 <= ps[k]
  {
    if n == 0 then []
    else
      var ps := PeaksBelow(t, threshold, n - 1);
      if IsPeak(t, n - 1, threshold) then
        NoAdjacentPeaks(t, n - 2, threshold);
        ps + [n - 1]
      else ps
  }

  /** All peak indices of t. */
  function PeakIndices(t: seq<real>, threshold: real): seq<nat>
  {
    PeaksBelow(t, threshold, |t|)
  }

  /** The loop that counts peaks, scanning indices 1 to |t| - 2. */
  method CountPeaks(t: seq<real>, threshold: real) returns (peaks: nat)
    ensures peaks == |PeakIndices(t, threshold)|
  {
    peaks := 0;
    var i := 1;
    while i < |t| - 1
      invariant 1 <= i <= (if |t| < 2 then 1 else |t| - 1)
      invariant |t| == 0 ==> peaks == 0
      invariant i <= |t| ==> peaks == |PeaksBelow(t, threshold, i)|
    {
      if t[i] > t[i - 1] && t[i] > t[i + 1]
        && t[i] - t[i - 1] > threshold && t[i] - t[i + 1] > threshold
      {
        peaks := peaks + 1;
      }
      i := i + 1;
    }
    if |t| >= 2 {
      assert !IsPeak(t, |t| - 1, threshold);
      assert PeaksBelow(t, threshold, |t|) == PeaksBelow(t, threshold, |t| - 1);
    } else if |t| == 1 {
      assert PeaksBelow(t, threshold, 1) == PeaksBelow(t, threshold, 0);
    }
  }

  /** The k-th peak lies at index 2k+1 or later. */
  lemma {:induction false} PeakSpacing(ps: seq<nat>, k: nat)
    requires forall j :: 0 <= j < |ps| ==> 1 <= ps[j]
    requires forall j :: 0 < j < |ps| ==> ps[j - 1] + 2 <= ps[j]
    requires k < |ps|
    ensures ps[k] >= 2 * k + 1
  {
    if k > 0 {
      PeakSpacing(ps, k - 1);
    }
  }

  /** Since peaks are interior and never adjacent, a signal of length n has
      at most (n - 1) / 2 of them. */
  lemma PeakCountBound(t: seq<real>, threshold: real)
    ensures |PeakIndices(t, threshold)| <= if |t| == 0 then 0 else (|t| - 1) / 2
  {
    var ps := PeakIndices(t, threshold);
    if |ps| > 0 {
      PeakSpacing(ps, |ps| - 1);
      assert IsPeak(t, ps[|ps| - 1], threshold);
    }
  }

  /** Raising the threshold never adds peaks: every peak under the higher
      threshold is one under the lower, so the count cannot grow. */
  lemma {:induction false} ThresholdMonotone(t: seq<real>, lower: real, higher: real, n: nat)
    requires lower <= higher
    requires n <= |t|
    ensures |PeaksBelow(t, higher, n)| <= |PeaksBelow(t, lower, n)|
  {
    if n > 0 {
      ThresholdMonotone(t, lower, higher, n - 1);
    }
  }

  /** A constant signal has no peaks. */
  lemma ConstantHasNoPeaks(t: seq<real>, threshold: real)
    requires Constant(t)
    ensures |PeakIndices(t, threshold)| == 0
  {
    forall i | 1 <= i < |t| - 1 ensures !IsPeak(t, i, threshold) {
      assert t[i] == t[i - 1];
    }
    var ps := PeakIndices(t, threshold);
    assert |ps| > 0 ==> IsPeak(t, ps[0], threshold);
  }
}
