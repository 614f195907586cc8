/** The signal-conditioning stages run on the window: centering (mean
    removal), three-tap smoothing, the warm-up trim and the amplitude gate. */
module Filter {
  import opened Signal
  import Js

  /** The window with its mean subtracted from every sample. It keeps the
      window's length and sums to zero. */
  function Center(w: seq<real>): (c: seq<real>)
    requires |w| > 0
    ensures |c| == |w|
    ensures forall i :: 0 <= i < |w| ==> c[i] == w[i] - Mean(w)
    ensures Sum(c) == 0.0
  {
    var m := Mean(w);
    SumShift(w, m);
    assert (|w| as real) * m == Sum(w);
    Shift(w, m)
  }

  /** Three-tap moving average; the first and last samples pass through. */
  function Smooth(s: seq<real>): (r: seq<real>)
    ensures |r| == |s|
    ensures |s| > 0 ==> r[0] == s[0] && r[|s| - 1] == s[|s| - 1]
    ensures forall i {:trigger r[i]} :: 0 < i < |s| - 1 ==> r[i] == (s[i - 1] + s[i] + s[i + 1]) / 3.0
  {
    seq(|s|, i requires 0 <= i < |s| =>
      if i == 0 || i == |s| - 1 then s[i] else (s[i - 1] + s[i] + s[i + 1]) / 3.0)
  }

  /** Smoothing never leaves the range of its input: every smoothed value
      lies between the input's minimum and maximum. */
  lemma SmoothWithinRange(s: seq<real>)
    requires |s| > 0
    ensures Within(Smooth(s), SeqMin(s), SeqMax(s))
  {
    var r, lo, hi := Smooth(s), SeqMin(s), SeqMax(s);
    forall i | 0 <= i < |s| ensures lo <= r[i] <= hi {
      if 0 < i < |s| - 1 {
        AverageWithin(s[i - 1], s[i], s[i + 1], lo, hi);
      }
    }
  }

  lemma AverageWithin(a: real, b: real, c: real, lo: real, hi: real)
    requires lo <= a <= hi && lo <= b <= hi && lo <= c <= hi
    ensures lo <= (a + b + c) / 3.0 <= hi
  {
  }

  /** A constant input is a fixed point of smoothing. */
  lemma SmoothConstant(s: seq<real>)
    requires Constant(s)
    ensures Smooth(s) == s
  {
    forall i | 0 < i < |s| - 1 ensures Smooth(s)[i] == s[i] {
      assert s[i - 1] == s[i] == s[i + 1] == s[0];
    }
  }

  /** `smoothed.slice(offset)`: the sequence without its first `offset`
      samples (empty when there are no more than that). */
  function Trim(s: seq<real>, offset: nat): (t: seq<real>)
    ensures |t| == if offset <= |s| then |s| - offset else 0
    ensures forall i :: 0 <= i < |t| ==> t[i] == s[i + offset]
  {
    Js.SliceFrom(s, offset)
  }

  /** The validity gate. `Math.max` and `Math.min` of an empty array are
      -Infinity and +Infinity, whose difference is below any threshold, so
      an empty signal is always rejected. */
  predicate IsValidSignal(t: seq<real>, threshold: real)
  {
    |t| > 0 && SeqMax(t) - SeqMin(t) >= threshold
  }

  /** The gate accepts exactly the non-empty signals holding two samples at
      least `threshold` apart. */
  lemma {:induction false} ValidSignalWitnesses(t: seq<real>, threshold: real)
    ensures IsValidSignal(t, threshold) <==>
      exists i, j :: 0 <= i < |t| && 0 <= j < |t| && t[i] - t[j] >= threshold
  {
    if IsValidSignal(t, threshold) {
      var hi, lo := SeqMax(t), SeqMin(t);
      var i :| 0 <= i < |t| && t[i] == hi;
      var j :| 0 <= j < |t| && t[j] == lo;
      assert t[i] - t[j] >= threshold;
    }
    if exists i, j :: 0 <= i < |t| && 0 <= j < |t| && t[i] - t[j] >= threshold {
      var i, j :| 0 <= i < |t| && 0 <= j < |t| && t[i] - t[j] >= threshold;
      assert SeqMax(t) >= t[i] && SeqMin(t) <= t[j];
    }
  }

  /** A constant signal has amplitude 0 and is rejected by any positive
      threshold. */
  lemma ConstantRejected(t: seq<real>, threshold: real)
    requires Constant(t)
    requires threshold > 0.0
    ensures !IsValidSignal(t, threshold)
  {
    if |t| > 0 {
      assert SeqMax(t) == t[0] == SeqMin(t);
    }
  }
}
