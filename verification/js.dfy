/** The two JavaScript built-ins whose exact behaviour the pipeline relies
    on: `Array.prototype.slice` with one argument and `Math.round`. */
module Js {

  /** `s.slice(start)`: a negative start counts back from the end and is
      clamped at 0; a start past the end yields the empty array. A start
      of 0 copies the whole array. */
  function SliceFrom<T>(s: seq<T>, start: int): (r: seq<T>)
    ensures start < 0 ==> |r| == (if -start <= |s| then -start else |s|)
    ensures 0 <= start ==> |r| == (if start <= |s| then |s| - start else 0)
    ensures r == s[|s| - |r|..]
  {
    if start < 0 then
      s[(if |s| + start < 0 then 0 else |s| + start)..]
    else
      s[(if start > |s| then |s| else start)..]
  }

  /** `Math.round(x)`: the integer nearest to x, halves rounded up. */
  function Round(x: real): (r: int)
    ensures r as real - 0.5 <= x < r as real + 0.5
  {
    (x + 0.5).Floor
  }

  /** Rounding is monotone. */
  lemma RoundMonotone(x: real, y: real)
    requires x <= y
    ensures Round(x) <= Round(y)
  {
  }
}
