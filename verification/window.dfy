/** The sliding sample window: each tick appends one sample and keeps at
    most `capacity` of the most recent ones, evicting the oldest first. */
module Window {
  import Js

  /** `[...prev.slice(-capacity + 1), x]`. */
  function Push(prev: seq<real>, x: real, capacity: nat): (w: seq<real>)
    ensures 0 < |w| <= |prev| + 1 && w[|w| - 1] == x
    ensures w == (prev + [x])[|prev| + 1 - |w|..]
    ensures capacity >= 2 ==> |w| == Min(|prev| + 1, capacity)
    ensures |prev| < capacity ==> w == prev + [x]
    ensures capacity == 1 ==> w == prev + [x]
  {
    var kept := Js.SliceFrom(prev, -(capacity as int) + 1);
    assert kept + [x] == (prev + [x])[|prev| - |kept|..];
    kept + [x]
  }

  function Min(a: int, b: int): int
  {
    if a <= b then a else b
  }

  /** The window after pushing every sample of `xs` in order. */
  function PushAll(w: seq<real>, xs: seq<real>, capacity: nat): seq<real>
    decreases |xs|
  {
    if |xs| == 0 then w else PushAll(Push(w, xs[0], capacity), xs[1..], capacity)
  }

  /** FIFO eviction: starting from a window of at most `capacity` samples,
      pushing a stream leaves exactly the most recent `capacity` samples of
      the old window followed by the stream, in arrival order. */
  lemma {:induction false} PushAllKeepsMostRecent(w: seq<real>, xs: seq<real>, capacity: nat)
    requires capacity >= 2
    requires |w| <= capacity
    ensures PushAll(w, xs, capacity)
         == (w + xs)[|w + xs| - Min(|w| + |xs|, capacity)..]
    decreases |xs|
  {
    if |xs| > 0 {
      var w', rest := Push(w, xs[0], capacity), xs[1..];
      var len, m := |w'| + |rest|, Min(|w| + |xs|, capacity);
      assert PushAll(w, xs, capacity) == PushAll(w', rest, capacity);
      PushAllKeepsMostRecent(w', rest, capacity);
      assert Min(len, capacity) == m;
      PushedIsSuffix(w, xs, capacity);
      SuffixOfSuffix(w + xs, len, m);
    }
  }

  /** One push followed by the rest of the stream is a suffix of the
      old window followed by the whole stream. */
  lemma PushedIsSuffix(w: seq<real>, xs: seq<real>, capacity: nat)
    requires |xs| > 0
    ensures var w' := Push(w, xs[0], capacity);
      w' + xs[1..] == (w + xs)[|w| + 1 - |w'|..]
  {
    var w', head := Push(w, xs[0], capacity), w + [xs[0]];
    assert w' == head[|w| + 1 - |w'|..];
    SliceConcat(head, xs[1..], |w| + 1 - |w'|);
    ConsTail(w, xs);
  }

  lemma SliceConcat<T>(a: seq<T>, b: seq<T>, k: nat)
    requires k <= |a|
    ensures a[k..] + b == (a + b)[k..]
  {
  }

  /** A suffix of a suffix is a suffix. */
  lemma SuffixOfSuffix<T>(s: seq<T>, n: nat, m: nat)
    requires m <= n <= |s|
    ensures s[|s| - n..][n - m..] == s[|s| - m..]
  {
  }

  /** Until the window is full nothing is evicted: as long as the old
      window and the stream together fit in `capacity`, pushing only
      appends. */
  lemma {:induction false} PushAllNoEviction(w: seq<real>, xs: seq<real>, capacity: nat)
    requires |w| + |xs| <= capacity
    ensures PushAll(w, xs, capacity) == w + xs
    decreases |xs|
  {
    if |xs| > 0 {
      var w' := w + [xs[0]];
      assert PushAll(w, xs, capacity) == PushAll(w', xs[1..], capacity) by {
        assert Push(w, xs[0], capacity) == w';
      }
      PushAllNoEviction(w', xs[1..], capacity);
      ConsTail(w, xs);
    }
  }

  lemma ConsTail<T>(w: seq<T>, xs: seq<T>)
    requires |xs| > 0
    ensures w + [xs[0]] + xs[1..] == w + xs
  {
    assert [xs[0]] + xs[1..] == xs;
  }
}
