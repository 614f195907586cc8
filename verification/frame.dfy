/** Sample extraction: one camera frame, given as the RGBA bytes of the
    canvas image, becomes one intensity sample, the mean of its red channel. */
module Frame {
  import opened Signal

  newtype byte = x: int | 0 <= x < 256

  /** The red bytes of an RGBA frame: those at indices 0, 4, 8, … below the
      frame's length (a trailing partial pixel still contributes its red). */
  function Reds(data: seq<byte>): (reds: seq<byte>)
    ensures |reds| == (|data| + 3) / 4
    ensures forall k :: 0 <= k < |reds| ==> 4 * k < |data| && reds[k] == data[4 * k]
    decreases |data|
  {
    if |data| == 0 then []
    else if |data| <= 4 then [data[0]]
    else [data[0]] + Reds(data[4..])
  }

  /** The loop that collects the red bytes, stepping through the frame four
      bytes at a time. */
  method ExtractReds(data: seq<byte>) returns (reds: seq<byte>)
    ensures reds == Reds(data)
  {
    reds := [];
    var i := 0;
    while i < |data|
      invariant 0 <= i <= |data| + 3
      invariant i % 4 == 0
      invariant |reds| == i / 4
      invariant forall k :: 0 <= k < |reds| ==> reds[k] == data[4 * k]
    {
      reds := reds + [data[i]];
      i := i + 4;
    }
    assert |reds| == |Reds(data)|;
  }

  /** The bytes as exact reals. */
  function ToReals(bs: seq<byte>): (r: seq<real>)
    ensures |r| == |bs|
    ensures Within(r, 0.0, 255.0)
  {
    seq(|bs|, i requires 0 <= i < |bs| => bs[i] as real)
  }

  /** Mean red intensity of a non-empty frame. It lies between the smallest
      and the largest red byte, hence within [0, 255]. */
  function RedMean(data: seq<byte>): (m: real)
    requires |data| > 0
    ensures SeqMin(ToReals(Reds(data))) <= m <= SeqMax(ToReals(Reds(data)))
    ensures 0.0 <= m <= 255.0
  {
    var reds := ToReals(Reds(data));
    MeanWithin(reds);
    Mean(reds)
  }
}
