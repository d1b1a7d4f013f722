/**
 The inversion step of the editor's adjustment pipeline (`adjust_image`):
 every 8-bit sample `x` becomes `255 - x`. The colour, contrast and brightness
 enhancers that run before it are PIL's float blends and are not modelled;
 the samples they produce are the input here.
 */
module Adjuster {

  import opened Quantizer

  /** The per-sample inversion map. */
  function InvertSample(x: int): (y: int)
    requires IsSample(x)
    ensures IsSample(y)
  {
    255 - x
  }

  /** Inversion of every sample of an image, in order. */
  function Invert(samples: seq<int>): (r: seq<int>)
    requires AllSamples(samples)
    ensures |r| == |samples| && AllSamples(r)
  {
    seq(|samples|, i requires 0 <= i < |samples| => InvertSample(samples[i]))
  }

  /**
   The tail of `adjust_image`: `enhanced` is the image after the three
   enhancers; it is inverted when `invert` is set and returned unchanged
   otherwise.
   */
  function Adjust(enhanced: seq<int>, invert: bool): (r: seq<int>)
    requires AllSamples(enhanced)
    ensures |r| == |enhanced| && AllSamples(r)
  {
    if invert then Invert(enhanced) else enhanced
  }

  /** Inverting a sample twice gives it back. */
  lemma InvertSampleInvolution(x: int)
    requires IsSample(x)
    ensures InvertSample(InvertSample(x)) == x
  {
  }

  /** Inverting an image twice gives it back. */
  lemma InvertInvolution(samples: seq<int>)
    requires AllSamples(samples)
    ensures Invert(Invert(samples)) == samples
  {
  }

  /** With inversion off the step is the identity; with it on, twice is the identity. */
  lemma AdjustInvertRoundTrip(enhanced: seq<int>)
    requires AllSamples(enhanced)
    ensures Adjust(enhanced, false) == enhanced
    ensures Adjust(Adjust(enhanced, true), true) == enhanced
  {
    InvertInvolution(enhanced);
  }

  /**
   Inversion mirrors the ramp: the ramp indices of `x` and `255 - x` add up
   to 9 when `9 * x` is a multiple of 255 (x in {0, 85, 170, 255}) and to 8
   otherwise, because each index is truncated.
   */
  lemma InvertMirrorsRamp(x: int)
    requires IsSample(x)
    ensures RampIndex(x) + RampIndex(InvertSample(x)) == if x % 85 == 0 then 9 else 8
  {
    var a := x * 9;
    var q, rem := a / 255, a % 255;
    assert a == 255 * q + rem;
    assert InvertSample(x) * 9 == 255 * (9 - q) - rem;
    if rem == 0 {
      assert RampIndex(InvertSample(x)) == 9 - q;
      assert x % 85 == 0;
    } else {
      assert InvertSample(x) * 9 == 255 * (8 - q) + (255 - rem);
      assert RampIndex(InvertSample(x)) == 8 - q;
      assert x % 85 != 0;
    }
  }
}
