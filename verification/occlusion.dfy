/**
 The occlusion estimator of the batched pass: the coverage shader's
 per-sample rule (LensFlarePass.js, coverage fragment shader) and the
 readout of the coverage target's top mip level, modelled as the mean of
 its 32 x 32 texels. Textures are functions from coordinates to values; the
 hash `rand`, the trigonometry and the camera matrices that place a sample
 are folded into the sample position each fragment is given.
 */
module Occlusion {
  import opened Common
  import opened Flares

  /** The four textures the coverage shader samples (one channel each). */
  datatype Textures = Textures(
    opaqueDepth: Uv -> real,   // depthTexture.r: depth of the frame's depth-writing geometry
    dwTrueDepth: Uv -> real,   // transparencyDWTrueDepth.r
    dwTrueAlpha: Uv -> real,   // transparencyDWTrue.a
    dwFalseAlpha: Uv -> real)  // transparencyDWFalse.a

  /** The depth-copy pass seeds the capture targets with the frame depth plus this offset. */
  const DepthSeedOffset: real := 0.00001

  /** Both captured alpha channels hold values in [0, 1]. */
  ghost predicate AlphasInUnit(t: Textures) {
    forall uv :: InUnit(t.dwTrueAlpha(uv)) && InUnit(t.dwFalseAlpha(uv))
  }

  /** A sample is blocked: the frame depth there is nearer than the sample, or
      the sample left the screen. */
  predicate SampleFails(t: Textures, uv: Uv, depth: real) {
    t.opaqueDepth(uv) < depth || OutsideUnitSquare(uv)
  }

  /** The coverage shader's rule for one channel, exactly as written. `base`
      is whatever the never-initialised `occluded[i]` holds, which is what a
      passing sample reports. */
  function SampleChannelAsWritten(t: Textures, doTransparency: bool, base: real, uv: Uv, depth: real): (occ: real)
    ensures doTransparency ==> occ >= t.dwFalseAlpha(uv)
    ensures !SampleFails(t, uv, depth) ==>
      occ == if doTransparency then Max(base, t.dwFalseAlpha(uv)) else base
  {
    var afterDepth :=
      if SampleFails(t, uv, depth) then
        (if doTransparency then
           (if t.dwTrueDepth(uv) != t.opaqueDepth(uv) then 1.0 else t.dwTrueAlpha(uv))
         else 1.0)
      else base;
    if doTransparency then Max(afterDepth, t.dwFalseAlpha(uv)) else afterDepth
  }

  /** The rule with `occluded[i]` starting at 0, as the earlier single-flare
      shader and the legacy pass initialise it. */
  function SampleOcclusion(t: Textures, doTransparency: bool, uv: Uv, depth: real): (occ: real)
    ensures AlphasInUnit(t) ==> InUnit(occ)
    // without transparency the score is binary: 1 exactly when the sample is blocked
    ensures !doTransparency ==> (occ == 1.0 <==> SampleFails(t, uv, depth))
    ensures !doTransparency ==> (occ == 0.0 <==> !SampleFails(t, uv, depth))
    // with it, never below the non-depth-writing alpha ...
    ensures doTransparency ==> occ >= t.dwFalseAlpha(uv)
    // ... a depth-writing translucent surface in front scores its alpha ...
    ensures doTransparency && SampleFails(t, uv, depth) && t.dwTrueDepth(uv) == t.opaqueDepth(uv) ==>
      occ == Max(t.dwTrueAlpha(uv), t.dwFalseAlpha(uv))
    // ... and wherever the captured depth differs from the frame depth (the seeded
    // depth survived, so an opaque surface is in front) the score is 1
    ensures (doTransparency && SampleFails(t, uv, depth) && t.dwFalseAlpha(uv) <= 1.0 &&
             t.dwTrueDepth(uv) != t.opaqueDepth(uv)) ==> occ == 1.0
  {
    SampleChannelAsWritten(t, doTransparency, 0.0, uv, depth)
  }

  /** Where no translucent depth-writing surface overwrote the seeded depth
      copy, the captured depth is off by the seed offset, so a blocked sample
      scores full occlusion. */
  lemma SeededDepthScoresOne(t: Textures, uv: Uv, depth: real)
    requires SampleFails(t, uv, depth) && t.dwFalseAlpha(uv) <= 1.0
    requires t.dwTrueDepth(uv) == t.opaqueDepth(uv) + DepthSeedOffset
    ensures SampleOcclusion(t, true, uv, depth) == 1.0
  {
  }

  /** A passing sample reports the uninitialised value: with transparency off
      and any non-zero garbage in `occluded[i]`, an unblocked sample counts
      as (partly) occluded. */
  lemma UninitialisedSampleLeaks(t: Textures, uv: Uv, depth: real, base: real)
    requires !SampleFails(t, uv, depth) && base != 0.0
    ensures SampleChannelAsWritten(t, false, base, uv, depth) != SampleOcclusion(t, false, uv, depth)
  {
  }

  /** The batched shader's view-space sample offset `rand * (cos, sin, 0)`
      scaled by the coverage radius. */
  function ViewOffset(rnd: real, cosine: real, sine: real, radius: real): Vec3 {
    Scale3(Vec3(rnd * cosine, rnd * sine, 0.0), radius)
  }

  /** With the hash in [0, 1) and a unit direction, the sample lies within the
      coverage radius of the flare in view space. */
  lemma ViewOffsetWithinRadius(rnd: real, cosine: real, sine: real, radius: real)
    requires 0.0 <= rnd < 1.0 && cosine * cosine + sine * sine == 1.0 && radius >= 0.0
    ensures Dot(ViewOffset(rnd, cosine, sine, radius), ViewOffset(rnd, cosine, sine, radius)) <= radius * radius
  {
    var o := ViewOffset(rnd, cosine, sine, radius);
    calc {
      Dot(o, o);
      (rnd * cosine * radius) * (rnd * cosine * radius) + (rnd * sine * radius) * (rnd * sine * radius);
      (rnd * rnd) * (radius * radius) * (cosine * cosine + sine * sine);
      (rnd * rnd) * (radius * radius);
    }
    assert rnd * rnd <= 1.0 by {
      assert rnd * rnd <= rnd * 1.0;
    }
    assert (rnd * rnd) * (radius * radius) <= 1.0 * (radius * radius);
  }

  /** One coverage texel: channel `i` scores the sample taken for slot `i`,
      whose clip position (after the perspective divide) is `sampleNdc[i]`. */
  function CoverageTexel(t: Textures, doTransparency: bool, sampleNdc: seq<Vec3>): (c: Rgba)
    requires |sampleNdc| == 4
    ensures forall i :: 0 <= i < 4 ==>
      Channel(c, i) == SampleOcclusion(t, doTransparency, UvOf(ToScreen(sampleNdc[i])), ToScreen(sampleNdc[i]).z)
    ensures AlphasInUnit(t) ==> InUnit(c.r) && InUnit(c.g) && InUnit(c.b) && InUnit(c.a)
  {
    Rgba(SlotOcclusion(t, doTransparency, sampleNdc[0]), SlotOcclusion(t, doTransparency, sampleNdc[1]),
         SlotOcclusion(t, doTransparency, sampleNdc[2]), SlotOcclusion(t, doTransparency, sampleNdc[3]))
  }

  function UvOf(s: Vec3): Uv { Uv(s.x, s.y) }

  /** `sampleClipSpace.xyz * 0.5 + 0.5`, then the rule, for one slot. */
  function SlotOcclusion(t: Textures, doTransparency: bool, ndc: Vec3): real {
    var s := ToScreen(ndc);
    SampleOcclusion(t, doTransparency, UvOf(s), s.z)
  }

  /** The whole coverage target: one texel per fragment, each with its own samples. */
  function CoverageTarget(t: Textures, doTransparency: bool, samples: seq<seq<Vec3>>): (texels: seq<Rgba>)
    requires forall k :: 0 <= k < |samples| ==> |samples[k]| == 4
    ensures |texels| == |samples|
  {
    seq(|samples|, k requires 0 <= k < |samples| => CoverageTexel(t, doTransparency, samples[k]))
  }

  /** The box-filtered top mip level of one channel. */
  function Mean(xs: seq<real>): real
    requires |xs| > 0
  {
    Sum(xs) / |xs| as real
  }

  lemma {:induction false} SumBounds(xs: seq<real>, lo: real, hi: real)
    requires forall k :: 0 <= k < |xs| ==> lo <= xs[k] <= hi
    ensures |xs| as real * lo <= Sum(xs) <= |xs| as real * hi
  {
    if |xs| > 0 {
      SumBounds(xs[1..], lo, hi);
    }
  }

  lemma {:induction false} SumMonotone(xs: seq<real>, ys: seq<real>)
    requires |xs| == |ys|
    requires forall k :: 0 <= k < |xs| ==> xs[k] <= ys[k]
    ensures Sum(xs) <= Sum(ys)
  {
    if |xs| > 0 {
      SumMonotone(xs[1..], ys[1..]);
    }
  }

  /** The mean of values in [lo, hi] lies in [lo, hi]. */
  lemma MeanBounds(xs: seq<real>, lo: real, hi: real)
    requires |xs| > 0
    requires forall k :: 0 <= k < |xs| ==> lo <= xs[k] <= hi
    ensures lo <= Mean(xs) <= hi
  {
    SumBounds(xs, lo, hi);
    var n := |xs| as real;
    assert n * lo <= Sum(xs) <= n * hi;
    assert lo == (n * lo) / n && hi == (n * hi) / n;
  }

  /** Raising samples never lowers the mean. */
  lemma MeanMonotone(xs: seq<real>, ys: seq<real>)
    requires |xs| == |ys| && |xs| > 0
    requires forall k :: 0 <= k < |xs| ==> xs[k] <= ys[k]
    ensures Mean(xs) <= Mean(ys)
  {
    SumMonotone(xs, ys);
  }

  /** Channel `i` of every texel. */
  function ChannelSamples(texels: seq<Rgba>, i: nat): (xs: seq<real>)
    requires i < 4
    ensures |xs| == |texels|
    ensures forall k :: 0 <= k < |texels| ==> xs[k] == Channel(texels[k], i)
  {
    seq(|texels|, k requires 0 <= k < |texels| => Channel(texels[k], i))
  }

  /** Channel `i` of every texel lies in [lo, hi]. */
  predicate ChannelWithin(texels: seq<Rgba>, i: nat, lo: real, hi: real)
    requires i < 4
  {
    forall k :: 0 <= k < |texels| ==> lo <= Channel(texels[k], i) <= hi
  }

  lemma ChannelMeanWithin(texels: seq<Rgba>)
    requires |texels| > 0
    ensures forall i, lo, hi :: 0 <= i < 4 && ChannelWithin(texels, i, lo, hi) ==>
      lo <= Mean(ChannelSamples(texels, i)) <= hi
  {
    forall i, lo, hi | 0 <= i < 4 && ChannelWithin(texels, i, lo, hi)
      ensures lo <= Mean(ChannelSamples(texels, i)) <= hi
    {
      MeanBounds(ChannelSamples(texels, i), lo, hi);
    }
  }

  /** `textureLod(coverageTexture, vec2(0.5), 1000.0)`: the top mip level, one
      box-filtered value per slot. Each slot reads within any bounds its
      samples keep to: a slot of occlusion fractions reads a fraction, all
      blocked reads 1 and all clear reads 0. */
  function Readout(texels: seq<Rgba>): (c: Rgba)
    requires |texels| > 0
    ensures forall i, lo, hi :: 0 <= i < 4 && ChannelWithin(texels, i, lo, hi) ==> lo <= Channel(c, i) <= hi
  {
    ChannelMeanWithin(texels);
    Rgba(Mean(ChannelSamples(texels, 0)), Mean(ChannelSamples(texels, 1)),
         Mean(ChannelSamples(texels, 2)), Mean(ChannelSamples(texels, 3)))
  }

  /** With captured alphas in [0, 1] every readout channel is an occlusion
      fraction in [0, 1]. */
  lemma ReadoutInUnit(t: Textures, doTransparency: bool, samples: seq<seq<Vec3>>, i: nat)
    requires |samples| > 0 && i < 4
    requires forall k :: 0 <= k < |samples| ==> |samples[k]| == 4
    requires AlphasInUnit(t)
    ensures InUnit(Channel(Readout(CoverageTarget(t, doTransparency, samples)), i))
  {
    var texels := CoverageTarget(t, doTransparency, samples);
    var xs := ChannelSamples(texels, i);
    forall k | 0 <= k < |xs|
      ensures 0.0 <= xs[k] <= 1.0
    {
      assert xs[k] == Channel(CoverageTexel(t, doTransparency, samples[k]), i);
    }
    MeanBounds(xs, 0.0, 1.0);
  }

  /** More blocked samples for a slot never lower that slot's readout. */
  lemma ReadoutMonotone(texels: seq<Rgba>, more: seq<Rgba>, i: nat)
    requires |texels| == |more| && |texels| > 0 && i < 4
    requires forall k :: 0 <= k < |texels| ==> Channel(texels[k], i) <= Channel(more[k], i)
    ensures Channel(Readout(texels), i) <= Channel(Readout(more), i)
  {
    MeanMonotone(ChannelSamples(texels, i), ChannelSamples(more, i));
  }

  /** Behind a depth-writing translucent surface of alpha `a` (and no more
      opaque non-depth-writing layer), every sample of slot `i` scores `a` with
      transparency on, and 1 with it off; so does the readout. */
  lemma TranslucentOccluderReadout(t: Textures, doTransparency: bool, samples: seq<seq<Vec3>>, i: nat, a: real)
    requires |samples| > 0 && i < 4
    requires forall k :: 0 <= k < |samples| ==> |samples[k]| == 4
    requires forall k :: 0 <= k < |samples| ==>
      var s := ToScreen(samples[k][i]);
      && SampleFails(t, UvOf(s), s.z)
      && t.dwTrueDepth(UvOf(s)) == t.opaqueDepth(UvOf(s))
      && t.dwTrueAlpha(UvOf(s)) == a
      && t.dwFalseAlpha(UvOf(s)) <= a
    ensures Channel(Readout(CoverageTarget(t, doTransparency, samples)), i) == if doTransparency then a else 1.0
  {
    var v := if doTransparency then a else 1.0;
    var texels := CoverageTarget(t, doTransparency, samples);
    var xs := ChannelSamples(texels, i);
    forall k | 0 <= k < |xs|
      ensures xs[k] == v
    {
      assert xs[k] == Channel(CoverageTexel(t, doTransparency, samples[k]), i);
    }
    MeanBounds(xs, v, v);
  }
}
