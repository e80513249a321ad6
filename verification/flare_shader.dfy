/**
 The flare shader of the batched pass: for each of the first `numFlares`
 slots it reads that slot's occlusion channel, skips a fully occluded
 flare, blanks a flare outside the depth range, and adds the clamped,
 occlusion- and opacity-weighted colour. The procedural colour itself
 (`LensFlare`, streaks, ghosts, times the intensity and `colorGain`) is an
 uninterpreted `Field`.
 */
module FlareShader {
  import opened Common
  import opened Flares
  import opened Batching

  /** The procedural colour of a flare at the current pixel, given its slot's
      screen position, before the depth discard. */
  type Field = (Flare, Vec3) -> Rgb

  lemma UnitTimesNonNegative(x: real, k: real)
    requires InUnit(x)
    ensures k >= 0.0 ==> 0.0 <= x * k <= k
  {
    if k >= 0.0 {
      assert x * k <= 1.0 * k;
    }
  }

  /** One channel of `clamp(rgb * (1 - occ) * a, 0, 1) * opacity`. */
  function WeightChannel(x: real, occ: real, alpha: real, opacity: real): (y: real)
    ensures x == 0.0 ==> y == 0.0
    ensures opacity >= 0.0 ==> 0.0 <= y <= opacity
  {
    var clamped := Clamp(x * (1.0 - occ) * alpha, 0.0, 1.0);
    UnitTimesNonNegative(clamped, opacity);
    clamped * opacity
  }

  /** The colour a drawn slot adds: `alpha` is the first component of
      `mix(finalColor, -0.15, 0.5)`. */
  function Weighted(finalColor: Rgb, occ: real, opacity: real): (c: Rgb)
    ensures finalColor == Black ==> c == Black
    ensures opacity >= 0.0 ==> RgbWithin(c, 0.0, opacity)
  {
    var alpha := Mix(finalColor.r, -0.15, 0.5);
    Rgb(WeightChannel(finalColor.r, occ, alpha, opacity),
        WeightChannel(finalColor.g, occ, alpha, opacity),
        WeightChannel(finalColor.b, occ, alpha, opacity))
  }

  /** What slot `i` adds to the pixel, given its occlusion readout `occ`. */
  function SlotContribution(f: Flare, lens: Vec3, occ: real, field: Field): (c: Rgb)
    ensures occ >= 1.0 ==> c == Black
    ensures !InUnit(lens.z) ==> c == Black
    ensures f.opacity >= 0.0 ==> RgbWithin(c, 0.0, f.opacity)
  {
    if occ < 1.0 then
      var ndc := ToNdc(lens);
      Weighted(if ndc.z > 1.0 || ndc.z < -1.0 then Black else field(f, lens), occ, f.opacity)
    else
      Black
  }

  /** Sum of the opacities of the first `n` slots. */
  function OpacitySum(slots: seq<Flare>, n: nat): real
    requires n <= |slots|
  {
    if n == 0 then 0.0 else OpacitySum(slots, n - 1) + slots[n - 1].opacity
  }

  /** The colour the first `n` slots add, in slot order. */
  function Accumulated(flareSlots: seq<Flare>, lensSlots: seq<Vec3>, readout: Rgba, n: nat, field: Field): (c: Rgb)
    requires |flareSlots| == BatchWidth && |lensSlots| == BatchWidth && n <= BatchWidth
    ensures (forall j :: 0 <= j < n ==> flareSlots[j].opacity >= 0.0) ==>
      RgbWithin(c, 0.0, OpacitySum(flareSlots, n))
  {
    if n == 0 then Black
    else
      AddRgb(Accumulated(flareSlots, lensSlots, readout, n - 1, field),
             SlotContribution(flareSlots[n - 1], lensSlots[n - 1], Channel(readout, n - 1), field))
  }

  /** One loop iteration after the readout: skip a fully occluded slot, else
      blank it outside the depth range and add its weighted colour. */
  method AddSlot(out: Rgba, f: Flare, lens: Vec3, occluded: real, field: Field) returns (out': Rgba)
    ensures RgbOf(out') == AddRgb(RgbOf(out), SlotContribution(f, lens, occluded, field))
    ensures out'.a == out.a
  {
    out' := out;
    if occluded < 1.0 {
      var finalColor := field(f, lens);
      var lensPositionNdc := ToNdc(lens);
      if lensPositionNdc.z > 1.0 || lensPositionNdc.z < -1.0 {
        finalColor := Black;
      }
      var add := Weighted(finalColor, occluded, f.opacity);
      out' := out'.(r := out'.r + add.r, g := out'.g + add.g, b := out'.b + add.b);
    }
  }

  /** The shader's `main` as written: `gl_FragColor.rgb` is added to without
      ever being written first, so its starting value `init` is whatever the
      output register holds; alpha is forced to 1 after the loop. */
  method ShadePixel(init: Rgba, readout: Rgba, flareSlots: seq<Flare>, lensSlots: seq<Vec3>, numFlares: nat, field: Field)
    returns (out: Rgba)
    requires |flareSlots| == BatchWidth && |lensSlots| == BatchWidth && numFlares <= BatchWidth
    ensures RgbOf(out) == AddRgb(RgbOf(init), Accumulated(flareSlots, lensSlots, readout, numFlares, field))
    ensures out.a == 1.0
  {
    out := init;
    var i := 0;
    while i < numFlares
      invariant i <= numFlares
      invariant RgbOf(out) == AddRgb(RgbOf(init), Accumulated(flareSlots, lensSlots, readout, i, field))
    {
      var occluded;
      if i == 0 {
        occluded := readout.r;
      } else if i == 1 {
        occluded := readout.g;
      } else if i == 2 {
        occluded := readout.b;
      } else {
        occluded := readout.a;
      }
      assert occluded == Channel(readout, i);
      out := AddSlot(out, flareSlots[i], lensSlots[i], occluded, field);
      i := i + 1;
    }
    out := out.(a := 1.0);
  }

  /** Slots from `n` on are never read: whatever padding they hold, the
      colour is the same. */
  lemma {:induction false} PaddingNeverDrawn(
    flares1: seq<Flare>, lens1: seq<Vec3>, flares2: seq<Flare>, lens2: seq<Vec3>, readout: Rgba, n: nat, field: Field)
    requires |flares1| == BatchWidth && |lens1| == BatchWidth && |flares2| == BatchWidth && |lens2| == BatchWidth
    requires n <= BatchWidth
    requires forall j :: 0 <= j < n ==> flares1[j] == flares2[j] && lens1[j] == lens2[j]
    ensures Accumulated(flares1, lens1, readout, n, field) == Accumulated(flares2, lens2, readout, n, field)
  {
    if n > 0 {
      PaddingNeverDrawn(flares1, lens1, flares2, lens2, readout, n - 1, field);
    }
  }

  /** If every drawn slot reads as fully occluded, nothing is added. */
  lemma {:induction false} FullyOccludedAddsNothing(flareSlots: seq<Flare>, lensSlots: seq<Vec3>, readout: Rgba, n: nat, field: Field)
    requires |flareSlots| == BatchWidth && |lensSlots| == BatchWidth && n <= BatchWidth
    requires forall j :: 0 <= j < n ==> Channel(readout, j) >= 1.0
    ensures Accumulated(flareSlots, lensSlots, readout, n, field) == Black
  {
    if n > 0 {
      FullyOccludedAddsNothing(flareSlots, lensSlots, readout, n - 1, field);
      assert Channel(readout, n - 1) >= 1.0;
      assert SlotContribution(flareSlots[n - 1], lensSlots[n - 1], Channel(readout, n - 1), field) == Black;
    }
  }

  lemma OccludedSlotsAddNothing(flareSlots: seq<Flare>, lensSlots: seq<Vec3>, readout: Rgba, n: nat, field: Field)
    requires |flareSlots| == BatchWidth && |lensSlots| == BatchWidth && n <= BatchWidth
    ensures (forall j :: 0 <= j < n ==> Channel(readout, j) >= 1.0) ==>
      Accumulated(flareSlots, lensSlots, readout, n, field) == Black
  {
    if forall j :: 0 <= j < n ==> Channel(readout, j) >= 1.0 {
      FullyOccludedAddsNothing(flareSlots, lensSlots, readout, n, field);
    }
  }

  /** The fragment with the output starting from zero, the value the
      accumulation evidently assumes. */
  function FragmentColor(flareSlots: seq<Flare>, lensSlots: seq<Vec3>, readout: Rgba, numFlares: nat, field: Field): (c: Rgba)
    requires |flareSlots| == BatchWidth && |lensSlots| == BatchWidth && numFlares <= BatchWidth
    ensures c.a == 1.0
    ensures (forall j :: 0 <= j < numFlares ==> flareSlots[j].opacity >= 0.0) ==>
      RgbWithin(RgbOf(c), 0.0, OpacitySum(flareSlots, numFlares))
    ensures (forall j :: 0 <= j < numFlares ==> Channel(readout, j) >= 1.0) ==> RgbOf(c) == Black
  {
    OccludedSlotsAddNothing(flareSlots, lensSlots, readout, numFlares, field);
    var acc := Accumulated(flareSlots, lensSlots, readout, numFlares, field);
    Rgba(acc.r, acc.g, acc.b, 1.0)
  }

  /** Whatever the output register holds on entry survives into the
      fragment: with every slot fully occluded the as-written shader emits
      that garbage, where a zero start would emit black. */
  lemma UninitialisedOutputLeaks(init: Rgba, flareSlots: seq<Flare>, lensSlots: seq<Vec3>, readout: Rgba, n: nat, field: Field)
    requires |flareSlots| == BatchWidth && |lensSlots| == BatchWidth && n <= BatchWidth
    requires forall j :: 0 <= j < n ==> Channel(readout, j) >= 1.0
    requires RgbOf(init) != Black
    ensures AddRgb(RgbOf(init), Accumulated(flareSlots, lensSlots, readout, n, field))
      != RgbOf(FragmentColor(flareSlots, lensSlots, readout, n, field))
  {
    FullyOccludedAddsNothing(flareSlots, lensSlots, readout, n, field);
  }

  /** A batch's fragment depends only on its own flares: the dummy padding
      is cut off by `numFlares = batch.length`. */
  lemma BatchFragmentIgnoresPadding(batch: seq<Flare>, flareSlots: seq<Flare>, lensSlots: seq<Vec3>, readout: Rgba, field: Field)
    requires 1 <= |batch| <= BatchWidth
    requires |flareSlots| == BatchWidth && |lensSlots| == BatchWidth
    requires forall j :: 0 <= j < |batch| ==> flareSlots[j] == batch[j] && lensSlots[j] == batch[j].lensPosition
    ensures FragmentColor(PaddedFlares(batch), PaddedLens(batch), readout, |batch|, field)
         == FragmentColor(flareSlots, lensSlots, readout, |batch|, field)
  {
    PaddingNeverDrawn(PaddedFlares(batch), PaddedLens(batch), flareSlots, lensSlots, readout, |batch|, field);
  }

  /** The padding is not inert on its own: drawn unoccluded at the zero
      screen position with a white field, the dummy flare adds 0.34 per channel. */
  lemma DummyFlareWouldDraw()
    ensures SlotContribution(DefaultFlare, Origin, 0.0, (f: Flare, l: Vec3) => Rgb(1.0, 1.0, 1.0)).r == 0.34
  {
  }
}
