/**
 The legacy single-flare pipeline (LensFlareOld.js). Every flare in the
 list is projected and drawn with a coverage pass and a flare pass of its
 own; coverage is a binary screen-space test; the flare shader adds a
 behind-camera discard; and its output is neither clamped nor weighted by
 opacity. Its `Flare` has no `visible` field, so the shared record's
 `visible` is simply never read here. The compositor is the batched pass's
 bicubic upsampler, unchanged.
 */
module Legacy {
  import opened Common
  import opened Host
  import opened Flares
  import Batching
  import Occlusion
  import Frame

  /** Number of extra streak circles the flare shader tries. */
  const StreakCount: nat := 10

  /** A draw the legacy frame issues. */
  datatype Draw =
    | ClearBuffer
    | CoverageDraw(lensPosition: Vec3)
    | FlareDraw(flare: Flare, lensPosition: Vec3)
    | CompositeDraw(target: Target)

  /** A pass with the renderer's XR and auto-clear flags when it is drawn. */
  datatype DrawEvent = DrawEvent(draw: Draw, xrEnabled: bool, autoClear: bool)

  /** The two passes one flare issues, after it has been projected. */
  function FlareEvents(f: Flare, ndcOf: Vec3 -> Vec3, autoClear: bool): seq<DrawEvent> {
    var g := Project(f, ndcOf);
    [DrawEvent(CoverageDraw(g.lensPosition), false, autoClear), DrawEvent(FlareDraw(g, g.lensPosition), false, false)]
  }

  /** The events of a list of flares, in list order. */
  function FlareTrace(fs: seq<Flare>, ndcOf: Vec3 -> Vec3, autoClear: bool): (t: seq<DrawEvent>)
    ensures |t| == 2 * |fs|
    ensures forall e :: e in t ==> !e.xrEnabled
  {
    if |fs| == 0 then []
    else FlareTrace(fs[..|fs| - 1], ndcOf, autoClear) + FlareEvents(fs[|fs| - 1], ndcOf, autoClear)
  }

  /** Flare `k`'s coverage and flare passes sit at positions `2k` and `2k + 1`. */
  lemma {:induction false} FlareTracePairs(fs: seq<Flare>, ndcOf: Vec3 -> Vec3, autoClear: bool)
    ensures forall k :: 0 <= k < |fs| ==>
      FlareTrace(fs, ndcOf, autoClear)[2 * k .. 2 * k + 2] == FlareEvents(fs[k], ndcOf, autoClear)
  {
    if |fs| > 0 {
      var init := fs[..|fs| - 1];
      FlareTracePairs(init, ndcOf, autoClear);
      AppendPair(FlareTrace(init, ndcOf, autoClear), FlareEvents(fs[|fs| - 1], ndcOf, autoClear), |init|);
    }
  }

  lemma FlareTraceSnoc(fs: seq<Flare>, i: nat, ndcOf: Vec3 -> Vec3, autoClear: bool)
    requires i < |fs|
    ensures FlareTrace(fs[..i + 1], ndcOf, autoClear) == FlareTrace(fs[..i], ndcOf, autoClear) + FlareEvents(fs[i], ndcOf, autoClear)
  {
    assert fs[..i + 1][..i] == fs[..i];
  }

  /** One iteration of the per-flare loop. */
  method DrawFlare(r: Renderer, f: Flare, ndcOf: Vec3 -> Vec3) returns (r': Renderer, g: Flare, events: seq<DrawEvent>)
    requires !r.xrEnabled
    ensures r' == r.(target := FlareTarget)
    ensures g == Project(f, ndcOf)
    ensures events == FlareEvents(f, ndcOf, r.autoClear)
  {
    g := Project(f, ndcOf);
    var rr := r.(target := CoverageTarget);
    events := [DrawEvent(CoverageDraw(g.lensPosition), rr.xrEnabled, rr.autoClear)];
    rr := rr.(target := FlareTarget);
    var oldAutoClear := rr.autoClear;
    rr := rr.(autoClear := false);
    events := events + [DrawEvent(FlareDraw(g, g.lensPosition), rr.xrEnabled, rr.autoClear)];
    rr := rr.(autoClear := oldAutoClear);
    r' := rr;
  }

  /** The per-flare loop: project each flare and draw its two passes. */
  method DrawFlares(r: Renderer, flares: seq<Flare>, ndcOf: Vec3 -> Vec3)
    returns (r': Renderer, flares': seq<Flare>, events: seq<DrawEvent>)
    requires !r.xrEnabled && r.target == FlareTarget
    ensures r' == r
    ensures flares' == ProjectAll(flares, ndcOf)
    ensures events == FlareTrace(flares, ndcOf, r.autoClear)
  {
    r' := r;
    events := [];
    flares' := [];
    var i := 0;
    while i < |flares|
      invariant i <= |flares|
      invariant r' == r
      invariant flares' == ProjectAll(flares[..i], ndcOf)
      invariant events == FlareTrace(flares[..i], ndcOf, r.autoClear)
    {
      var g, more;
      r', g, more := DrawFlare(r', flares[i], ndcOf);
      FlareTraceSnoc(flares, i, ndcOf, r.autoClear);
      events := events + more;
      flares' := flares' + [g];
      i := i + 1;
    }
    assert flares[..i] == flares;
  }

  /** The legacy `render`: clear the flare buffer, then for every flare in
      list order a coverage and a flare pass, then the composite. */
  method RenderLegacy(r: Renderer, flares: seq<Flare>, ndcOf: Vec3 -> Vec3, renderToScreen: bool)
    returns (r': Renderer, flares': seq<Flare>, trace: seq<DrawEvent>)
    ensures r' == r.(target := if renderToScreen then DefaultTarget else OutputTarget)
    ensures flares' == ProjectAll(flares, ndcOf)
    ensures |trace| == 2 * |flares| + 2
    ensures trace[0] == DrawEvent(ClearBuffer, false, r.autoClear)
    ensures trace[1 .. |trace| - 1] == FlareTrace(flares, ndcOf, r.autoClear)
    ensures trace[|trace| - 1] == DrawEvent(CompositeDraw(if renderToScreen then DefaultTarget else OutputTarget), false, r.autoClear)
  {
    var xrEnabled := r.xrEnabled;
    var rr := r.(xrEnabled := false, target := FlareTarget);
    var head := [DrawEvent(ClearBuffer, rr.xrEnabled, rr.autoClear)];
    var events;
    rr, flares', events := DrawFlares(rr, flares, ndcOf);
    var output := if renderToScreen then DefaultTarget else OutputTarget;
    rr := rr.(target := output);
    var tail := [DrawEvent(CompositeDraw(output), rr.xrEnabled, rr.autoClear)];
    trace := head + events + tail;
    assert trace[1 .. |trace| - 1] == events;
    rr := rr.(xrEnabled := xrEnabled);
    r' := rr;
  }

  /** Unlike the batched pass, the legacy pass draws a disabled, invisible or
      transparent flare all the same. */
  lemma InactiveFlareStillDrawn(f: Flare, ndcOf: Vec3 -> Vec3, autoClear: bool)
    requires !Active(f)
    ensures Batching.Filter([f]) == []
    ensures FlareTrace([f], ndcOf, autoClear)[1].draw == FlareDraw(Project(f, ndcOf), Project(f, ndcOf).lensPosition)
  {
    assert [f][..0] == [];
  }

  /** The coverage fragment: all four channels 1 when the sample left the
      screen or the stored depth there is nearer than the flare, else 0. */
  function CoverageSample(depth: Uv -> real, lens: Vec3, sampleUv: Uv): (c: Rgba)
    ensures c.g == c.r && c.b == c.r && c.a == c.r
    ensures c.r == 0.0 || c.r == 1.0
  {
    if depth(sampleUv) < lens.z || OutsideUnitSquare(sampleUv) then Rgba(1.0, 1.0, 1.0, 1.0) else Transparent
  }

  /** The legacy test is the batched rule with transparency off, applied at
      the flare's own screen depth instead of a reprojected sample depth. */
  lemma CoverageMatchesBatchedRule(t: Occlusion.Textures, lens: Vec3, sampleUv: Uv)
    ensures CoverageSample(t.opaqueDepth, lens, sampleUv).r == Occlusion.SampleOcclusion(t, false, sampleUv, lens.z)
    ensures CoverageSample(t.opaqueDepth, lens, sampleUv).r == 1.0 <==> Occlusion.SampleFails(t, sampleUv, lens.z)
  {
  }

  /** `lensPosition.xy + coverageRadius * sqrt(rand) * (cos, sin)`: `root`
      stands for `sqrt` of the hash and `cosine`, `sine` for the trigonometry. */
  function SampleUv(lens: Vec3, radius: real, root: real, cosine: real, sine: real): Uv {
    Uv(lens.x + radius * (root * cosine), lens.y + radius * (root * sine))
  }

  /** With the hash in [0, 1), the sample lies within the coverage radius of
      the flare's screen position: its squared distance is `radius² · rand`. */
  lemma SampleWithinRadius(lens: Vec3, radius: real, rnd: real, root: real, cosine: real, sine: real)
    requires 0.0 <= rnd < 1.0 && root >= 0.0 && root * root == rnd
    requires cosine * cosine + sine * sine == 1.0 && radius >= 0.0
    ensures var uv := SampleUv(lens, radius, root, cosine, sine);
      (uv.u - lens.x) * (uv.u - lens.x) + (uv.v - lens.y) * (uv.v - lens.y) == radius * radius * rnd
    ensures var uv := SampleUv(lens, radius, root, cosine, sine);
      (uv.u - lens.x) * (uv.u - lens.x) + (uv.v - lens.y) * (uv.v - lens.y) <= radius * radius
  {
    var uv := SampleUv(lens, radius, root, cosine, sine);
    var du, dv := radius * (root * cosine), radius * (root * sine);
    assert uv.u - lens.x == du && uv.v - lens.y == dv;
    calc {
      du * du + dv * dv;
      (radius * radius) * (root * root) * (cosine * cosine + sine * sine);
      radius * radius * rnd;
    }
    var rr := radius * radius;
    ProductNonNegative(radius, radius);
    ProductNonNegative(rr, 1.0 - rnd);
    assert rr * rnd == rr - rr * (1.0 - rnd);
  }

  /** The sign test behind `dot(cameraDirection, normalize(p - cameraPos)) < 0`.
      Normalising is a positive scaling, which keeps the sign; a zero vector
      normalises to NaN, and a comparison with NaN is false. */
  predicate BehindCamera(cameraDirection: Vec3, cameraPos: Vec3, p: Vec3) {
    Sub3(p, cameraPos) != Origin && Dot(cameraDirection, Sub3(p, cameraPos)) < 0.0
  }

  /** The discard as written: the depth test on the screen position, and the
      behind-camera test applied to the screen-space `lensPosition` as if it
      were a world position. */
  predicate DiscardAsWritten(lens: Vec3, cameraPos: Vec3, cameraDirection: Vec3) {
    OutsideDepthRange(lens) || BehindCamera(cameraDirection, cameraPos, lens)
  }

  /** The discard as evidently intended: the behind-camera test on the
      flare's world position. */
  predicate Discard(position: Vec3, lens: Vec3, cameraPos: Vec3, cameraDirection: Vec3) {
    OutsideDepthRange(lens) || BehindCamera(cameraDirection, cameraPos, position)
  }

  /** `lensPositionNDC.z > 1. || lensPositionNDC.z < -1.` */
  predicate OutsideDepthRange(lens: Vec3) {
    var ndc := ToNdc(lens);
    ndc.z > 1.0 || ndc.z < -1.0
  }

  /** The depth test fails exactly when the screen depth leaves [0, 1]. */
  lemma DepthRangeIsUnit(lens: Vec3)
    ensures OutsideDepthRange(lens) <==> !InUnit(lens.z)
  {
  }

  /** Along the x axis the dot product is the x component. */
  lemma DotAlongX(v: Vec3)
    ensures Dot(Vec3(1.0, 0.0, 0.0), v) == v.x
  {
  }

  /** Any on-screen position lies behind a camera at (5, 0, 0) looking down +x,
      when read as a world position. */
  lemma ScreenPositionBehindCamera(lens: Vec3)
    requires InUnit(lens.x)
    ensures BehindCamera(Vec3(1.0, 0.0, 0.0), Vec3(5.0, 0.0, 0.0), lens)
  {
    var d := Sub3(lens, Vec3(5.0, 0.0, 0.0));
    DotAlongX(d);
    assert d.x <= -4.0;
  }

  /** The point (10, 0, 0) is in front of that camera. */
  lemma AheadOfCamera()
    ensures !BehindCamera(Vec3(1.0, 0.0, 0.0), Vec3(5.0, 0.0, 0.0), Vec3(10.0, 0.0, 0.0))
  {
    DotAlongX(Sub3(Vec3(10.0, 0.0, 0.0), Vec3(5.0, 0.0, 0.0)));
  }

  /** A camera at (5, 0, 0) looking down +x, a flare ten units out on the
      axis, straight ahead: whatever on-screen position the projection gives
      it, the as-written test discards it, and the world-space test keeps it. */
  lemma BehindCameraTestMixesSpaces(lens: Vec3)
    requires InUnit(lens.x) && InUnit(lens.z)
    ensures DiscardAsWritten(lens, Vec3(5.0, 0.0, 0.0), Vec3(1.0, 0.0, 0.0))
    ensures !Discard(Vec3(10.0, 0.0, 0.0), lens, Vec3(5.0, 0.0, 0.0), Vec3(1.0, 0.0, 0.0))
  {
    ScreenPositionBehindCamera(lens);
    AheadOfCamera();
    DepthRangeIsUnit(lens);
  }

  /** The world-space test depends only on where the flare is relative to the
      camera: moving both by the same amount changes nothing. */
  lemma DiscardTranslationInvariant(position: Vec3, lens: Vec3, cameraPos: Vec3, cameraDirection: Vec3, shift: Vec3)
    ensures Discard(Add3(position, shift), lens, Add3(cameraPos, shift), cameraDirection)
        == Discard(position, lens, cameraPos, cameraDirection)
  {
    assert Sub3(Add3(position, shift), Add3(cameraPos, shift)) == Sub3(position, cameraPos);
  }

  /** What circle `i` adds at a pixel at signed distance `sd` from it: only
      inside the circle, `(1 - exp(sd)) * circColor * 100`. */
  function StreakTerm(sd: real, circColor: Rgb, exp: real -> real): Rgb {
    if sd < 0.0 then ScaleRgb(circColor, (1.0 - exp(sd)) * 100.0) else Black
  }

  /** The sum of the first `n` circles' terms. */
  function Streaks(sds: seq<real>, n: nat, circColor: Rgb, exp: real -> real): Rgb
    requires n <= |sds|
  {
    if n == 0 then Black else AddRgb(Streaks(sds, n - 1, circColor, exp), StreakTerm(sds[n - 1], circColor, exp))
  }

  /** The streak loop: `sds[i]` is `sdCircle` of circle `i` at this pixel, and
      `exp` the exponential. */
  method AddStreaks(finalColor: Rgb, sds: seq<real>, circColor: Rgb, exp: real -> real) returns (out: Rgb)
    requires |sds| == StreakCount
    ensures out == AddRgb(finalColor, Streaks(sds, StreakCount, circColor, exp))
  {
    out := finalColor;
    var i := 0;
    while i < StreakCount
      invariant i <= StreakCount
      invariant out == AddRgb(finalColor, Streaks(sds, i, circColor, exp))
    {
      var sd := sds[i];
      if sd < 0.0 {
        out := AddRgb(out, ScaleRgb(circColor, (1.0 - exp(sd)) * 100.0));
      }
      i := i + 1;
    }
  }

  lemma StreakTermNonNegative(sd: real, circColor: Rgb, exp: real -> real)
    requires RgbWithin(circColor, 0.0, 1.0)
    requires forall x :: x < 0.0 ==> 0.0 < exp(x) < 1.0
    ensures RgbWithin(StreakTerm(sd, circColor, exp), 0.0, 100.0)
  {
    if sd < 0.0 {
      var k := (1.0 - exp(sd)) * 100.0;
      assert 0.0 <= k <= 100.0;
      assert circColor.r * k <= 1.0 * k && circColor.g * k <= 1.0 * k && circColor.b * k <= 1.0 * k;
    }
  }

  /** With colours in [0, 1] and `exp` below 1 on negatives, the streaks only
      brighten, by at most 100 per circle. */
  lemma {:induction false} StreaksBounded(sds: seq<real>, n: nat, circColor: Rgb, exp: real -> real)
    requires n <= |sds|
    requires RgbWithin(circColor, 0.0, 1.0)
    requires forall x :: x < 0.0 ==> 0.0 < exp(x) < 1.0
    ensures RgbWithin(Streaks(sds, n, circColor, exp), 0.0, 100.0 * n as real)
  {
    if n > 0 {
      StreaksBounded(sds, n - 1, circColor, exp);
      StreakTermNonNegative(sds[n - 1], circColor, exp);
    }
  }

  /** A pixel outside every circle gets no streak light. */
  lemma {:induction false} NoCircleNoStreak(sds: seq<real>, n: nat, circColor: Rgb, exp: real -> real)
    requires n <= |sds|
    requires forall i :: 0 <= i < n ==> sds[i] >= 0.0
    ensures Streaks(sds, n, circColor, exp) == Black
  {
    if n > 0 {
      NoCircleNoStreak(sds, n - 1, circColor, exp);
    }
  }

  /** The flare fragment: `finalColor` is the procedural colour (streaks and
      ghosts included), `discard` the outcome of the discard test and
      `readout` the coverage target's top mip, of which only `.r` is read.
      Alpha is the first component of `mix(finalColor, -0.15, 0.5)`. */
  function Fragment(finalColor: Rgb, discard: bool, readout: Rgba): (c: Rgba)
    ensures readout.r == 1.0 ==> RgbOf(c) == Black
    ensures discard ==> RgbOf(c) == Black && c.a == -0.075
    ensures !discard && readout.r == 0.0 ==> RgbOf(c) == finalColor
  {
    var fc := if discard then Black else finalColor;
    Rgba(fc.r * (1.0 - readout.r), fc.g * (1.0 - readout.r), fc.b * (1.0 - readout.r), Mix(fc.r, -0.15, 0.5))
  }

  /** The flare fragment with the world-space discard: `f` is the projected
      flare and `finalColor` its procedural colour at this pixel. */
  function FlareFragment(f: Flare, finalColor: Rgb, cameraPos: Vec3, cameraDirection: Vec3, readout: Rgba): (c: Rgba)
    ensures BehindCamera(cameraDirection, cameraPos, f.position) ==> RgbOf(c) == Black
    ensures !InUnit(f.lensPosition.z) ==> RgbOf(c) == Black
    ensures InUnit(f.lensPosition.z) && !BehindCamera(cameraDirection, cameraPos, f.position) ==>
      RgbOf(c) == ScaleRgb(finalColor, 1.0 - readout.r)
  {
    DepthRangeIsUnit(f.lensPosition);
    var discard := Discard(f.position, f.lensPosition, cameraPos, cameraDirection);
    assert !discard ==> RgbOf(Fragment(finalColor, discard, readout)) == ScaleRgb(finalColor, 1.0 - readout.r);
    Fragment(finalColor, discard, readout)
  }

  /** The legacy fragment is not bounded by the flare's opacity: an
      unoccluded colour of 2 comes out as 2, where the batched shader clamps
      to [0, 1] and scales by opacity. */
  lemma FragmentUnclamped()
    ensures Fragment(Rgb(2.0, 2.0, 2.0), false, Transparent).r == 2.0
  {
  }

  /** `setSize` of the legacy pass resizes only the flare buffer, to the same
      half resolution as the batched pass. */
  function SetSize(width: real, height: real): (size: (real, real))
    ensures size.0 == Frame.SetSize(width, height).flareWidth
    ensures size.1 == Frame.SetSize(width, height).flareHeight
  {
    (width / 2.0, height / 2.0)
  }
}
