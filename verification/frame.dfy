/**
 One frame of the batched pass (`LensFlarePass.render`) and its resize
 (`setSize`). The frame is a trace of passes, each recorded with the
 uniforms it is drawn with and the renderer flags in force. The camera
 projection is the parameter `ndcOf`.
 */
module Frame {
  import opened Common
  import opened Host
  import opened Flares
  import opened Batching
  import Capture

  /** A draw the frame issues. */
  datatype Pass =
    | TransparencyCapture(steps: seq<Capture.Step>)
    | ClearFlareBuffer
    | CoveragePass(positions: seq<Vec3>, doTransparency: bool)
    | FlarePass(flareSlots: seq<Flare>, lensSlots: seq<Vec3>, numFlares: nat)
    | CompositePass(target: Target)

  /** A pass together with the renderer's XR and auto-clear flags when it is drawn. */
  datatype Event = Event(pass: Pass, xrEnabled: bool, autoClear: bool)

  /** The material uniform arrays; they keep their values from one batch,
      and one frame, to the next. */
  datatype Uniforms = Uniforms(coverageLens: seq<Vec3>, flares: seq<Flare>, flareLens: seq<Vec3>)

  predicate WellFormed(u: Uniforms) {
    |u.coverageLens| == BatchWidth && |u.flares| == BatchWidth && |u.flareLens| == BatchWidth
  }

  /** The uniforms a batch leaves behind. */
  function BatchUniforms(batch: seq<Flare>, ndcOf: Vec3 -> Vec3): (u: Uniforms)
    ensures WellFormed(u)
  {
    var projected := ProjectAll(batch, ndcOf);
    Uniforms(PaddedPositions(batch), PaddedFlares(projected), PaddedLens(projected))
  }

  /** The two passes one batch issues. */
  function BatchEvents(batch: seq<Flare>, ndcOf: Vec3 -> Vec3, doTransparency: bool, autoClear: bool): seq<Event>
  {
    var projected := ProjectAll(batch, ndcOf);
    [Event(CoveragePass(PaddedPositions(batch), doTransparency), false, autoClear),
     Event(FlarePass(PaddedFlares(projected), PaddedLens(projected), |batch|), false, false)]
  }

  /** One iteration of the batch loop: project, coverage pass, flare pass
      with auto-clear switched off for the draw and restored after. */
  method DrawBatch(r: Renderer, u: Uniforms, batch: seq<Flare>, ndcOf: Vec3 -> Vec3, doTransparency: bool)
    returns (r': Renderer, u': Uniforms, events: seq<Event>)
    requires WellFormed(u) && 1 <= |batch| <= BatchWidth
    requires !r.xrEnabled
    ensures r' == r.(target := FlareTarget)
    ensures WellFormed(u') && u' == BatchUniforms(batch, ndcOf)
    ensures |events| == 2
    // the coverage pass samples around the flares' world positions, padded with the origin
    ensures events[0] == Event(CoveragePass(PaddedPositions(batch), doTransparency), false, r.autoClear)
    // the flare pass sees the projected flares, padded with the dummy flare, and never clears
    ensures events[1] == Event(FlarePass(PaddedFlares(ProjectAll(batch, ndcOf)), PaddedLens(ProjectAll(batch, ndcOf)), |batch|), false, false)
    ensures events == BatchEvents(batch, ndcOf, doTransparency, r.autoClear)
  {
    var projected := ProjectAll(batch, ndcOf);
    var rr := r.(target := CoverageTarget);
    var coverageLens := CoverageUniforms(u.coverageLens, projected);
    assert coverageLens == PaddedPositions(batch);
    events := [Event(CoveragePass(coverageLens, doTransparency), rr.xrEnabled, rr.autoClear)];
    rr := rr.(target := FlareTarget);
    var oldAutoClear := rr.autoClear;
    rr := rr.(autoClear := false);
    var flareSlots, lensSlots, numFlares := FlareUniforms(u.flares, u.flareLens, projected);
    events := events + [Event(FlarePass(flareSlots, lensSlots, numFlares), rr.xrEnabled, rr.autoClear)];
    rr := rr.(autoClear := oldAutoClear);
    r', u' := rr, Uniforms(coverageLens, flareSlots, lensSlots);
  }

  /** `gs` is `fs` with every active flare projected in place and the others untouched. */
  predicate ProjectedInPlace(fs: seq<Flare>, gs: seq<Flare>, ndcOf: Vec3 -> Vec3) {
    |gs| == |fs| &&
    forall i :: 0 <= i < |fs| ==> gs[i] == if Active(fs[i]) then Project(fs[i], ndcOf) else fs[i]
  }

  /** Updating active flares in place, inactive ones untouched, filters to
      the projected filtered list. */
  lemma {:induction false} FilterProjectedActive(fs: seq<Flare>, gs: seq<Flare>, ndcOf: Vec3 -> Vec3)
    requires ProjectedInPlace(fs, gs, ndcOf)
    ensures Filter(gs) == ProjectAll(Filter(fs), ndcOf)
  {
    if |fs| > 0 {
      FilterProjectedActive(fs[1..], gs[1..], ndcOf);
      if Active(fs[0]) {
        assert ProjectAll(Filter(fs), ndcOf) == [Project(fs[0], ndcOf)] + ProjectAll(Filter(fs[1..]), ndcOf);
      }
    }
  }

  /** The flares each batch's passes project, batch by batch. */
  function ProjectBatches(bs: seq<seq<Flare>>, ndcOf: Vec3 -> Vec3): (ps: seq<seq<Flare>>)
    ensures |ps| == |bs|
  {
    seq(|bs|, k requires 0 <= k < |bs| => ProjectAll(bs[k], ndcOf))
  }

  lemma {:induction false} FlattenProjectBatches(bs: seq<seq<Flare>>, ndcOf: Vec3 -> Vec3)
    ensures Flatten(ProjectBatches(bs, ndcOf)) == ProjectAll(Flatten(bs), ndcOf)
  {
    if |bs| > 0 {
      assert ProjectBatches(bs, ndcOf)[1..] == ProjectBatches(bs[1..], ndcOf);
      FlattenProjectBatches(bs[1..], ndcOf);
      ProjectAllAppend(bs[0], Flatten(bs[1..]), ndcOf);
    }
  }

  /** The caller's list after the frame. The batches hold the list's own
      flare objects, so projecting a batch updates the list in place: the
      active flares, and only they, end projected, and filtering the
      updated list gives exactly the flares the passes drew. */
  method ProjectActive(flares: seq<Flare>, ndcOf: Vec3 -> Vec3) returns (flares': seq<Flare>)
    ensures ProjectedInPlace(flares, flares', ndcOf)
    ensures Filter(flares') == ProjectAll(Filter(flares), ndcOf)
  {
    flares' := [];
    var i := 0;
    while i < |flares|
      invariant i <= |flares| && |flares'| == i
      invariant forall j :: 0 <= j < i ==>
        flares'[j] == if Active(flares[j]) then Project(flares[j], ndcOf) else flares[j]
    {
      var f := flares[i];
      if f.enabled && f.visible && f.opacity > 0.0 {
        f := Project(f, ndcOf);
      }
      flares' := flares' + [f];
      i := i + 1;
    }
    FilterProjectedActive(flares, flares', ndcOf);
  }

  /** Position in the trace of the flare-buffer clear: after the capture, if any. */
  function Offset(doTransparency: bool): nat {
    if doTransparency then 1 else 0
  }

  /** The loop `for (i = 0; i < n; i += 4)` runs its `k`-th iteration exactly when `k < NumBatches(n)`. */
  lemma LoopBound(n: nat, k: nat)
    ensures BatchWidth * k < n <==> k < NumBatches(n)
  {
  }

  /** The events of a sequence of batches, drawn in order. */
  function BatchTrace(bs: seq<seq<Flare>>, ndcOf: Vec3 -> Vec3, doTransparency: bool, autoClear: bool): (t: seq<Event>)
    ensures |t| == 2 * |bs|
    ensures forall e :: e in t ==> !e.xrEnabled
  {
    if |bs| == 0 then []
    else BatchTrace(bs[..|bs| - 1], ndcOf, doTransparency, autoClear) + BatchEvents(bs[|bs| - 1], ndcOf, doTransparency, autoClear)
  }

  /** Batch `k`'s two events sit at positions `2k` and `2k + 1`. */
  lemma {:induction false} BatchTracePairs(bs: seq<seq<Flare>>, ndcOf: Vec3 -> Vec3, doTransparency: bool, autoClear: bool)
    ensures forall k :: 0 <= k < |bs| ==>
      BatchTrace(bs, ndcOf, doTransparency, autoClear)[2 * k .. 2 * k + 2] == BatchEvents(bs[k], ndcOf, doTransparency, autoClear)
  {
    if |bs| > 0 {
      var init := bs[..|bs| - 1];
      BatchTracePairs(init, ndcOf, doTransparency, autoClear);
      AppendPair(BatchTrace(init, ndcOf, doTransparency, autoClear), BatchEvents(bs[|bs| - 1], ndcOf, doTransparency, autoClear), |init|);
    }
  }

  /** Batch `k` is the window the loop's `k`-th iteration slices. */
  lemma BatchAt(s: seq<Flare>, k: nat)
    requires k < |Batches(s)|
    ensures BatchWidth * k < |s|
    ensures Batches(s)[k] == s[BatchWidth * k .. WindowEnd(|s|, BatchWidth * k)]
    ensures 1 <= |Batches(s)[k]| <= BatchWidth
  {
    BatchSizes(s);
  }

  lemma BatchTraceSnoc(bs: seq<seq<Flare>>, k: nat, ndcOf: Vec3 -> Vec3, doTransparency: bool, autoClear: bool)
    requires k < |bs|
    ensures BatchTrace(bs[..k + 1], ndcOf, doTransparency, autoClear)
      == BatchTrace(bs[..k], ndcOf, doTransparency, autoClear) + BatchEvents(bs[k], ndcOf, doTransparency, autoClear)
  {
    assert bs[..k + 1][..k] == bs[..k];
  }

  /** The body of the batch loop: slice window `k`, draw it, append its events. */
  method BatchStep(r: Renderer, u: Uniforms, toRender: seq<Flare>, ndcOf: Vec3 -> Vec3, doTransparency: bool,
                   i: nat, ghost k: nat, events: seq<Event>)
    returns (r': Renderer, u': Uniforms, events': seq<Event>)
    requires WellFormed(u)
    requires !r.xrEnabled && r.target == FlareTarget
    requires k < |Batches(toRender)| && i == BatchWidth * k
    requires events == BatchTrace(Batches(toRender)[..k], ndcOf, doTransparency, r.autoClear)
    ensures r' == r
    ensures WellFormed(u') && u' == BatchUniforms(Batches(toRender)[k], ndcOf)
    ensures events' == BatchTrace(Batches(toRender)[..k + 1], ndcOf, doTransparency, r.autoClear)
  {
    BatchAt(toRender, k);
    var batch := toRender[i .. WindowEnd(|toRender|, i)];
    var more;
    r', u', more := DrawBatch(r, u, batch, ndcOf, doTransparency);
    BatchTraceSnoc(Batches(toRender), k, ndcOf, doTransparency, r.autoClear);
    events' := events + more;
  }

  /** The uniforms after the first `k` batches. */
  function LastUniforms(u: Uniforms, bs: seq<seq<Flare>>, k: nat, ndcOf: Vec3 -> Vec3): Uniforms
    requires k <= |bs|
  {
    if k == 0 then u else BatchUniforms(bs[k - 1], ndcOf)
  }

  /** The batch loop of `render` over the filtered list `toRender`. */
  method DrawBatches(r: Renderer, u: Uniforms, toRender: seq<Flare>, ndcOf: Vec3 -> Vec3, doTransparency: bool)
    returns (r': Renderer, u': Uniforms, events: seq<Event>)
    requires WellFormed(u)
    requires !r.xrEnabled && r.target == FlareTarget
    ensures r' == r
    ensures WellFormed(u')
    ensures events == BatchTrace(Batches(toRender), ndcOf, doTransparency, r.autoClear)
    ensures |Batches(toRender)| == 0 ==> u' == u
    ensures |Batches(toRender)| > 0 ==> u' == BatchUniforms(Batches(toRender)[|Batches(toRender)| - 1], ndcOf)
  {
    ghost var bs := Batches(toRender);
    r', u' := r, u;
    events := [];
    var i := 0;
    ghost var k := 0;
    LoopBound(|toRender|, 0);
    while i < |toRender|
      invariant 0 <= k <= |bs| && i == BatchWidth * k
      invariant i < |toRender| <==> k < |bs|
      invariant r' == r
      invariant u' == LastUniforms(u, bs, k, ndcOf)
      invariant events == BatchTrace(bs[..k], ndcOf, doTransparency, r.autoClear)
      decreases |toRender| - i
    {
      r', u', events := BatchStep(r', u', toRender, ndcOf, doTransparency, i, k, events);
      LoopBound(|toRender|, k + 1);
      i := i + BatchWidth;
      k := k + 1;
    }
    assert bs[..k] == bs;
  }

  /** The start of `render` after XR is switched off: the optional
      transparency capture, then binding and clearing the flare buffer. */
  method Prologue(r: Renderer, scene: Scene, flares: seq<Flare>, doTransparency: bool, blocker: ObjId, blockers: seq<real>)
    returns (r': Renderer, scene': Scene, blockers': seq<real>, head: seq<Event>)
    requires !r.xrEnabled
    requires blocker in scene.objects && scene.objects[blocker].material == Some(Capture.BlockerMaterial)
    ensures r' == r.(target := FlareTarget)
    ensures scene' == scene
    ensures |head| == Offset(doTransparency) + 1
    ensures doTransparency ==> head[0].pass.TransparencyCapture? && |head[0].pass.steps| == 7
    ensures doTransparency ==> head[0].pass.steps[3] == Capture.DrawScene(DWFalseTarget, Capture.PassSet(scene.objects, false), None, false)
    ensures doTransparency ==> head[0].pass.steps[6] == Capture.DrawScene(DWTrueTarget, Capture.PassSet(scene.objects, true), None, false)
    ensures doTransparency ==> head[0].pass.steps[2] == Capture.DrawBlockers(DWFalseTarget, blockers')
    ensures doTransparency ==> Capture.ScaledFor(blockers, flares, blockers')
    ensures !doTransparency ==> blockers' == blockers
    ensures head[Offset(doTransparency)] == Event(ClearFlareBuffer, false, r.autoClear)
    ensures forall e :: e in head ==> !e.xrEnabled
  {
    r', scene', blockers' := r, scene, blockers;
    head := [];
    if doTransparency {
      var log;
      r', scene', blockers', log := Capture.RenderTransparency(r', scene, flares, blocker, blockers);
      head := [Event(TransparencyCapture(log), r'.xrEnabled, r'.autoClear)];
    }
    r' := r'.(target := FlareTarget);
    head := head + [Event(ClearFlareBuffer, r'.xrEnabled, r'.autoClear)];
  }

  /** `render`: optional transparency capture, clear of the flare buffer, two
      passes per batch of active flares (`BatchTracePairs` locates batch `k`),
      then the composite. */
  method Render(r: Renderer, scene: Scene, flares: seq<Flare>, u: Uniforms, doTransparency: bool,
                ndcOf: Vec3 -> Vec3, blocker: ObjId, blockers: seq<real>, renderToScreen: bool)
    returns (r': Renderer, scene': Scene, flares': seq<Flare>, u': Uniforms, blockers': seq<real>, trace: seq<Event>)
    requires WellFormed(u)
    requires blocker in scene.objects && scene.objects[blocker].material == Some(Capture.BlockerMaterial)
    // the frame leaves the renderer as it found it, bound to the output
    ensures r' == r.(target := if renderToScreen then DefaultTarget else OutputTarget)
    ensures scene' == scene
    ensures |flares'| == |flares|
    ensures forall i :: 0 <= i < |flares| ==>
      flares'[i] == if Active(flares[i]) then Project(flares[i], ndcOf) else flares[i]
    // the flares the batches projected and drew, in order, are the active flares of the updated list
    ensures Flatten(ProjectBatches(Batches(Filter(flares)), ndcOf)) == Filter(flares')
    ensures WellFormed(u')
    ensures |trace| == Offset(doTransparency) + 2 * NumBatches(|Filter(flares)|) + 2
    ensures doTransparency ==> trace[0].pass.TransparencyCapture? && |trace[0].pass.steps| == 7
    ensures doTransparency ==> trace[0].pass.steps[3] == Capture.DrawScene(DWFalseTarget, Capture.PassSet(scene.objects, false), None, false)
    ensures doTransparency ==> trace[0].pass.steps[6] == Capture.DrawScene(DWTrueTarget, Capture.PassSet(scene.objects, true), None, false)
    // the blocker instances the capture draws, kept from frame to frame
    ensures doTransparency ==> trace[0].pass.steps[2] == Capture.DrawBlockers(DWFalseTarget, blockers')
    ensures doTransparency ==> Capture.ScaledFor(blockers, flares, blockers')
    ensures !doTransparency ==> blockers' == blockers
    ensures trace[Offset(doTransparency)] == Event(ClearFlareBuffer, false, r.autoClear)
    ensures trace[Offset(doTransparency) + 1 .. |trace| - 1]
      == BatchTrace(Batches(Filter(flares)), ndcOf, doTransparency, r.autoClear)
    ensures trace[|trace| - 1] == Event(CompositePass(if renderToScreen then DefaultTarget else OutputTarget), false, r.autoClear)
    ensures forall e :: e in trace ==> !e.xrEnabled
    // the uniforms keep the last batch's values, or their old ones if nothing was drawn
    ensures |Batches(Filter(flares))| == 0 ==> u' == u
    ensures |Batches(Filter(flares))| > 0 ==>
      u' == BatchUniforms(Batches(Filter(flares))[|Batches(Filter(flares))| - 1], ndcOf)
  {
    var xrEnabled := r.xrEnabled;
    var rr := r.(xrEnabled := false);
    var head;
    rr, scene', blockers', head := Prologue(rr, scene, flares, doTransparency, blocker, blockers);
    var flaresToRender := Filter(flares);
    var events;
    rr, u', events := DrawBatches(rr, u, flaresToRender, ndcOf, doTransparency);
    flares' := ProjectActive(flares, ndcOf);
    BatchesPartition(flaresToRender);
    FlattenProjectBatches(Batches(flaresToRender), ndcOf);
    var output := if renderToScreen then DefaultTarget else OutputTarget;
    rr := rr.(target := output);
    trace := head + events + [Event(CompositePass(output), rr.xrEnabled, rr.autoClear)];
    assert trace[|head| .. |trace| - 1] == events;
    rr := rr.(xrEnabled := xrEnabled);
    r' := rr;
  }

  /** Sizes of the pass's render targets. */
  datatype Targets = Targets(flareWidth: real, flareHeight: real,
                             dwFalseWidth: real, dwFalseHeight: real,
                             dwTrueWidth: real, dwTrueHeight: real)

  /** `setSize`: the flare buffer at half the output size, both transparency
      targets at full size. */
  function SetSize(width: real, height: real): (t: Targets) {
    Targets(width / 2.0, height / 2.0, width, height, width, height)
  }

  /** The `texelSize` uniform the composite reads from the flare buffer's size. */
  function TexelSizeOf(t: Targets): (ts: (real, real, real, real))
    requires t.flareWidth > 0.0 && t.flareHeight > 0.0
    ensures ts.0 * ts.2 == 1.0 && ts.1 * ts.3 == 1.0
  {
    (1.0 / t.flareWidth, 1.0 / t.flareHeight, t.flareWidth, t.flareHeight)
  }

  /** After a resize, one flare-buffer texel spans two output pixels in each
      direction, and the transparency targets match the output pixel for pixel. */
  lemma ResizeHalvesFlareBuffer(width: real, height: real)
    requires width > 0.0 && height > 0.0
    ensures var t := SetSize(width, height);
      t.flareWidth > 0.0 && t.flareHeight > 0.0 &&
      TexelSizeOf(t).0 * width == 2.0 && TexelSizeOf(t).1 * height == 2.0 &&
      t.dwFalseWidth == t.dwTrueWidth == 2.0 * t.flareWidth &&
      t.dwFalseHeight == t.dwTrueHeight == 2.0 * t.flareHeight
  {
  }
}
