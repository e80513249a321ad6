/**
 Transparency capture (`LensFlarePass.renderTransparency`): two renders of
 the scene's translucent nodes into the DWFalse and DWTrue targets, with the
 renderer and scene state overridden for the duration and restored after.
 */
module Capture {
  import opened Common
  import opened Host
  import opened Flares
  import Batching

  /** One thing the capture does to the GPU, with the state it runs under. */
  datatype Step =
    | Clear(target: Target, color: Rgb, alpha: real)
    | DepthCopy(target: Target)
    | DrawBlockers(target: Target, scales: seq<real>)
    | DrawScene(target: Target, shown: set<ObjId>, background: Option<Background>, autoClearDepth: bool)

  /** The material of the flare blocker mesh: a `MeshBasicMaterial` with `depthWrite: true`. */
  const BlockerMaterial: Material := Material(false, true)

  /** Whether a node is shown in the capture pass for depth-writing (`dw`) or
      non-depth-writing translucent materials, given its visibility on entry.
      Nodes without a material keep their visibility. */
  predicate ShownInPass(o: Obj, dw: bool) {
    match o.material
    case None => o.visible
    case Some(m) => o.visible && m.transparent && m.depthWrite == dw && !o.treatAsOpaque
  }

  /** The traversal that sets each node's visibility for one capture pass. */
  function OverrideVisibility(objects: map<ObjId, Obj>, saved: map<ObjId, bool>, dw: bool): (r: map<ObjId, Obj>)
    requires objects.Keys <= saved.Keys
    ensures r.Keys == objects.Keys
    ensures forall o :: o in r ==> r[o].(visible := objects[o].visible) == objects[o]
  {
    map o | o in objects ::
      var ob := objects[o];
      match ob.material
      case None => ob
      case Some(m) => ob.(visible := saved[o] && m.transparent && m.depthWrite == dw && !ob.treatAsOpaque)
  }

  /** The traversal that writes back every saved visibility flag. */
  function RestoreVisibility(objects: map<ObjId, Obj>, saved: map<ObjId, bool>): (r: map<ObjId, Obj>)
    requires objects.Keys <= saved.Keys
    ensures r.Keys == objects.Keys
    ensures forall o :: o in r ==> r[o].visible == saved[o]
    ensures forall o :: o in r ==> r[o].(visible := objects[o].visible) == objects[o]
  {
    map o | o in objects :: objects[o].(visible := saved[o])
  }

  /** The nodes whose own `visible` flag is set. The scene is flat here, so a
      hidden parent does not hide its subtree as it does in three.js. */
  function ShownSet(objects: map<ObjId, Obj>): set<ObjId> {
    set o | o in objects && objects[o].visible
  }

  /** The nodes a capture pass should draw. */
  function PassSet(objects: map<ObjId, Obj>, dw: bool): set<ObjId> {
    set o | o in objects && ShownInPass(objects[o], dw)
  }

  /** A pass's override, applied to the saved visibility, shows exactly the
      nodes `ShownInPass` selects. */
  lemma OverrideShows(objects: map<ObjId, Obj>, dw: bool)
    ensures ShownSet(OverrideVisibility(objects, Visibility(Scene(None, objects)), dw)) == PassSet(objects, dw)
  {
  }

  /** No node with a material is drawn by both capture passes. */
  lemma PassesDisjoint(objects: map<ObjId, Obj>)
    ensures forall o :: o in PassSet(objects, false) && o in PassSet(objects, true) ==> objects[o].material.None?
  {
  }

  /** Pass B's override ignores what pass A's override did. */
  lemma OverrideTwice(objects: map<ObjId, Obj>, saved: map<ObjId, bool>, dw1: bool, dw2: bool)
    requires objects.Keys <= saved.Keys
    requires forall o :: o in objects ==> objects[o].visible == saved[o]
    ensures OverrideVisibility(OverrideVisibility(objects, saved, dw1), saved, dw2) == OverrideVisibility(objects, saved, dw2)
  {
  }

  /** Writing back the saved flags undoes any change of visibility alone. */
  lemma RestoreUndoes(objects: map<ObjId, Obj>, changed: map<ObjId, Obj>, saved: map<ObjId, bool>)
    requires changed.Keys == objects.Keys && objects.Keys <= saved.Keys
    requires forall o :: o in objects ==> objects[o].visible == saved[o]
    requires forall o :: o in changed ==> changed[o].(visible := objects[o].visible) == objects[o]
    ensures RestoreVisibility(changed, saved) == objects
  {
  }

  /** The scale the blocker loop gives flare `f`'s instance: 1 for a flare the
      batcher would draw, 0 otherwise. */
  function ScaleFor(f: Flare): real {
    if Active(f) then 1.0 else 0.0
  }

  /** The blocker loop over the instance scales. The instanced mesh's count is
      fixed when the pass is built from the flare list of that time, so
      `instances` may be shorter or longer than the current list: writing an
      instance past the count changes nothing, and instances past the list
      keep the scale an earlier frame gave them. */
  method BlockerScales(instances: seq<real>, flares: seq<Flare>) returns (scales: seq<real>)
    ensures |scales| == |instances|
    ensures forall i :: 0 <= i < |flares| && i < |instances| ==> (scales[i] == 1.0 <==> Active(flares[i]))
    ensures forall i :: 0 <= i < |flares| && i < |instances| ==> (scales[i] == 0.0 <==> !Active(flares[i]))
    ensures forall i :: |flares| <= i < |instances| ==> scales[i] == instances[i]
  {
    scales := instances;
    var i := 0;
    while i < |flares|
      invariant i <= |flares| && |scales| == |instances|
      invariant forall k :: 0 <= k < i && k < |instances| ==> scales[k] == ScaleFor(flares[k])
      invariant forall k :: i <= k < |instances| ==> scales[k] == instances[k]
    {
      var s := if flares[i].enabled && flares[i].visible && flares[i].opacity > 0.0 then 1.0 else 0.0;
      if i < |scales| {
        scales := scales[i := s];
      }
      i := i + 1;
    }
  }

  /** The instance scales after the blocker loop, given those before it. */
  predicate ScaledFor(instances: seq<real>, flares: seq<Flare>, scales: seq<real>) {
    && |scales| == |instances|
    && (forall i :: 0 <= i < |flares| && i < |instances| ==> scales[i] == ScaleFor(flares[i]))
    && (forall i :: |flares| <= i < |instances| ==> scales[i] == instances[i])
  }

  /** With one instance per flare, the blockers shown at full size are exactly
      as many as the flares the batcher keeps. */
  lemma {:induction false} BlockerCountMatchesFilter(flares: seq<Flare>, scales: seq<real>)
    requires |scales| == |flares|
    requires forall i :: 0 <= i < |flares| ==> scales[i] == ScaleFor(flares[i])
    ensures Sum(scales) == |Batching.Filter(flares)| as real
  {
    if |flares| > 0 {
      BlockerCountMatchesFilter(flares[1..], scales[1..]);
    }
  }

  /** For any instance count: the instances the current list reaches count its
      kept flares among those it covers, and the rest keep their old scales. */
  lemma BlockerCount(instances: seq<real>, flares: seq<Flare>, scales: seq<real>)
    requires |scales| == |instances|
    requires forall i :: 0 <= i < |flares| && i < |instances| ==> scales[i] == ScaleFor(flares[i])
    requires forall i :: |flares| <= i < |instances| ==> scales[i] == instances[i]
    ensures var m := if |flares| <= |instances| then |flares| else |instances|;
      Sum(scales) == |Batching.Filter(flares[..m])| as real + Sum(instances[m..])
  {
    var m := if |flares| <= |instances| then |flares| else |instances|;
    assert scales == scales[..m] + instances[m..];
    SumAppend(scales[..m], instances[m..]);
    BlockerCountMatchesFilter(flares[..m], scales[..m]);
  }

  /** After the list shrinks, a stale full-size instance past its end is still
      drawn, so the capture holds more blockers than the batcher draws flares. */
  lemma ShrunkListKeepsStaleBlockers(instances: seq<real>, flares: seq<Flare>, scales: seq<real>)
    requires |flares| < |instances| && |scales| == |instances|
    requires forall i :: 0 <= i < |flares| ==> scales[i] == ScaleFor(flares[i])
    requires forall i :: |flares| <= i < |instances| ==> scales[i] == instances[i]
    requires forall i :: |flares| <= i < |instances| ==> instances[i] >= 0.0
    requires instances[|flares|] == 1.0
    ensures Sum(scales) > |Batching.Filter(flares)| as real
  {
    BlockerCount(instances, flares, scales);
    var rest := instances[|flares|..];
    assert rest == [1.0] + rest[1..];
    SumNonNegative(rest[1..]);
    assert flares[..|flares|] == flares;
  }

  /** After the list grows, flares past the instance count get no blocker:
      only the first `|instances|` flares are counted. */
  lemma GrownListDropsBlockers(instances: seq<real>, flares: seq<Flare>, scales: seq<real>)
    requires |instances| <= |flares| && |scales| == |instances|
    requires forall i :: 0 <= i < |instances| ==> scales[i] == ScaleFor(flares[i])
    ensures Sum(scales) == |Batching.Filter(flares[..|instances|])| as real
  {
    BlockerCountMatchesFilter(flares[..|instances|], scales);
  }

  /** The first capture pass, into the DWFalse target: the blockers (shown
      only for their own draw), then the non-depth-writing translucent nodes. */
  method PassWithoutDepthWrite(rr: Renderer, objects: map<ObjId, Obj>, flares: seq<Flare>, blocker: ObjId, instances: seq<real>)
    returns (objects': map<ObjId, Obj>, instances': seq<real>, steps: seq<Step>)
    requires rr.target == DWFalseTarget
    requires blocker in objects && objects[blocker].material == Some(BlockerMaterial)
    ensures objects' == OverrideVisibility(objects, Visibility(Scene(None, objects)), false)
    ensures |steps| == 4
    ensures steps[0] == Clear(DWFalseTarget, rr.clearColor, rr.clearAlpha) && steps[1] == DepthCopy(DWFalseTarget)
    ensures steps[2] == DrawBlockers(DWFalseTarget, instances') && ScaledFor(instances, flares, instances')
    ensures steps[3] == DrawScene(DWFalseTarget, PassSet(objects, false), None, rr.autoClearDepth)
  {
    var saved := Visibility(Scene(None, objects));
    var passA := OverrideVisibility(objects, saved, false);
    assert !passA[blocker].visible;
    instances' := BlockerScales(instances, flares);
    var withBlockers := passA[blocker := passA[blocker].(visible := true)];
    objects' := withBlockers[blocker := withBlockers[blocker].(visible := false)];
    assert objects' == passA;
    OverrideShows(objects, false);
    steps := [Clear(rr.target, rr.clearColor, rr.clearAlpha), DepthCopy(rr.target),
              DrawBlockers(rr.target, instances'), DrawScene(rr.target, ShownSet(objects'), None, rr.autoClearDepth)];
  }

  /** `renderTransparency`: save, override, draw both passes, restore.
      The blocker node is the instanced mesh the constructor adds to the scene,
      and `instances` the scales its instances hold on entry. */
  method RenderTransparency(r: Renderer, scene: Scene, flares: seq<Flare>, blocker: ObjId, instances: seq<real>)
    returns (r': Renderer, scene': Scene, instances': seq<real>, log: seq<Step>)
    requires blocker in scene.objects && scene.objects[blocker].material == Some(BlockerMaterial)
    // everything overridden is back to its value on entry; only the bound target differs
    ensures scene' == scene
    ensures r' == r.(target := DWTrueTarget)
    ensures |log| == 7
    // pass A: non-depth-writing translucent nodes, preceded by the blockers, into DWFalse
    ensures log[0] == Clear(DWFalseTarget, Black, 0.0) && log[1] == DepthCopy(DWFalseTarget)
    // every instance is drawn: those the list reaches scaled by their flare, the rest stale
    ensures log[2] == DrawBlockers(DWFalseTarget, instances')
    ensures |instances'| == |instances|
    ensures forall i :: 0 <= i < |flares| && i < |instances| ==> (instances'[i] == 1.0 <==> Active(flares[i]))
    ensures forall i :: 0 <= i < |flares| && i < |instances| ==> (instances'[i] == 0.0 <==> !Active(flares[i]))
    ensures forall i :: |flares| <= i < |instances| ==> instances'[i] == instances[i]
    ensures log[3] == DrawScene(DWFalseTarget, PassSet(scene.objects, false), None, false)
    // pass B: depth-writing translucent nodes into DWTrue
    ensures log[4] == Clear(DWTrueTarget, Black, 0.0) && log[5] == DepthCopy(DWTrueTarget)
    ensures log[6] == DrawScene(DWTrueTarget, PassSet(scene.objects, true), None, false)
  {
    // save
    var oldBackground := scene.background;
    var oldClearColor, oldClearAlpha := r.clearColor, r.clearAlpha;
    var oldVisibility := Visibility(scene);
    var oldAutoClearDepth := r.autoClearDepth;

    // override
    var sc := scene.(background := None);
    var rr := r.(autoClearDepth := false, clearColor := Black, clearAlpha := 0.0);

    // pass A
    rr := rr.(target := DWFalseTarget);
    var passA, stepsA;
    passA, instances', stepsA := PassWithoutDepthWrite(rr, scene.objects, flares, blocker, instances);
    sc := sc.(objects := passA);

    // pass B
    rr := rr.(target := DWTrueTarget);
    OverrideTwice(scene.objects, oldVisibility, false, true);
    sc := sc.(objects := OverrideVisibility(sc.objects, oldVisibility, true));
    OverrideShows(scene.objects, true);
    log := stepsA + [Clear(rr.target, rr.clearColor, rr.clearAlpha), DepthCopy(rr.target),
                     DrawScene(rr.target, ShownSet(sc.objects), sc.background, rr.autoClearDepth)];

    // restore
    RestoreUndoes(scene.objects, sc.objects, oldVisibility);
    sc := sc.(objects := RestoreVisibility(sc.objects, oldVisibility));
    rr := rr.(clearColor := oldClearColor, clearAlpha := oldClearAlpha);
    sc := sc.(background := oldBackground);
    rr := rr.(autoClearDepth := oldAutoClearDepth);
    r', scene' := rr, sc;
  }
}
