/**
 The flare record and the projector (class `Flare` of LensFlarePass.js).
 Camera projection (`Vector3.project`) is a parameter `ndcOf` mapping a
 world position to normalised device coordinates; only the remap of NDC
 into [0,1] that `project` applies afterwards is modelled.
 */
module Flares {
  import opened Common

  /** One light source: public parameters plus the derived `lensPosition`. */
  datatype Flare = Flare(
    enabled: bool,
    visible: bool,
    position: Vec3,
    lensPosition: Vec3,
    opacity: real,
    colorGain: Rgb,
    starPoints: real,
    glareSize: real,
    flareSize: real,
    flareSpeed: real,
    flareShape: real,
    haloScale: real,
    animated: bool,
    anamorphic: bool,
    secondaryGhosts: bool,
    starBurst: bool,
    ghostScale: real,
    additionalStreaks: bool)

  /** `new Flare()` with every constructor default; `visible` comes from Object3D and starts true. */
  const DefaultFlare: Flare := Flare(
    true, true, Vec3(0.0, 20.0, 0.0), Vec3(0.5, 0.5, 0.5), 0.8, Rgb(1.0, 0.1, 0.1),
    5.0, 0.55, 0.004, 0.4, 1.2, 0.5, true, false, true, true, 0.3, true)

  /** The test shared by the batch filter and the blocker scale rule. */
  predicate Active(f: Flare) {
    f.enabled && f.visible && f.opacity > 0.0
  }

  /** The placeholder used for padding passes the activity test itself, so
      only the shader's `numFlares` bound keeps it from being drawn. */
  lemma DummyFlareIsActive()
    ensures Active(DefaultFlare) && DefaultFlare.opacity == 0.8
  {
  }

  /** `multiplyScalar(0.5).addScalar(0.5)`: NDC into screen space. */
  function ToScreen(ndc: Vec3): (s: Vec3)
    ensures -1.0 <= ndc.z <= 1.0 <==> InUnit(s.z)
    ensures -1.0 <= ndc.x <= 1.0 && -1.0 <= ndc.y <= 1.0 <==> InUnit(s.x) && InUnit(s.y)
  {
    Vec3(ndc.x * 0.5 + 0.5, ndc.y * 0.5 + 0.5, ndc.z * 0.5 + 0.5)
  }

  /** The shaders' `lensPosition * 2.0 - 1.0`: screen space back to NDC. */
  function ToNdc(s: Vec3): (ndc: Vec3)
    ensures InUnit(s.z) <==> -1.0 <= ndc.z <= 1.0
  {
    Vec3(s.x * 2.0 - 1.0, s.y * 2.0 - 1.0, s.z * 2.0 - 1.0)
  }

  /** The shader's inverse undoes the projector's remap exactly, in both orders. */
  lemma RemapRoundTrip(ndc: Vec3, s: Vec3)
    ensures ToNdc(ToScreen(ndc)) == ndc
    ensures ToScreen(ToNdc(s)) == s
  {
  }

  /** `g` is `f` projected: only the screen position differs, and the
      shaders' inverse remap takes it to the camera's NDC of `f`'s world position. */
  predicate ProjectionOf(g: Flare, f: Flare, ndcOf: Vec3 -> Vec3) {
    ToNdc(g.lensPosition) == ndcOf(f.position) && g.(lensPosition := f.lensPosition) == f
  }

  /** `Flare.project`: only the derived screen position changes. */
  function Project(f: Flare, ndcOf: Vec3 -> Vec3): (g: Flare)
    ensures ProjectionOf(g, f, ndcOf)
    ensures Active(g) <==> Active(f)
  {
    RemapRoundTrip(ndcOf(f.position), f.lensPosition);
    f.(lensPosition := ToScreen(ndcOf(f.position)))
  }

  /** Projects every flare of a batch (`batch.forEach(flare => flare.project(camera))`):
      each flare keeps its place and is replaced by its projection. */
  function ProjectAll(fs: seq<Flare>, ndcOf: Vec3 -> Vec3): (gs: seq<Flare>)
    ensures |gs| == |fs|
    ensures forall i :: 0 <= i < |fs| ==> ProjectionOf(gs[i], fs[i], ndcOf)
  {
    seq(|fs|, i requires 0 <= i < |fs| => Project(fs[i], ndcOf))
  }

  /** Projecting a concatenation projects each part. */
  lemma ProjectAllAppend(a: seq<Flare>, b: seq<Flare>, ndcOf: Vec3 -> Vec3)
    ensures ProjectAll(a + b, ndcOf) == ProjectAll(a, ndcOf) + ProjectAll(b, ndcOf)
  {
  }
}
