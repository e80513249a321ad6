/**
 The parts of the three.js renderer and scene that the pass reads or
 overrides, as plain records. Drawing itself is not modelled: passes appear
 as events in a trace.
 */
module Host {
  import opened Common

  /** Identity of a scene-graph node (the key of the pass's `oldVisibility` map). */
  type ObjId = nat

  /** The two material flags the capture passes test. */
  datatype Material = Material(transparent: bool, depthWrite: bool)

  /** A scene node: its visibility, its material if it has one, and the
      application's `userData.treatAsOpaque` override (absent reads as false). */
  datatype Obj = Obj(visible: bool, material: Option<Material>, treatAsOpaque: bool)

  /** An opaque stand-in for whatever `scene.background` holds. */
  datatype Background = Backdrop(id: nat)

  /** The scene: its background (`null` is `None`) and every node reached by `traverse`. */
  datatype Scene = Scene(background: Option<Background>, objects: map<ObjId, Obj>)

  /** Render targets a pass can bind. */
  datatype Target =
    | DefaultTarget
    | FlareTarget
    | CoverageTarget
    | DWFalseTarget
    | DWTrueTarget
    | OutputTarget

  /** Renderer settings the pass reads and overrides. */
  datatype Renderer = Renderer(
    xrEnabled: bool,
    autoClear: bool,
    autoClearDepth: bool,
    clearColor: Rgb,
    clearAlpha: real,
    target: Target)

  /** Visibility of every node, the part of the scene the capture overrides. */
  function Visibility(scene: Scene): (vis: map<ObjId, bool>)
    ensures vis.Keys == scene.objects.Keys
  {
    map o | o in scene.objects :: scene.objects[o].visible
  }
}
