# Lens-flare post-process: a verified model

This project models the orchestration and shader decision logic of a
screen-space lens-flare post-process for three.js. It covers two versions of
the pass.

The batched `LensFlarePass` (LensFlarePass.js) does the following each frame:

- It optionally captures the scene's translucent geometry into two auxiliary
  targets: DWFalse holds non-depth-writing translucent nodes and DWTrue holds
  depth-writing ones.
- It keeps the flares that are enabled, visible and of positive opacity, and
  slices them into batches of at most four.
- For each batch it runs a coverage pass, which writes one occlusion sample
  per RGBA channel into a 32 x 32 target whose top mip averages the samples.
- It then runs a flare pass, which adds each unoccluded flare's clamped,
  opacity-weighted colour into a half-resolution flare buffer.
- Finally it composites that buffer onto the scene with a cubic B-spline
  upsampler.

The legacy single-flare pass (LensFlareOld.js) draws every flare with no
filter. Its coverage is binary, its discard adds a behind-camera test, and
its output is neither clamped nor weighted by opacity. Its compositor
(LensFlareOld.js:86-153) is the same code as the batched one, so the
`Compositor` module covers both.

Modules:

- `Common`: vectors, colours and GLSL helpers.
- `Flares`: the flare record and the screen-space remap.
- `Batching`: the filter, the windows of four and the uniform padding.
- `Occlusion`: the coverage shader's rule and the mip readout.
- `FlareShader`: the batched accumulation.
- `Host`: the renderer and scene state the pass touches.
- `Capture`: `renderTransparency`.
- `Frame`: `render` as a trace of passes, and `setSize`.
- `Compositor`: the bicubic upsampler and composite.
- `Legacy`: LensFlareOld.js.

Some things are parameters rather than modelled code:

- The camera projection is a function `ndcOf` from world position to
  normalised device coordinates.
- Textures are functions from coordinates to values.
- The procedural flare colour (glare, star, ghosts, hexagons) is an
  uninterpreted function of the flare and its screen position.
- The hash, `sqrt`, `exp` and the trigonometry become parameters or sample
  positions supplied by the caller.
- Shader arithmetic is over `real`.

Some behaviours of the code are easy to misread:

- A failing sample with transparency on scores 1 when the captured depth
  differs from the frame depth, and the captured alpha when they are equal
  (LensFlarePass.js:263-271); see `Occlusion.SampleOcclusion` and
  `Occlusion.SeededDepthScoresOne`.
- The padding flare is `new Flare()` with opacity 0.8, which passes the
  activity test (LensFlarePass.js:9, 208). The coverage padding slot is the
  world origin, so its channel is not forced to 1 (LensFlarePass.js:747).
  Padding is suppressed only by `numFlares` (LensFlarePass.js:562, 769); see
  `Flares.DummyFlareIsActive`, `FlareShader.DummyFlareWouldDraw` and
  `FlareShader.PaddingNeverDrawn`.
- The blocker discs are drawn into DWFalse, between the depth copy and the
  non-depth-writing scene render (LensFlarePass.js:651-680); see
  `Capture.PassWithoutDepthWrite`.
- The flare pass clamps `rgb * (1 - occ) * a` to [0, 1] and then multiplies
  by opacity (LensFlarePass.js:611), so each contribution lies in
  [0, opacity]; see `FlareShader.WeightChannel`.
- The blocker mesh's instance count is fixed when the pass is built
  (LensFlarePass.js:204), and `setFlares` (LensFlarePass.js:703-705) does not
  change it. After the list shrinks, stale instances are still drawn; after
  it grows, the extra flares get no blocker. See `Capture.BlockerCount`,
  `Capture.ShrunkListKeepsStaleBlockers` and `Capture.GrownListDropsBlockers`.

## Model

| member | source | states |
|---|---|---|
| Flares.DummyFlareIsActive | LensFlarePass.js:7-9 | The default flare, which the pass also uses as padding, is enabled with opacity 0.8, so the activity filter would keep it. |
| Flares.ToScreen | LensFlarePass.js:44 | NDC in [-1, 1] maps into [0, 1], both directions of the iff: depth on its own, and x and y together. |
| Flares.ToNdc | LensFlarePass.js:579 | The shader's inverse remap: screen depth in [0, 1] iff NDC depth in [-1, 1]. |
| Flares.RemapRoundTrip | LensFlarePass.js:43-45 | The projector's remap and the shader's inverse undo each other exactly, in both orders. |
| Flares.Project | LensFlarePass.js:43-45 | Projecting stores a screen position whose inverse remap is the camera's NDC of the world position; no other field changes, and activity is unaffected. |
| Flares.ProjectAll | LensFlarePass.js:738 | Every flare of the batch keeps its place and is replaced by its projection: all fields but the screen position (activity included) are unchanged, and that position maps back under the shader's inverse remap to the camera's NDC of the flare's world position. |
| Batching.Filter | LensFlarePass.js:735 | The filtered list is no longer than the registry and every survivor is enabled, visible and has opacity > 0. |
| Batching.FilterMembership | LensFlarePass.js:735 | A flare is in the filtered list iff it is in the registry and active. |
| Batching.FilterAppend | LensFlarePass.js:735 | Filtering distributes over concatenation, so registry order is kept. |
| Batching.FilterProjectCommute | LensFlarePass.js:735-738 | Projecting then filtering equals filtering then projecting. |
| Batching.BatchesFrom | LensFlarePass.js:736-737 | The loop from index i yields ceil((n - i) / 4) windows; window k starts at i + 4k and stops at i + 4k + 4 or the end of the list. |
| Batching.BatchSizes | LensFlarePass.js:736-737 | Every batch holds 1 to 4 flares, and every batch but the last holds exactly 4. |
| Batching.BatchesPartition | LensFlarePass.js:736-737 | The batches, concatenated, give back the filtered list in order. |
| Batching.TenActiveFlares | LensFlarePass.js:735-737 | Ten active flares make three batches of sizes 4, 4 and 2. |
| Batching.CoverageUniforms | LensFlarePass.js:742-749 | Whatever the previous batch left in the array, slot j ends as flare j's world position, or the zero vector past the batch's end. |
| Batching.FlareUniforms | LensFlarePass.js:759-769 | Slot j ends as flare j and its screen position, or the dummy flare and zero past the batch's end. `numFlares` is the batch length. |
| Occlusion.SampleChannelAsWritten | LensFlarePass.js:250-274 | The per-channel rule with the uninitialised start value as a parameter. A passing sample reports that value, max'ed with the DWFalse alpha under transparency. With transparency on, the result is never below the DWFalse alpha. |
| Occlusion.SampleOcclusion | LensFlarePass.js:263-271 | Starting from 0: with captured alphas in [0, 1] the score is in [0, 1]. Without transparency the score is 1 iff the sample fails (UV off screen or opaque depth nearer) and 0 iff it passes. With transparency it is at least the DWFalse alpha. A failing sample whose DWTrue depth equals the opaque depth scores max(DWTrue alpha, DWFalse alpha), and one whose DWTrue depth differs from the opaque depth scores 1. |
| Occlusion.SeededDepthScoresOne | LensFlarePass.js:263-266 | Where the depth copy's seed (frame depth plus 0.00001) survived in DWTrue, a blocked sample scores full occlusion. |
| Occlusion.UninitialisedSampleLeaks | LensFlarePass.js:250 | With transparency off, a non-zero start value makes an unblocked sample differ from the zero-start rule. |
| Occlusion.ViewOffsetWithinRadius | LensFlarePass.js:252-257 | With the hash in [0, 1) and a unit direction, the view-space sample offset lies within the coverage radius. |
| Occlusion.CoverageTexel | LensFlarePass.js:253-274 | Channel i of a coverage texel is slot i's rule at its remapped sample position and depth, and lies in [0, 1] when the alphas do. |
| Occlusion.MeanBounds | LensFlarePass.js:62-68 | The top mip, as a box mean of samples in [lo, hi], lies in [lo, hi]. |
| Occlusion.Readout | LensFlarePass.js:565-573 | Each slot reads within any bounds all its samples keep to. So a slot of occlusion fractions reads a fraction in [0, 1], a slot blocked at every texel reads exactly 1, and one clear at every texel reads exactly 0. |
| Occlusion.ReadoutInUnit | LensFlarePass.js:565-573 | With captured alphas in [0, 1], every readout channel is an occlusion fraction in [0, 1]. |
| Occlusion.ReadoutMonotone | LensFlarePass.js:565-573 | Raising a slot's samples never lowers its readout. |
| Occlusion.TranslucentOccluderReadout | LensFlarePass.js:263-271 | Behind a depth-writing translucent surface of alpha a, slot i reads a with transparency on and 1 with it off. |
| FlareShader.WeightChannel | LensFlarePass.js:611 | One channel of `clamp(x * (1 - occ) * a, 0, 1) * opacity` is 0 when x is 0, and lies in [0, opacity] for a non-negative opacity. |
| FlareShader.Weighted | LensFlarePass.js:610-611 | A black field adds black; otherwise every channel lies in [0, opacity]. |
| FlareShader.SlotContribution | LensFlarePass.js:575-611 | A slot with readout >= 1 adds nothing. A slot whose screen depth is outside [0, 1] adds nothing. Any other slot adds at most its opacity per channel. |
| FlareShader.Accumulated | LensFlarePass.js:562-611 | With non-negative opacities, the first n slots together add between 0 and the sum of their opacities per channel. |
| FlareShader.AddSlot | LensFlarePass.js:575-612 | One iteration adds exactly the slot's contribution to rgb and leaves alpha alone. |
| FlareShader.ShadePixel | LensFlarePass.js:558-616 | The shader as written, including the if-chain that picks slot i's readout channel: the output is the unwritten initial register plus the first `numFlares` slot contributions, each from its own channel, and alpha is 1. |
| FlareShader.PaddingNeverDrawn | LensFlarePass.js:562 | Slots from `numFlares` on are never read: two slot arrays that agree below n give the same colour. |
| FlareShader.FullyOccludedAddsNothing | LensFlarePass.js:575 | If every drawn slot reads fully occluded, nothing is added. |
| FlareShader.FragmentColor | LensFlarePass.js:562-615 | The fragment from a zero start has alpha 1, rgb within [0, sum of opacities], and black rgb when every drawn slot is fully occluded. |
| FlareShader.UninitialisedOutputLeaks | LensFlarePass.js:611 | With every slot occluded, a non-black initial register makes the as-written output differ from the zero-start fragment. |
| FlareShader.BatchFragmentIgnoresPadding | LensFlarePass.js:763-769 | A batch's fragment depends only on its own flares, whatever fills the padding slots. |
| FlareShader.DummyFlareWouldDraw | LensFlarePass.js:208 | The dummy flare is not inert: unoccluded at screen position zero with a white field, it would add 0.34 per channel. |
| Capture.OverrideVisibility | LensFlarePass.js:652-656 | The traversal changes only `visible` and keeps the node set. |
| Capture.RestoreVisibility | LensFlarePass.js:696-698 | Restoring sets every node's `visible` to its saved value and changes nothing else. |
| Capture.OverrideShows | LensFlarePass.js:652-656 | After a pass's override, the visible nodes are exactly those with a material that were visible, transparent, had the pass's depth-write flag and were not treated as opaque, plus the visible nodes without a material. |
| Capture.PassesDisjoint | LensFlarePass.js:686-690 | No node with a material is shown in both capture passes. |
| Capture.OverrideTwice | LensFlarePass.js:686-690 | Pass B's override does not depend on pass A's, because both read the saved visibility. |
| Capture.RestoreUndoes | LensFlarePass.js:696-698 | Writing back the saved flags undoes any change of visibility alone. |
| Capture.BlockerScales | LensFlarePass.js:662-674 | The instance count does not change. Instance i below both the count and the list length has scale 1 iff flare i passes the batch filter's test, and 0 iff it does not. Instances past the list keep their old scale. |
| Capture.BlockerCountMatchesFilter | LensFlarePass.js:662-674 | With one instance per flare, as at construction, the full-size blockers are exactly as many as the flares the batcher keeps. |
| Capture.BlockerCount | LensFlarePass.js:662-674 | For any instance count, the summed scales are the kept flares among those the instances reach plus the stale scales past the list. |
| Capture.ShrunkListKeepsStaleBlockers | LensFlarePass.js:662-674 | After the list shrinks, a stale full-size instance makes the blocker count exceed the number of kept flares. |
| Capture.GrownListDropsBlockers | LensFlarePass.js:662-674 | After the list grows, only flares below the instance count get a blocker. |
| Capture.PassWithoutDepthWrite | LensFlarePass.js:650-680 | Pass A clears DWFalse, copies depth, draws every blocker instance with the loop's scales, then draws exactly the non-depth-writing translucent nodes with the background off. |
| Capture.RenderTransparency | LensFlarePass.js:633-702 | The capture issues pass A (every blocker instance, scaled by its flare's activity where the list reaches it and stale beyond), then pass B (clear, depth copy, the depth-writing translucent nodes) into DWTrue. On exit the scene (visibility, background), clear colour and alpha, and `autoClearDepth` are back to their entry values; only the bound target differs. |
| Frame.DrawBatch | LensFlarePass.js:737-774 | One batch issues a coverage pass with the padded world positions under the caller's auto-clear, then a flare pass with the padded projected flares, `numFlares` = batch length and auto-clear off. Auto-clear is restored after, and the uniforms hold the batch's values. |
| Frame.ProjectActive | LensFlarePass.js:735-738 | The caller's list after the frame keeps its length, has exactly its active flares projected, and filters to the projected filtered list, so the flares drawn are the active flares of the updated list. |
| Frame.FilterProjectedActive | LensFlarePass.js:735-738 | Projecting the active flares of a list in place, leaving the others, then filtering, equals projecting the filtered list. |
| Frame.FlattenProjectBatches | LensFlarePass.js:736-738 | Projecting batch by batch and concatenating equals projecting the concatenation. |
| Frame.LoopBound | LensFlarePass.js:736 | The loop's k-th iteration runs iff k < ceil(n / 4). |
| Frame.BatchTrace | LensFlarePass.js:736-775 | The batch loop issues two events per batch, none with XR enabled. |
| Frame.BatchTracePairs | LensFlarePass.js:736-775 | Batch k's coverage pass and flare pass sit at positions 2k and 2k + 1, so each coverage pass directly precedes its flare pass. |
| Frame.BatchAt | LensFlarePass.js:736-737 | Batch k is the slice the loop's k-th iteration takes, and holds 1 to 4 flares. |
| Frame.BatchStep | LensFlarePass.js:736-775 | One loop iteration appends batch k's two events to the trace of batches 0..k-1 and leaves the batch's uniforms. |
| Frame.DrawBatches | LensFlarePass.js:735-775 | The loop issues the trace of all batches of the filtered list in order. The renderer is unchanged afterwards. The uniforms hold the last batch's values, or their old ones if there was no batch. |
| Frame.Prologue | LensFlarePass.js:710-714 | The optional capture, with its blocker draw and two scene draws, comes first, then the flare-buffer clear, all with XR off; without the capture the blocker instances are untouched. |
| Frame.Render | LensFlarePass.js:706-785 | A frame issues the optional capture, the clear, two passes per batch of active flares in registry order (ceil(N/4) batches), then one composite to the screen or output buffer. No pass runs with XR on. On return the renderer's XR flag and auto-clear are restored, the scene is restored, only active flares are projected, and the flares the batches projected, concatenated, are exactly the active flares of the updated list. |
| Frame.TexelSizeOf | LensFlarePass.js:782 | The `texelSize` uniform pairs each reciprocal with the size it inverts. |
| Frame.ResizeHalvesFlareBuffer | LensFlarePass.js:626-632 | After a resize, one flare-buffer texel spans two output pixels, and both transparency targets are full size. |
| Compositor.PartitionOfUnity | LensFlarePass.js:120-149 | The four B-spline weights sum to 1, and so do the two amplitudes. |
| Compositor.WeightsNonNegative | LensFlarePass.js:120-138 | On [0, 1] every weight is non-negative, and w1 and w2 are at least 1/6. |
| Compositor.AmplitudesPositive | LensFlarePass.js:141-149 | On [0, 1] both amplitudes, the denominators of h0 and h1, are positive. |
| Compositor.H0 | LensFlarePass.js:152-155 | The first offset lies in [-1, 0]. |
| Compositor.H1 | LensFlarePass.js:157-160 | The second offset lies in [1, 2]. |
| Compositor.Fract | LensFlarePass.js:166 | `fract` lies in [0, 1). |
| Compositor.BlendProperties | LensFlarePass.js:180-183 | With partition-of-unity amplitudes the four-tap blend reproduces a constant texture and keeps non-negative colours non-negative. |
| Compositor.TextureBicubic | LensFlarePass.js:162-184 | The upsampler returns a constant texture's value unchanged, and never turns a non-negative buffer negative. |
| Compositor.Composite | LensFlarePass.js:185-187 | The output is the scene colour plus the upsampled flare buffer: an all-zero buffer leaves the scene unchanged, and a non-negative one never darkens any channel. |
| Legacy.FlareTrace | LensFlareOld.js:608-627 | The legacy loop issues two events per flare, none with XR enabled. |
| Legacy.FlareTracePairs | LensFlareOld.js:608-627 | Flare k's coverage pass and flare pass sit at positions 2k and 2k + 1, in list order. |
| Legacy.DrawFlare | LensFlareOld.js:609-626 | One flare is projected, its coverage pass is drawn under the caller's auto-clear and its flare pass with auto-clear off, and auto-clear is restored. |
| Legacy.DrawFlares | LensFlareOld.js:608-627 | The loop projects every flare and issues their events in list order, leaving the renderer unchanged. |
| Legacy.RenderLegacy | LensFlareOld.js:602-637 | The frame is the clear, two passes for every flare in list order with no filter (the `FlareTrace` events), then the composite to the screen or output buffer. The clear and the composite are recorded with XR off, as are all `FlareTrace` events. Every flare ends projected, and the renderer's XR flag and auto-clear are restored on return. |
| Legacy.InactiveFlareStillDrawn | LensFlareOld.js:608 | A flare the batched filter drops is still drawn by the legacy loop. |
| Legacy.CoverageSample | LensFlareOld.js:188-196 | Coverage starts at zero and is binary and equal across channels. |
| Legacy.CoverageMatchesBatchedRule | LensFlareOld.js:192-193 | The legacy test is 1 iff the UV is off screen or the stored depth is nearer than the flare's own depth; this is the batched rule with transparency off. |
| Legacy.SampleWithinRadius | LensFlareOld.js:190-191 | The sample's squared distance from the flare's screen position is radius² times the hash, so a hash in [0, 1) keeps it within the coverage radius. |
| Legacy.DepthRangeIsUnit | LensFlareOld.js:580 | The z test discards exactly when the screen depth leaves [0, 1]. |
| Legacy.BehindCameraTestMixesSpaces | LensFlareOld.js:580-581 | A flare straight ahead of the camera is discarded by the as-written test for any on-screen position, and kept by the world-space test. |
| Legacy.DiscardTranslationInvariant | LensFlareOld.js:580-582 | The corrected discard depends only on the flare's position relative to the camera. |
| Legacy.AddStreaks | LensFlareOld.js:557-564 | The 10-iteration loop adds exactly the sum of the circle terms, each present only where sd < 0. |
| Legacy.StreaksBounded | LensFlareOld.js:557-564 | With tint in [0, 1] and exp below 1 on negatives, the first n circles add between 0 and 100n per channel. |
| Legacy.NoCircleNoStreak | LensFlareOld.js:561-563 | A pixel outside every circle gets no streak light. |
| Legacy.Fragment | LensFlareOld.js:584-585 | Readout `.r` = 1 gives black rgb. A discard gives black rgb and alpha -0.075. An unoccluded, undiscarded colour passes through unclamped. |
| Legacy.FlareFragment | LensFlareOld.js:580-585 | With the world-space discard: a flare behind the camera or outside the depth range adds black; otherwise the rgb is the colour times (1 - readout `.r`). |
| Legacy.FragmentUnclamped | LensFlareOld.js:585 | The legacy output is not bounded by opacity: a colour of 2 comes out as 2. |
| Legacy.SetSize | LensFlareOld.js:596-600 | The legacy resize gives the flare buffer the same half-resolution size as the batched pass. |

## Left out

- Procedural shading (`LensFlare`, `drawflare`, `glare`, `circle`, `regShape`, `renderhex`, `hsv2rgb`, `sdHex`, `noise`, lens colour and star functions, the hash): transcendental float math. It is an uninterpreted colour function; in the legacy pass only the streak loop's gating is modelled.
- The batched shader's streak loop (LensFlarePass.js:580-589) is part of the uninterpreted field: it has no `sd < 0` gate to model.
- `Vector3.project`, the view and projection matrices, `lookAt` and the camera's world position and direction are library math. They are the parameter `ndcOf` or plain vectors.
- Half-float precision, hardware bilinear filtering and mip generation are not modelled. The top mip is assumed to be the exact mean of the 32 x 32 texels.
- WebGL and three.js plumbing (render-target creation, `clear`, `render`, blending state, the depth-copy shader's own arithmetic) are not modelled. Passes appear as events in a trace, and the depth copy appears as `Capture.DepthCopy` and `Occlusion.DepthSeedOffset`.
- Blocker instance matrices: only each instance's scale is modelled, not its position or orientation.
- The scene graph is a flat map of nodes: three.js skips the whole subtree of an invisible node, and that hierarchy is not modelled.
- The legacy flare population with `Math.random` (LensFlareOld.js:159-166) and all commented-out code are not modelled.
- The legacy `Flare`'s `followMouse` field is not modelled; the shared flare record stands in for both versions.
- main.js is not part of this model. It holds the scene setup, loading, GUI and the other post-processing passes.
- Frame.TexelSizeOf: requires positive flare-buffer sizes; a zero-size target, which would divide by zero, is not modelled.
- Frame.ResizeHalvesFlareBuffer: sizes are reals; three.js's rounding of a render target's size to whole pixels is not modelled.
- Occlusion.ViewOffsetWithinRadius: bounds only the view-space offset; the projected sample position depends on the camera matrices, which are parameters.
- Legacy.SampleWithinRadius: takes `sqrt` of the hash as a number whose square is the hash; GLSL `sqrt` itself is not modelled.
- Legacy.BehindCamera: treats `normalize` as a positive scaling and a zero vector as never behind the camera (a NaN comparison is false); GPU NaN behaviour beyond that is not modelled.

## Findings

| source | as written | input that shows it | evidently intended | confidence | as-written member | corrected member |
|---|---|---|---|---|---|---|
| LensFlarePass.js:250 | `float[4] occluded;` is never initialised, so a sample that passes the depth test reports whatever the register held | transparency off, an unblocked sample, register value 0.5: the channel reads 0.5 instead of 0 | `occluded` starts at 0, as in the commented-out single-flare shader and in LensFlareOld.js:189 | medium: many drivers zero registers; not executed | Occlusion.SampleChannelAsWritten, Occlusion.UninitialisedSampleLeaks | Occlusion.SampleOcclusion |
| LensFlarePass.js:611 | `gl_FragColor.rgb +=` reads the output before it is ever written | every slot fully occluded and a non-black initial register: the pixel adds that garbage instead of black | the accumulator starts at zero | medium: many drivers zero registers; not executed | FlareShader.ShadePixel, FlareShader.UninitialisedOutputLeaks | FlareShader.FragmentColor |
| LensFlareOld.js:580-581 | the behind-camera test subtracts the world-space `cameraPos` from the screen-space `lensPosition` | camera at (5, 0, 0) facing +x, flare at (10, 0, 0) straight ahead, any on-screen position: the flare is discarded | test the flare's world position against the camera | high; not executed | Legacy.DiscardAsWritten, Legacy.BehindCameraTestMixesSpaces | Legacy.Discard, Legacy.DiscardTranslationInvariant |
