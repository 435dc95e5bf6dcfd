# timespace-3d gallery core, modelled in Dafny

This project models the core of the timespace-3d photo gallery. The gallery is a
Three.js scene in which photo sprites orbit a 3D logo. It covers four parts of the source:

- **Image loader** (`src/imageLoader.js`). Database records become orbiting sprites.
  - Textures are cached by URL.
  - Each loaded photo gets its orbit parameters.
  - Orbit bands follow the `[0, 1, 1]` pattern over *successful* loads only.
  - At the end the photos are grouped by band.
- **Logo orbits** (`src/logoPath.js`). The two orbit curves are built from the logo model's meshes.
  - The candidate meshes are sorted from top to bottom, and the 3rd and 5th are picked.
  - Their world-space vertices are smoothed with a wrap-around moving average.
  - The result is a closed centripetal Catmull-Rom curve with a 2000-division arc-length table.
  - The module also answers queries on the curves: `hasLogoPath`, `getPathsCount` and `getPointOnLogoPath`.
- **Focus interaction** (`src/focusInteraction.js`):
  - the tween helper and its per-frame update;
  - snapshots of a sprite's pre-focus state, and its restoration;
  - the "related" relation on records, which holds when they share a people key;
  - the ring layout;
  - moving the picked photo in front of the camera;
  - dimming and undimming;
  - the `clearFocus` / `focusImage` state machine, driven by clicks and by the Escape key.
- **Animation loop** (`src/animate.js`). Each frame:
  - moves every photo along its band's logo orbit, or along the circular fallback when there are no orbits;
  - turns each photo to face the camera;
  - freezes orbiting while a photo is focused;
  - then runs the tweens, the starfield, the controls and the render.

The modules are `Wrappers`, `Geometry`, `JsNum`, `Gallery`, `Relation`, `Tweens`,
`Focus`, `LogoPath`, `Animate` and `ImageLoader`.

- **State.** All state is explicit and immutable. Each handler is a function from state to state.
  - `orbitImages`, `tweens`, `SAVED`, `focusMode`, `focused` and `ring` are fields of `Focus.State`.
  - `orbitImages` and `_texCache` are the fields of `ImageLoader.Loader`.
  - The loop's `last` timestamp is a field of `Animate.Loop`.
  - `_paths` is the result of `LogoPath.SetLogoFixedPathsFromModel`. A frame reads it through its `Animate.Env.paths` parameter.
- **Identity.** A photo is identified by its index in `orbitImages`. The loader gives
  every photo a sprite of its own, so "same mesh" and "same index" agree.
- **Tweens** are an insertion-ordered sequence, because a JavaScript `Set` iterates in insertion order. For
  each target and axis, the last tween added wins.
- **Library behaviour** is passed in as parameters:
  - cosine and sine (`Geometry.Trig`);
  - `Object3D.lookAt` (`Geometry.View`);
  - `CatmullRomCurve3.getPointAt` (`Animate.Env.sample`);
  - a mesh's world matrix (`LogoPath.SceneObject.toWorld`);
  - the texture loader's outcome per record;
  - `Math.random` per draw.
- **Time.** `performance.now()` is a parameter of every call that reads it.
- **Numbers.** Real arithmetic is exact. JavaScript's truncating `%` is written out: `JsNum.RemOne` and `JsNum.IntRem`.

The repository's focus tests expect behaviour that the focus code does not have. In each case the model follows the code:

- **Click events.** The handler listens for `click` (`src/focusInteraction.js:220`).
  - The tests dispatch `pointerdown` events (`tests/unit.focus.test.js:35-45`, `tests/functional.focus.test.js:31-34`).
  - The tests also expect a debounce (`tests/unit.focus.test.js:48-57`), which the code does not have.
- **Render orders.** The focused photo gets 9 and ring photos get 8 (`src/focusInteraction.js:92,150`). Other photos keep their render order and are only dimmed, to opacity 0.25. The tests expect orders 100/50/5 (`tests/unit.focus.test.js:104-107`, `tests/functional.focus.test.js:83-86`, `tests/integration.focus.test.js:68-71`).
- **Depth testing.** The focus code never toggles it. The tests expect `depthTest` to be false (`tests/unit.focus.test.js:109-112`, `tests/integration.focus.test.js:82-85`).
- **The ring.** It neither rotates nor scales. One test expects a ring member to move on a later `updateFocus` (`tests/unit.focus.test.js:124-142`); in the code only the tweens started at focus move it.
- **The orbit clock.** It is not paused while a photo is focused.
  - The paused clock and the clamped frame time exist only in a commented-out loop (`src/animate.js:17-24`).
  - The live loop computes orbit positions from wall-clock time. After a focus ends, the photos resume where the clock puts them, not where they stopped (`Animate.OnOrbit`).
- **Phases.** They stay `Math.random()`. The block that spreads phases evenly per band is commented out (`src/imageLoader.js:229-236`).
- **Missing orbit.** A photo whose band has no orbit stays where it is but still turns to face the camera (`Animate.StaysWhenItsOrbitIsMissing`).

## Model

| member | source | states |
|---|---|---|
| Tweens.Start | src/focusInteraction.js:7-13 | a new tween targets the given channel, records the current value of every animated axis as its start, starts now and lasts 600 ms |
| Tweens.Progress | src/focusInteraction.js:14 | the tween's progress is at most 1, is non-negative once started, and is exactly 1 iff the duration has elapsed |
| Tweens.EaseMonotone | src/focusInteraction.js:7 | the cubic ease-out maps 0 to 0 and 1 to 1 and is monotone within [0, 1] |
| Tweens.InterpBetween | src/focusInteraction.js:14-16 | a started tween's value on an axis always lies between its start and end values |
| Tweens.InterpAtEnd | src/focusInteraction.js:14-17 | once the duration has elapsed the tween is done and sits exactly at its target value |
| Tweens.StepVec | src/focusInteraction.js:16 | a step sets every animated axis to its interpolated value and leaves the others alone |
| Tweens.ApplyTween | src/focusInteraction.js:13-18 | a step changes only the targeted channel of the targeted sprite; everything else in the collection is unchanged |
| Tweens.Retire | src/focusInteraction.js:22-27 | a tween stays in the set iff it was there and is not done at this time |
| Tweens.RetireAppend | src/focusInteraction.js:22-27 | retiring filters in insertion order: the survivors of a + b are those of a followed by those of b, and one tween survives iff it is not done |
| Tweens.QueuedRetire | src/focusInteraction.js:22-27 | a target queued less than 600 ms ago is still the last one queued after a tick, so last-writer-wins carries across frames |
| Tweens.RunValue | src/focusInteraction.js:22-27 | after all tweens have stepped, each axis of a channel holds the value of the last tween for it, or its old value if there is none |
| Tweens.Settles | src/focusInteraction.js:13-25 | a target value queued last in a tween list is reached exactly by a tick over that list at least 600 ms after it was queued |
| Tweens.RunOnlyTransforms | src/focusInteraction.js:22-27 | updating the tweens changes only positions and scales |
| Tweens.UpdateTweens | src/focusInteraction.js:22-27 | the surviving tweens are exactly the unfinished ones, and every finished tween is removed |
| Relation.IsRelated | src/focusInteraction.js:62-68 | two records are related iff their people key lists share a key; an empty list on either side never relates |
| Relation.IsRelatedSymmetric | src/focusInteraction.js:62-68 | relatedness is symmetric |
| Relation.MissingIsUnrelated | src/focusInteraction.js:63-65 | a record with no people is related to nothing |
| Relation.NonEmptyListsAreRelated | src/focusInteraction.js:63-67 | two non-empty people arrays are always related, because both key lists start with the index "0" |
| Relation.ObjectsRelatedIffSharedName | src/focusInteraction.js:63-67 | for people objects, relatedness is sharing a name |
| Gallery.Keys | src/focusInteraction.js:63 | the keys of people: none when missing, the index strings of an array, an object's own keys |
| Focus.Init | src/focusInteraction.js:30-34 | the initial state is unfocused, with no snapshots and no tweens, and satisfies the focus invariant |
| Focus.IsFocusMode | src/focusInteraction.js:224-226 | focus mode holds iff a photo is focused, and outside it the ring is empty |
| Focus.OwnedAreSaved | src/focusInteraction.js:131-155 | in every reachable state the focused photo and every ring member have a snapshot, so clearing can restore each of them |
| Focus.Capture | src/focusInteraction.js:43-49 | a snapshot holds position, orientation, scale, render order, and the opacity if the material has one, else 1 |
| Focus.SaveOriginal | src/focusInteraction.js:41-50 | afterwards the photo has a snapshot, an existing snapshot is never overwritten, and no other snapshot changes |
| Focus.SaveOriginalFirstWins | src/focusInteraction.js:42 | saving twice keeps the first snapshot |
| Focus.RestoredMesh | src/focusInteraction.js:56-59 | restoring sets orientation, render order and (when present) opacity from the snapshot at once, leaving position and scale to tweens |
| Focus.RestoreOfCapture | src/focusInteraction.js:41-60 | save then restore is a round trip: the sprite gets back its captured orientation and render order, and its captured opacity when it has an opacity channel (1 if it had none when captured) |
| Focus.RestoreOriginal | src/focusInteraction.js:52-60 | without a snapshot nothing changes; with one the sprite is restored and two tweens back to the saved position and scale are queued; no other photo changes |
| Focus.TransformTweensQueued | src/focusInteraction.js:55-57 | the two restoring tweens queue exactly the saved position and scale |
| Focus.RestoreAllEffect | src/focusInteraction.js:121 | restoring a list of photos restores exactly the listed photos that have snapshots and queues their saved transforms; other photos are unchanged |
| Focus.RelatedFlags | src/focusInteraction.js:137 | flag j is set iff photo j is a different photo whose record is related to the picked one |
| Focus.RelatedFrom | src/focusInteraction.js:136-137 | the filter keeps only related photos at or after the start index |
| Focus.RelatedFromComplete | src/focusInteraction.js:136-137 | the filter keeps every related photo, in collection order |
| Focus.Related | src/focusInteraction.js:136-138 | the related list has at most 8 photos, strictly increasing, in range, and never holds the picked photo |
| Focus.RelatedIsFirst | src/focusInteraction.js:136-138 | the related list is exactly the first (up to 8) related photos in collection order: it is everything related when fewer than 8 exist, and no related photo is skipped before its last element |
| Focus.RingAnglesEven | src/focusInteraction.js:72-73 | ring angles start at 0, stay in [0, 2*pi) and are evenly spaced |
| Focus.LayoutRing | src/focusInteraction.js:70-81 | there are count ring points at the centre's height, each offset by the radius 4.5 along the cosine and sine of its angle |
| Focus.RingOnCircle | src/focusInteraction.js:70-81 | every ring point lies on the circle of radius 4.5 around the centre |
| Focus.MoveInFrontOfCamera | src/focusInteraction.js:83-93 | saves the snapshot, turns the photo to the camera, gives it render order 9 and touches no other photo |
| Focus.MoveInFrontOfCameraTweens | src/focusInteraction.js:84-91 | the queued tweens go to the point 7 units along the view direction and to 1.5 times the scale |
| Focus.PlaceRingMember | src/focusInteraction.js:146-151 | each ring photo gets its first-win snapshot, faces the camera, gets render order 8 and has its ring slot queued |
| Focus.PlaceRingOther | src/focusInteraction.js:146-151 | photos outside the ring are not touched by the ring placement |
| Focus.DimAllExcept | src/focusInteraction.js:95-103 | a sprite with an opacity channel gets opacity 1 if kept and 0.25 otherwise, becomes transparent and stops writing depth, and nothing else of it changes; a sprite without the channel is unchanged |
| Focus.UndimAll | src/focusInteraction.js:105-115 | a sprite with an opacity channel gets its snapshot opacity, or 1 without a snapshot; every sprite writes depth again; nothing else changes |
| Focus.UndimAfterDim | src/focusInteraction.js:95-115 | undimming erases any dimming, whatever was kept: dim then undim equals undim alone, except that sprites with an opacity channel stay transparent |
| Focus.ClearFocus | src/focusInteraction.js:117-129 | outside focus nothing changes; inside, focus mode ends with no focused photo and an empty ring, snapshots are kept, and only the ring and focused photos get tweens |
| Focus.ClearFocusEffect | src/focusInteraction.js:117-129 | each photo is restored (if owned and saved) and undimmed, and each owned saved photo has its saved transform queued |
| Focus.ClearFocusRestores | src/focusInteraction.js:117-129 | under the tween tick alone, 600 ms after clearing, every photo that was focused or on the ring is at its saved position, scale, orientation, render order and opacity, and writes depth (in the loop, the orbit step re-aims it: Animate.ClearedFrameRestores) |
| Focus.FocusImage | src/focusInteraction.js:131-155 | focus mode starts on the picked photo, the ring is its related list, snapshots only grow, and only the picked and ring photos get tweens |
| Focus.FocusImageEffect | src/focusInteraction.js:131-155 | after focusing, every photo is dimmed except the picked one and the ring, on top of the move and ring placement |
| Focus.FocusImageSnapshots | src/focusInteraction.js:131-155 | the picked and ring photos gain a snapshot iff they lacked one; existing snapshots are kept |
| Focus.FocusImageTweens | src/focusInteraction.js:134-148 | the picked photo is queued to the point in front of the camera at 1.5 times the scale, and ring photo k to ring slot k |
| Focus.FirstAllowed | src/focusInteraction.js:164-175 | the hit chosen is the nearest one belonging to an allowed sprite |
| Focus.FirstHit | src/focusInteraction.js:164-182 | there is no hit iff the ray crosses no allowed sprite |
| Focus.OnClick | src/focusInteraction.js:157-202 | a miss is clearFocus (nothing changes when unfocused); a hit on the focused photo is clearFocus; a hit on another photo while focused is a ring member, and the result is clearFocus then focusImage of it; a hit while unfocused is focusImage; a hit on a non-photo changes nothing; the invariant holds and snapshots only grow |
| Focus.PickedInRing | src/focusInteraction.js:192-193 | in focus mode, a picked photo other than the focused one is in the ring |
| Focus.OnKey | src/focusInteraction.js:205-207 | Escape is clearFocus, a no-op when unfocused, and keeps the snapshots; any other key changes nothing |
| Focus.UpdateFocus | src/focusInteraction.js:209-211 | the per-frame update steps every tween and keeps exactly the unfinished ones |
| Focus.UpdateFocusKeepsQueued | src/focusInteraction.js:209-211 | a target queued less than one duration ago stays the last one queued after the update |
| Focus.RelatedFromSameRecords | src/focusInteraction.js:136-138 | the related list depends only on the records, not on sprite state |
| Focus.RingOfSharedNames | src/focusInteraction.js:136-138 | people {x}, {x,y}, {z}, {x}: focusing the first gives the ring [1, 3] |
| Focus.RingOfLoadedArrays | src/imageLoader.js:205 | the same people flattened to arrays by the loader give the ring [1, 2, 3] |
| LogoPath.HasLogoPath | src/logoPath.js:134-136 | an orbit exists iff its index is in range |
| LogoPath.GetPathsCount | src/logoPath.js:139-141 | an index has an orbit iff it is below the count |
| LogoPath.GetPointOnLogoPath | src/logoPath.js:144-150 | no point iff the orbit is missing; otherwise the curve is sampled at the fractional part of t and shifted by the x offset |
| LogoPath.PointPeriodic | src/logoPath.js:147 | the sampled point repeats with period 1 in t |
| LogoPath.Candidates | src/logoPath.js:166-175 | the candidates are exactly the meshes with geometry and a position attribute |
| LogoPath.CandidatesInOrder | src/logoPath.js:166-175 | the candidates are the traversal filtered in order: those of a + b are those of a then those of b, and one object is kept iff it qualifies |
| LogoPath.SortFromTop | src/logoPath.js:184 | the order is a permutation of the candidates, from top to bottom by centre height |
| LogoPath.SortRanks | src/logoPath.js:184 | a candidate is placed before rank k iff it is above the candidate at rank k |
| LogoPath.PickedAreThirdAndFifth | src/logoPath.js:184-188 | the picked meshes are the 3rd and 5th from the top: exactly two candidates lie above the first, four above the second |
| LogoPath.SumWindow | src/logoPath.js:251-257 | the inner loop adds 2*half+1 points around i with wrap-around |
| LogoPath.SmoothPoints | src/logoPath.js:243-262 | the loop computes the wrap-around moving average of every point, or returns fewer than window points unchanged |
| LogoPath.MovingAverage | src/logoPath.js:243-262 | smoothing keeps the number of points and leaves short inputs untouched |
| LogoPath.SmoothConstant | src/logoPath.js:250-258 | smoothing a constant loop yields the same constant everywhere |
| LogoPath.BuildSmoothCurve | src/logoPath.js:221-240 | a curve exists iff the mesh has positions and at least 8 vertices; it is closed, centripetal, tension 0.05, and its points are the moving average (window 12) of the world vertices, which are the world vertices themselves below 12 |
| LogoPath.WorldVertices | src/logoPath.js:226-232 | one world point per vertex, in attribute order, each the world matrix applied to the local vertex |
| LogoPath.FlatMeshCurve | src/logoPath.js:221-240 | a mesh whose world vertices all coincide gives a curve through that one point |
| LogoPath.BuildAllKeepsEach | src/logoPath.js:190-199 | when every picked mesh yields a curve, each becomes a closed orbit with 2000 divisions, in order |
| LogoPath.SetLogoFixedPathsFromModel | src/logoPath.js:156-218 | at most two orbits, none from fewer than 5 candidates, each closed, centripetal, tension 0.05, 2000 divisions, with at least 8 points |
| LogoPath.TwoOrbits | src/logoPath.js:186-199 | when the 3rd and 5th meshes yield curves, the orbits are exactly those two, in that order |
| JsNum.RemOne | src/animate.js:84 | `x % 1` keeps the sign of x, lies strictly within (-1, 1), and differs from x by an integer |
| JsNum.IntRem | src/animate.js:85 | `band % 2` keeps the sign of the band and agrees with the mathematical remainder on non-negative bands |
| JsNum.Wrap01IsFraction | src/logoPath.js:147 | `(t % 1 + 1) % 1` is the fractional part of t |
| JsNum.Wrap01Periodic | src/logoPath.js:147 | the wrap is periodic with period 1 |
| Animate.PathParam | src/animate.js:84 | the orbit parameter lies in (-1, 1), is non-negative for non-negative progress, and wraps to the fractional part of the progress |
| Animate.PathIndex | src/animate.js:85 | non-negative bands map to orbit 0 or 1 (negative ones to 0 or -1) with the band's parity |
| Animate.PathPoint | src/animate.js:86-89 | there is no point iff the band's orbit is missing |
| Animate.Orbit | src/animate.js:79-105 | a frame changes only a photo's position and turns it to face the camera from its new position |
| Animate.OnOrbit | src/animate.js:83-94 | with orbits present, a photo sits on its band's curve at the fractional part of its progress, shifted by its offsets and bobbing by 0.3 |
| Animate.OnEllipse | src/animate.js:95-102 | without orbits, a photo lies on the circle of its orbit radius in x and z, with y half of z plus its offset and a 0.5 bob |
| Animate.StaysWhenItsOrbitIsMissing | src/animate.js:90-104 | when orbits exist but not the photo's band, the photo keeps its position and only turns to the camera |
| Animate.TwoOrbitsCoverEveryBand | src/animate.js:85 | with two orbits every non-negative band has one: even bands use orbit 0, odd bands orbit 1 |
| Animate.OneOrbitStrandsBandOne | src/animate.js:83-90 | with a single orbit, band 1 photos find no orbit point and stay where they are |
| Animate.OrbitAll | src/animate.js:79-105 | orbiting never changes any photo's record |
| Animate.Advance | src/animate.js:73-108 | in focus mode photos are not orbited, only tweened; otherwise they are orbited and then tweened; finished tweens are dropped and the invariant is kept |
| Animate.AdvanceKeepsQueued | src/animate.js:73-108 | a frame earlier than a tween's end keeps its target the last one queued, focused or not |
| Animate.Frames | src/animate.js:67-114 | the photos' part of the frames run at the given times, in order; the invariant and the focus fields are kept |
| Animate.FramesCarry | src/animate.js:73-108 | frames before a duration is up keep a photo's queued position and scale the last ones queued, and keep its render order and material |
| Animate.ClearedFrameRestores | src/animate.js:73-108 | after clearFocus and any frames before the tweens' 600 ms are up, the first frame at or after 600 ms puts every photo that was focused or on the ring at its saved position and scale, with its saved render order and opacity and depth writes on, facing the camera from its orbit point |
| Animate.FocusedHoldsStill | src/animate.js:73-108 | a frame in focus mode moves photos by tweens alone |
| Animate.UntargetedOrbits | src/animate.js:79-108 | outside focus, a photo without tweens ends the frame exactly where its orbit puts it |
| Animate.Calls | src/animate.js:109-111 | each frame updates the starfield first, updates the controls iff present, and renders last |
| Animate.Step | src/animate.js:67-111 | a frame stamps the time, passes the elapsed seconds to the starfield, keeps the records and the focus invariant |
| ImageLoader.BandOf | src/imageLoader.js:156-191 | the k-th successful load gets band 0 iff k is a multiple of 3, else band 1 |
| ImageLoader.Flatten | src/imageLoader.js:205 | the stored record keeps the file name and replaces people by its key list |
| ImageLoader.LoadRecord | src/imageLoader.js:160-217 | a record adds exactly one entry if its URL is cached or loads, none otherwise; the cache gains the URL on a fresh successful load only |
| ImageLoader.LoadRecordMade | src/imageLoader.js:177-213 | the entry added is a sprite of the texture with render order 10 and the listed defaults, random phase and speed, and the band of its success count |
| ImageLoader.LoadImages | src/imageLoader.js:146-218 | a failed or empty fetch changes nothing; otherwise entries are only appended, at most one per record, and cached textures are kept |
| ImageLoader.CacheContents | src/imageLoader.js:166-174 | a URL is cached afterwards iff it was before or some record with it loaded |
| ImageLoader.RecordStep | src/imageLoader.js:159-217 | record i adds an entry iff its URL was cached earlier or some record with it up to i loaded |
| ImageLoader.EntryForRecord | src/imageLoader.js:165-213 | every record that succeeds has its entry, made from its URL's texture and its own record |
| ImageLoader.FailureAddsNothing | src/imageLoader.js:214-217 | a record that fails adds no entry |
| ImageLoader.CachedAlwaysSucceeds | src/imageLoader.js:166-167 | a record whose URL is already cached never fails |
| ImageLoader.MadeRanges | src/imageLoader.js:208-209 | phases lie in [0, 1) and speeds in [0.3, 0.7) |
| ImageLoader.BandsFollowPattern | src/imageLoader.js:189-191 | the k-th entry added has band BandOf(k), regardless of failures in between |
| ImageLoader.PatternRatio | src/imageLoader.js:156 | among k photos laid out by the pattern, ceil(k/3) are in band 0 and the rest in band 1 |
| ImageLoader.LoadRatio | src/imageLoader.js:156-191 | the photos one load adds split 1:2 between the bands, up to rounding |
| ImageLoader.GroupMembers | src/imageLoader.js:223-227 | a group holds exactly the photos of its band, in collection order |
| ImageLoader.BandGroups | src/imageLoader.js:222-227 | band 1 photos go to group 1 and every other photo to group 0, each once, in order |
| ImageLoader.LoadKeepsFocusInv | src/imageLoader.js:193 | appending loaded photos keeps the focus invariant |

## Left out

- The Supabase query and the texture loader's network I/O. The query's outcome is the `Fetch` parameter; each load's outcome is a per-record boolean.
- `await` ordering across concurrent calls of the loader. One call is modelled as running to completion.
- `scene.add` / `scene.remove` and the commented-out debug lines. They change nothing the model observes.
- The texture's colour space (always sRGB) and `curve.getLengths` warm-up. Neither is observable in the model.
- All console logging.
- `requestAnimationFrame` and the recursion of the loop. One frame is `Animate.Step`.
- `performance.now()`. It is the `now` parameter.
- Floating-point rounding. Reals are exact, and `Math.PI` is a constant.
- The internals of Three.js: `getPointAt`, `lookAt`, `Box3` centres, `matrixWorld`, cos/sin and `getWorldDirection`. These are parameters. Only the unit-circle fact the proofs need is assumed about cos/sin, as a hypothesis.
- Raycasting geometry and pointer-to-NDC conversion. A click is the list of objects the ray crosses, nearest first.
- `setupFocusInteraction` and the event listeners. The handlers are called directly.
- Starfield, controls and renderer internals. They are effects a frame emits.
- The debounce, the pointer-down events, depth-test toggling, ring rotation and scaling, and the 100/50/5 render orders. The focus tests expect them, but the focus code has none of them.
- The paused orbit clock and the clamped frame time. They exist only in the commented-out loop at `src/animate.js:17-24`.
- Cancelling tweens that target the same object. The code never does it; the last tween added wins per axis.
- NaN centres in the mesh sort, and a `people` value that is a string. Centres are reals and people are missing, an array or an object.
- The commented-out legacy implementations in `src/logoPath.js` (lines 1-126) and `src/animate.js` (lines 1-57), and the commented-out even-phase block in `src/imageLoader.js`.
- Animate.Step: states neither the tween set nor the photo positions after a frame. `Animate.Advance` states both, and `Animate.FocusedHoldsStill` and `Animate.UntargetedOrbits` relate them to `Step`.
- LogoPath.SortFromTop: a stable sort is modelled as insertion from top to bottom with ties broken by candidate order. The source relies on `Array.prototype.sort`, which is stable.
- LogoPath.SetLogoFixedPathsFromModel: a curve that cannot be built (fewer than 8 vertices) is skipped, as in the source. The lemma `LogoPath.TwoOrbits` states the exact result only when both picked meshes yield curves.
- ImageLoader.LoadImages: each call is given its own `random` draws and its success count starts at zero, as in the source. The band pattern is stated for the entries one call adds.
