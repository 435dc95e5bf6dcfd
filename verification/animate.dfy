/**
 * One frame of the render loop `animate`: unless a photo is focused, every
 * photo is moved along its logo orbit (or, when no orbit exists, along the
 * fallback ellipse) and turned to the camera; then the focus tweens are
 * stepped, and the starfield, the controls and the renderer are updated.
 *
 * The loop's clock (`performance.now()`) is the parameter `now`; the
 * starfield, the controls and the renderer are calls into code outside this
 * model and are returned as effects, in call order.
 */
module Animate {
  import opened Wrappers
  import opened Geometry
  import opened JsNum
  import opened Gallery
  import opened Tweens
  import opened Focus
  import opened LogoPath

  /** Radians per second the fallback ellipse turns. */
  const SpinRate := 0.5
  /** Angle between neighbouring photos on the fallback ellipse. */
  const IndexSpread := 0.35
  const DefaultOrbitRadius := 10.0
  /** The fallback ellipse's height is half its width. */
  const Flatten := 0.5
  const CircleBob := 0.5
  const PathBob := 0.3
  /** Orbit laps per millisecond at speed 1. */
  const PathRate := 0.00005
  const DefaultSpeed := 0.15
  const DefaultOffsetX := -2.0

  /**
   * What a frame reads besides the state: the camera and runtime, the
   * orbit sampler, the orbits, and whether orbit controls were passed in.
   */
  datatype Env = Env(view: View, sample: (Curve, real) -> Vec3, paths: seq<Curve>, hasControls: bool)

  /** The loop's state: the focus state (with the photos) and the previous frame's clock. */
  datatype Loop = Loop(focus: State, last: real)

  /** The calls a frame makes into code outside this model. */
  datatype Effect = UpdateStarfield(dt: real) | UpdateControls | Render

  datatype Frame = Frame(next: Loop, effects: seq<Effect>)

  /** `t = now * 0.001`: the clock in seconds. */
  function Seconds(now: real): real {
    now * 0.001
  }

  /**
   * How far photo `i` of `n` has gone round its orbit, in laps: its speed
   * (default 0.15) times the clock, from its phase (default: its share
   * `i / n` of the lap, which spreads the photos evenly).
   */
  function Laps(e: Entry, i: nat, n: nat, now: real): (r: real)
    requires i < n
    ensures e.speed.None? && e.phase.None? ==> r == now * PathRate * DefaultSpeed + i as real / n as real
    ensures e.speed.Some? && e.phase.Some? ==> r == now * PathRate * e.speed.value + e.phase.value
  {
    now * PathRate * e.speed.GetOr(DefaultSpeed) + e.phase.GetOr(i as real / n as real)
  }

  /**
   * The orbit parameter: JavaScript's `% 1` of the laps, so it keeps their
   * sign; the sampler wraps it again.
   */
  function PathParam(e: Entry, i: nat, n: nat, now: real): (u: real)
    requires i < n
    ensures -1.0 < u < 1.0
    ensures Laps(e, i, n, now) >= 0.0 ==> 0.0 <= u
    ensures Wrap01(u) == Laps(e, i, n, now) - Laps(e, i, n, now).Floor as real
  {
    var laps := Laps(e, i, n, now);
    Wrap01AfterRemOne(laps);
    RemOne(laps)
  }

  /** `orbitBand % 2`: the orbit a photo follows, `-1` (no orbit) for a negative odd band. */
  function PathIndex(e: Entry): (k: int)
    ensures e.orbitBand >= 0 ==> 0 <= k <= 1
    ensures e.orbitBand < 0 ==> -1 <= k <= 0
    ensures (e.orbitBand - k) % 2 == 0
  {
    IntRem(e.orbitBand, 2)
  }

  /** The orbit point for photo `i`, lifted, bobbed and pushed along z; none if its orbit is missing. */
  function PathPoint(env: Env, e: Entry, i: nat, n: nat, now: real): (r: Option<Vec3>)
    requires i < n
    ensures r.None? <==> !HasLogoPath(env.paths, PathIndex(e))
  {
    match GetPointOnLogoPath(env.paths, PathParam(e, i, n, now), PathIndex(e), e.offsetX.GetOr(DefaultOffsetX), env.sample)
    case None => None
    case Some(p) =>
      var bob := env.view.trig.sin(Seconds(now) + i as real) * PathBob;
      Some(Vec3(p.x, p.y + e.yLift.GetOr(0.0) + bob, p.z + e.zChange.GetOr(0.0)))
  }

  /** The fallback: an ellipse of radius `orbitRadius` flattened in y, bobbing with time. */
  function CirclePoint(trig: Trig, e: Entry, i: nat, now: real): Vec3 {
    var t := Seconds(now);
    var angle := e.angle + t * SpinRate + i as real * IndexSpread;
    var radius := e.orbitRadius.GetOr(DefaultOrbitRadius);
    Vec3(trig.cos(angle) * radius,
         trig.sin(angle) * radius * Flatten + e.verticalOffset + trig.sin(t + i as real) * CircleBob,
         trig.sin(angle) * radius)
  }

  /** Where photo `i` goes this frame; it stays put when its own orbit is missing. */
  function OrbitPosition(env: Env, e: Entry, i: nat, n: nat, now: real): Vec3
    requires i < n
  {
    if HasLogoPath(env.paths, 0) then
      match PathPoint(env, e, i, n, now)
      case None => e.mesh.position
      case Some(p) => p
    else CirclePoint(env.view.trig, e, i, now)
  }

  /** The per-photo body of the `forEach`: move, then `lookAt(camera.position)`. */
  function Orbit(env: Env, e: Entry, i: nat, n: nat, now: real): (r: Entry)
    requires i < n
    ensures r == e.(mesh := e.mesh.(position := r.mesh.position,
                                    quaternion := env.view.lookAt(r.mesh.position, env.view.camera.position)))
  {
    var pos := OrbitPosition(env, e, i, n, now);
    e.(mesh := e.mesh.(position := pos, quaternion := env.view.lookAt(pos, env.view.camera.position)))
  }

  function OrbitAll(env: Env, items: seq<Entry>, now: real): (r: seq<Entry>)
    ensures SameRecords(items, r)
  {
    seq(|items|, i requires 0 <= i < |items| => Orbit(env, items[i], i, |items|, now))
  }

  /** Every tween step writes a position or a scale, never a record. */
  lemma RunKeepsRecords(items: seq<Entry>, tws: seq<Tween>, now: real)
    requires AllValid(tws)
    ensures SameRecords(items, Run(items, tws, now))
  {
    forall j | 0 <= j < |items| ensures Run(items, tws, now)[j].record == items[j].record {
      RunOnlyTransforms(items, tws, now, j);
    }
  }

  /** The photos' part of a frame: orbit unless focused, then step the tweens. */
  function Advance(env: Env, st: State, now: real): (r: State)
    requires Inv(st)
    ensures Inv(r)
    ensures SameRecords(st.items, r.items)
    ensures r == st.(items := r.items, tweens := r.tweens)
    ensures forall tw :: tw in r.tweens <==> tw in st.tweens && !Done(tw, now)
    ensures st.focusMode ==> r.items == Run(st.items, st.tweens, now)
    ensures !st.focusMode ==> r.items == Run(OrbitAll(env, st.items, now), st.tweens, now)
  {
    var moved := if IsFocusMode(st) then st.items else OrbitAll(env, st.items, now);
    RunKeepsRecords(moved, st.tweens, now);
    UpdateFocus(st.(items := moved), now)
  }

  /** The calls after the photos: starfield with the elapsed seconds, controls if any, render. */
  function Calls(dt: real, hasControls: bool): (r: seq<Effect>)
    ensures |r| == if hasControls then 3 else 2
    ensures r[0] == UpdateStarfield(dt) && r[|r| - 1] == Render
    ensures UpdateControls in r <==> hasControls
  {
    [UpdateStarfield(dt)] + (if hasControls then [UpdateControls] else []) + [Render]
  }

  /**
   * `loop()`: the photos orbit only outside focus mode; the tweens then
   * step in every frame; the starfield gets the elapsed seconds (no clamp),
   * the controls update when present, and the scene is rendered.
   */
  function Step(env: Env, lp: Loop, now: real): (r: Frame)
    requires Inv(lp.focus)
    ensures Inv(r.next.focus)
    ensures r.next.last == now
    ensures SameRecords(lp.focus.items, r.next.focus.items)
    ensures |r.effects| >= 2 && r.effects[0] == UpdateStarfield((now - lp.last) / 1000.0)
    ensures UpdateControls in r.effects <==> env.hasControls
  {
    Frame(Loop(Advance(env, lp.focus, now), now), Calls((now - lp.last) / 1000.0, env.hasControls))
  }

  // ------------------------------------------------------------------
  // what a frame does to one photo

  /** While a photo is focused nothing orbits: photos move only by their tweens. */
  lemma FocusedHoldsStill(env: Env, lp: Loop, now: real)
    requires Inv(lp.focus) && lp.focus.focusMode
    ensures Step(env, lp, now).next.focus.items == Run(lp.focus.items, lp.focus.tweens, now)
  {
    assert Step(env, lp, now).next.focus == Advance(env, lp.focus, now);
  }

  /** Photo `j`, with no tween aimed at it, after an unfocused frame. */
  function Moved(env: Env, lp: Loop, now: real, j: nat): Entry
    requires Inv(lp.focus) && j < |lp.focus.items|
  {
    Advance(env, lp.focus, now).items[j]
  }

  lemma UntargetedOrbits(env: Env, lp: Loop, now: real, j: nat)
    requires Inv(lp.focus) && !lp.focus.focusMode && j < |lp.focus.items|
    requires forall k :: 0 <= k < |lp.focus.tweens| ==> lp.focus.tweens[k].target.id != j
    ensures Moved(env, lp, now, j) == Orbit(env, lp.focus.items[j], j, |lp.focus.items|, now)
  {
    var st := lp.focus;
    RunUntargeted(OrbitAll(env, st.items, now), st.tweens, now, j);
  }

  /** The fallback ellipse, for one photo. */
  lemma OnEllipse(env: Env, e: Entry, j: nat, n: nat, now: real)
    requires j < n && |env.paths| == 0
    ensures var m := Orbit(env, e, j, n, now).mesh;
      var radius := e.orbitRadius.GetOr(DefaultOrbitRadius);
      var angle := e.angle + Seconds(now) * SpinRate + j as real * IndexSpread;
      && (UnitCircleAt(env.view.trig, angle) ==>
            m.position.x * m.position.x + m.position.z * m.position.z == radius * radius)
      && m.position.y == m.position.z * Flatten + e.verticalOffset
                         + env.view.trig.sin(Seconds(now) + j as real) * CircleBob
  {
    var radius := e.orbitRadius.GetOr(DefaultOrbitRadius);
    var angle := e.angle + Seconds(now) * SpinRate + j as real * IndexSpread;
    var c := env.view.trig.cos(angle);
    var s := env.view.trig.sin(angle);
    assert c * radius * (c * radius) + s * radius * (s * radius) == (c * c + s * s) * (radius * radius);
  }

  /** The logo orbit, for one photo whose orbit exists. */
  lemma OnOrbit(env: Env, e: Entry, j: nat, n: nat, now: real)
    requires j < n
    requires HasLogoPath(env.paths, 0) && HasLogoPath(env.paths, PathIndex(e))
    ensures var laps := Laps(e, j, n, now);
      var p := env.sample(env.paths[PathIndex(e)], laps - laps.Floor as real);
      Orbit(env, e, j, n, now).mesh.position
        == Vec3(p.x + e.offsetX.GetOr(DefaultOffsetX),
                p.y + e.yLift.GetOr(0.0) + env.view.trig.sin(Seconds(now) + j as real) * PathBob,
                p.z + e.zChange.GetOr(0.0))
  {
    Wrap01IsFraction(PathParam(e, j, n, now));
  }

  /**
   * With orbits, a photo whose own orbit is missing (band 1 when only one
   * orbit was built, or a negative odd band) stays where it was and only
   * turns to the camera.
   */
  lemma StaysWhenItsOrbitIsMissing(env: Env, lp: Loop, now: real, j: nat)
    requires Inv(lp.focus) && !lp.focus.focusMode && j < |lp.focus.items|
    requires forall k :: 0 <= k < |lp.focus.tweens| ==> lp.focus.tweens[k].target.id != j
    requires HasLogoPath(env.paths, 0) && !HasLogoPath(env.paths, PathIndex(lp.focus.items[j]))
    ensures var e := lp.focus.items[j];
      Moved(env, lp, now, j) == e.(mesh := e.mesh.(quaternion := env.view.lookAt(e.mesh.position, env.view.camera.position)))
  {
    UntargetedOrbits(env, lp, now, j);
  }

  /** With both orbits built, every photo of a non-negative band has one to follow. */
  lemma TwoOrbitsCoverEveryBand(env: Env, e: Entry)
    requires |env.paths| >= 2 && e.orbitBand >= 0
    ensures HasLogoPath(env.paths, PathIndex(e))
    ensures PathIndex(e) == 0 <==> e.orbitBand % 2 == 0
  {
  }

  /** A single orbit leaves band-1 photos where they are. */
  lemma OneOrbitStrandsBandOne(env: Env, e: Entry)
    requires |env.paths| == 1 && e.orbitBand == 1
    ensures HasLogoPath(env.paths, 0) && !HasLogoPath(env.paths, PathIndex(e))
  {
  }

  // ------------------------------------------------------------------
  // after a clear

  /**
   * A frame before a tween's duration is up keeps what it queued: the orbit
   * step writes no tweens and the tick drops only finished ones, in order.
   */
  lemma AdvanceKeepsQueued(env: Env, st: State, now: real, t: Target, v: Vec3, started: real)
    requires Inv(st)
    requires Queued(st.tweens, t, v, started) && now < started + DefaultMs
    ensures Queued(Advance(env, st, now).tweens, t, v, started)
  {
    assert Advance(env, st, now).tweens == Retire(st.tweens, now);
    QueuedRetire(st.tweens, t, v, started, now);
  }

  /** The photos' part of the frames run at `times`, in order. */
  function Frames(env: Env, st: State, times: seq<real>): (r: State)
    requires Inv(st)
    ensures Inv(r)
    ensures r == st.(items := r.items, tweens := r.tweens)
    ensures |r.items| == |st.items|
    decreases |times|
  {
    if |times| == 0 then st else Frames(env, Advance(env, st, times[0]), times[1..])
  }

  /** A frame writes positions, orientations and scales, never render orders or materials. */
  lemma FrameKeepsLooks(env: Env, st: State, now: real, j: nat)
    requires Inv(st) && j < |st.items|
    ensures var m := Advance(env, st, now).items[j].mesh;
      m.renderOrder == st.items[j].mesh.renderOrder && m.material == st.items[j].mesh.material
  {
    var moved := if IsFocusMode(st) then st.items else OrbitAll(env, st.items, now);
    RunOnlyTransforms(moved, st.tweens, now, j);
  }

  /**
   * Frames before a duration is up carry a photo's queued position and
   * scale through, and leave its render order and material as they were.
   */
  lemma {:induction false} FramesCarry(env: Env, st: State, times: seq<real>, j: nat, pos: Vec3, scale: Vec3, started: real)
    requires Inv(st) && j < |st.items|
    requires Queued(st.tweens, Target(j, Position), pos, started)
    requires Queued(st.tweens, Target(j, Scale), scale, started)
    requires forall k :: 0 <= k < |times| ==> times[k] < started + DefaultMs
    ensures var r := Frames(env, st, times);
      && Queued(r.tweens, Target(j, Position), pos, started)
      && Queued(r.tweens, Target(j, Scale), scale, started)
      && r.items[j].mesh.renderOrder == st.items[j].mesh.renderOrder
      && r.items[j].mesh.material == st.items[j].mesh.material
    decreases |times|
  {
    if |times| > 0 {
      var s1 := Advance(env, st, times[0]);
      AdvanceKeepsQueued(env, st, times[0], Target(j, Position), pos, started);
      AdvanceKeepsQueued(env, st, times[0], Target(j, Scale), scale, started);
      FrameKeepsLooks(env, st, times[0], j);
      FramesCarry(env, s1, times[1..], j, pos, scale, started);
    }
  }

  /**
   * The first frame one tween duration after `clearFocus()`, after the
   * frames `times` in between, for a photo the focus owned: the orbit step
   * places and turns it, then the restore tweens land it exactly on its
   * saved position and scale. It keeps its saved render order and opacity
   * and writes depth again, but it faces the camera from its orbit point
   * rather than keeping its saved orientation, because every unfocused
   * frame re-aims every photo.
   */
  lemma ClearedFrameRestores(env: Env, st: State, now: real, times: seq<real>, later: real, j: nat)
    requires Inv(st) && st.focusMode
    requires j < |st.items| && j in Owned(st)
    requires forall k :: 0 <= k < |times| ==> times[k] < now + DefaultMs
    requires later >= now + DefaultMs
    ensures var r := Frames(env, ClearFocus(st, now), times);
      var m := Advance(env, r, later).items[j].mesh;
      var s := st.saved[j];
      && m.position == s.position && m.scale == s.scale
      && m.quaternion == env.view.lookAt(OrbitPosition(env, r.items[j], j, |r.items|, later), env.view.camera.position)
      && m.renderOrder == s.renderOrder
      && (m.material.hasOpacity ==> m.material.opacity == s.opacity)
      && m.material.depthWrite
  {
    var c := ClearFocus(st, now);
    OwnedAreSaved(st);
    ClearFocusEffect(st, now, j);
    FramesCarry(env, c, times, j, st.saved[j].position, st.saved[j].scale, now);
    var r := Frames(env, c, times);
    var moved := OrbitAll(env, r.items, later);
    assert moved[j] == Orbit(env, r.items[j], j, |r.items|, later);
    Settles(moved, r.tweens, Target(j, Position), st.saved[j].position, now, later);
    Settles(moved, r.tweens, Target(j, Scale), st.saved[j].scale, now, later);
    RunOnlyTransforms(moved, r.tweens, later, j);
  }
}
