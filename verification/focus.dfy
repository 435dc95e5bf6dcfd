/**
 * The focus state machine of the gallery: clicking a photo brings it in
 * front of the camera, gathers up to eight related photos into a ring
 * around that point and dims everything else; clicking again, clicking
 * empty space or pressing Escape restores the saved transforms.
 *
 * The module-level variables of the source (`focusMode`, `focused`, `ring`,
 * the `SAVED` map and the tween set) and the photo collection form one
 * `State` value; every handler is a function from state to state.
 */
module Focus {
  import opened Wrappers
  import opened Geometry
  import opened Gallery
  import opened Tweens
  import opened Relation

  const RelatedMax: nat := 8
  const FocusDistance: real := 7.0
  const RingRadius: real := 4.5
  const DimAlpha: real := 0.25
  /** Render order of the focused photo. */
  const FocusOrder: int := 9
  /** Render order of a ring member. */
  const RingOrder: int := 8
  /** Scale factor the focused photo grows by. */
  const FocusGrowth: real := 1.5

  /** What `saveOriginal` keeps of a sprite. */
  datatype Snapshot = Snapshot(position: Vec3, quaternion: Quat, scale: Vec3, opacity: real, renderOrder: int)

  datatype State = State(
    items: seq<Entry>,
    focusMode: bool,
    focused: Option<nat>,
    ring: seq<nat>,
    saved: map<nat, Snapshot>,
    tweens: seq<Tween>)

  predicate Increasing(s: seq<nat>) {
    forall i, j :: 0 <= i < j < |s| ==> s[i] < s[j]
  }

  /**
   * What holds of every state the handlers can reach: the shape of the
   * focus fields, and a snapshot for every photo the focus owns, so that
   * clearing can restore each of them.
   */
  predicate Inv(st: State) {
    Shape(st) && OwnedSaved(st)
  }

  /** The focused photo and every ring member have a snapshot. */
  predicate OwnedSaved(st: State) {
    && (st.focused.Some? ==> st.focused.value in st.saved)
    && (forall x :: x in st.ring ==> x in st.saved)
  }

  /** The focus fields agree with each other and name photos of the collection. */
  predicate Shape(st: State) {
    && (st.focusMode <==> st.focused.Some?)
    && (st.focused.Some? ==> st.focused.value < |st.items| && st.focused.value !in st.ring)
    && (!st.focusMode ==> st.ring == [])
    && |st.ring| <= RelatedMax
    && Increasing(st.ring)
    && (forall i :: 0 <= i < |st.ring| ==> st.ring[i] < |st.items|)
    && AllValid(st.tweens)
    && TargetsBelow(st.tweens, |st.items|)
  }

  /** Every tween is aimed at an entry of a collection of `n`. */
  predicate TargetsBelow(tws: seq<Tween>, n: nat) {
    forall i :: 0 <= i < |tws| ==> tws[i].target.id < n
  }

  /** Tweens appended for entries of the collection keep every tween aimed inside it. */
  lemma GrowsBelow(a: seq<Tween>, b: seq<Tween>, ids: seq<nat>, n: nat)
    requires Grows(a, b, ids) && TargetsBelow(a, n)
    requires forall k :: 0 <= k < |ids| ==> ids[k] < n
    ensures TargetsBelow(b, n)
  {
    forall i | 0 <= i < |b| ensures b[i].target.id < n {
      if i < |a| {
        assert b[i] == a[i];
      }
    }
  }

  /** The state when the page starts: nothing focused, nothing saved, no tweens. */
  function Init(items: seq<Entry>): (st: State)
    ensures Inv(st)
    ensures !st.focusMode && st.saved == map[] && st.tweens == []
  {
    State(items, false, None, [], map[], [])
  }

  /** `isFocusMode()` */
  function IsFocusMode(st: State): (r: bool)
    requires Inv(st)
    ensures r <==> st.focused.Some?
    ensures !r ==> st.ring == []
  {
    st.focusMode
  }

  /** `saved` keeps every snapshot of `before` unchanged (snapshots are never dropped or rewritten). */
  predicate Extends(before: map<nat, Snapshot>, after: map<nat, Snapshot>) {
    forall k :: k in before ==> k in after && after[k] == before[k]
  }

  // ------------------------------------------------------------------
  // snapshots

  function Capture(m: Mesh): (s: Snapshot)
    ensures s.position == m.position && s.quaternion == m.quaternion && s.scale == m.scale
    ensures s.opacity == if m.material.hasOpacity then m.material.opacity else 1.0
    ensures s.renderOrder == m.renderOrder
  {
    Snapshot(m.position, m.quaternion, m.scale,
      if m.material.hasOpacity then m.material.opacity else 1.0,
      m.renderOrder)
  }

  /** `saveOriginal(mesh)`: the first snapshot of a sprite wins. */
  function SaveOriginal(saved: map<nat, Snapshot>, items: seq<Entry>, id: nat): (r: map<nat, Snapshot>)
    requires id < |items|
    ensures id in r
    ensures Extends(saved, r)
    ensures r.Keys == saved.Keys + {id}
    ensures id in saved ==> r == saved
    ensures id !in saved ==> r[id] == Capture(items[id].mesh)
  {
    if id in saved then saved else saved[id := Capture(items[id].mesh)]
  }

  /** Saving twice keeps the first snapshot, whatever happened to the sprite in between. */
  lemma SaveOriginalFirstWins(saved: map<nat, Snapshot>, items: seq<Entry>, later: seq<Entry>, id: nat)
    requires id < |items| && id < |later|
    ensures SaveOriginal(SaveOriginal(saved, items, id), later, id) == SaveOriginal(saved, items, id)
  {
  }

  /** The sprite after `restoreOriginal` wrote its snapshot's orientation, opacity and render order. */
  function RestoredMesh(m: Mesh, s: Snapshot): (r: Mesh)
    ensures r.position == m.position && r.scale == m.scale
    ensures r.quaternion == s.quaternion && r.renderOrder == s.renderOrder
    ensures r.material == if m.material.hasOpacity then m.material.(opacity := s.opacity) else m.material
  {
    m.(quaternion := s.quaternion,
       material := if m.material.hasOpacity then m.material.(opacity := s.opacity) else m.material,
       renderOrder := s.renderOrder)
  }

  /** A position tween followed by a scale tween of one entry queues both full targets. */
  lemma QueuedPair(twPos: Tween, twScale: Tween, p: Vec3, s: Vec3, now: real)
    requires twPos.target.channel == Position && twScale.target == twPos.target.(channel := Scale)
    requires twPos.to == ToMap(p) && twScale.to == ToMap(s)
    requires twPos.t0 == now && twScale.t0 == now && twPos.ms == DefaultMs && twScale.ms == DefaultMs
    ensures Queued([twPos, twScale], twPos.target, p, now)
    ensures Queued([twPos, twScale], twScale.target, s, now)
  {
    var tws := [twPos, twScale];
    assert tws[..1] == [twPos];
    assert [twPos][..0] == [];
  }

  /**
   * A position tween followed by a scale tween of entry `id`, as both
   * `restoreOriginal` and `moveInFrontOfCamera` start them.
   */
  function TransformTweens(m: Mesh, id: nat, position: Vec3, scale: Vec3, now: real): (tws: seq<Tween>)
    ensures |tws| == 2 && AllValid(tws)
    ensures forall i :: 0 <= i < |tws| ==> tws[i].target.id == id
  {
    var twPos := Start(Target(id, Position), m.position, ToMap(position), now);
    var twScale := Start(Target(id, Scale), m.scale, ToMap(scale), now);
    [twPos, twScale]
  }

  /** The pair queues both full targets: the position first, then the scale. */
  lemma TransformTweensQueued(m: Mesh, id: nat, position: Vec3, scale: Vec3, now: real)
    ensures Queued(TransformTweens(m, id, position, scale, now), Target(id, Position), position, now)
    ensures Queued(TransformTweens(m, id, position, scale, now), Target(id, Scale), scale, now)
  {
    var twPos := Start(Target(id, Position), m.position, ToMap(position), now);
    var twScale := Start(Target(id, Scale), m.scale, ToMap(scale), now);
    QueuedPair(twPos, twScale, position, scale, now);
  }

  /** `restoreOriginal(mesh)`, applied to entry `id`. */
  function RestoreOriginal(st: State, id: nat, now: real): (r: State)
    requires id < |st.items| && AllValid(st.tweens)
    ensures id !in st.saved ==> r == st
    ensures r == st.(items := r.items, tweens := r.tweens)
    ensures |r.items| == |st.items|
    ensures forall j :: 0 <= j < |st.items| && j != id ==> r.items[j] == st.items[j]
    ensures AllValid(r.tweens)
    ensures Grows(st.tweens, r.tweens, [id])
    ensures id in st.saved ==>
      && r.items[id] == st.items[id].(mesh := RestoredMesh(st.items[id].mesh, st.saved[id]))
      && r.tweens == st.tweens + TransformTweens(st.items[id].mesh, id, st.saved[id].position, st.saved[id].scale, now)
  {
    if id !in st.saved then st
    else
      var s := st.saved[id];
      var m := st.items[id].mesh;
      var tws := TransformTweens(m, id, s.position, s.scale, now);
      AppendGrows(st.tweens, tws, [id]);
      st.(items := UpdateMesh(st.items, id, RestoredMesh(m, s)), tweens := st.tweens + tws)
  }

  lemma RestoredMeshIdempotent(m: Mesh, s: Snapshot)
    ensures RestoredMesh(RestoredMesh(m, s), s) == RestoredMesh(m, s)
  {
  }

  /**
   * Save then restore is a round trip: whatever happened to the sprite in
   * between, restoring its capture brings back its orientation and render
   * order, and its opacity when the material had and still has the channel.
   */
  lemma RestoreOfCapture(m: Mesh, later: Mesh)
    ensures var r := RestoredMesh(later, Capture(m));
      && r.quaternion == m.quaternion && r.renderOrder == m.renderOrder
      && (m.material.hasOpacity && later.material.hasOpacity ==> r.material.opacity == m.material.opacity)
      && (!m.material.hasOpacity && later.material.hasOpacity ==> r.material.opacity == 1.0)
      && r.position == later.position && r.scale == later.scale
  {
  }

  /**
   * `b` is `a` with tweens appended, each aimed at an entry listed in `ids`.
   */
  predicate Grows(a: seq<Tween>, b: seq<Tween>, ids: seq<nat>) {
    && |b| >= |a| && b[..|a|] == a
    && forall t :: |a| <= t < |b| ==> b[t].target.id in ids
  }

  lemma GrowsTrans(a: seq<Tween>, b: seq<Tween>, c: seq<Tween>, ids1: seq<nat>, ids2: seq<nat>)
    requires Grows(a, b, ids1) && Grows(b, c, ids2)
    ensures Grows(a, c, ids1 + ids2)
  {
    assert c[..|a|] == a by {
      assert c[..|b|] == b;
    }
    forall t | |a| <= t < |c| ensures c[t].target.id in ids1 + ids2 {
      if t < |b| {
        assert c[t] == b[t];
      }
    }
  }

  /** Appending a batch aimed at `ids` grows the active set by exactly that batch. */
  lemma AppendGrows(a: seq<Tween>, b: seq<Tween>, ids: seq<nat>)
    requires AllValid(a) && AllValid(b)
    requires forall i :: 0 <= i < |b| ==> b[i].target.id in ids
    ensures Grows(a, a + b, ids)
    ensures AllValid(a + b)
  {
    AllValidAppend(a, b);
    forall t | |a| <= t < |a + b| ensures (a + b)[t].target.id in ids {
      assert (a + b)[t] == b[t - |a|];
    }
  }

  /** Appending tweens aimed at other entries keeps what was queued for `t`. */
  lemma QueuedGrows(a: seq<Tween>, b: seq<Tween>, ids: seq<nat>, t: Target, v: Vec3, now: real)
    requires Grows(a, b, ids) && t.id !in ids
    requires Queued(a, t, v, now)
    ensures Queued(b, t, v, now)
  {
    var tail := b[|a|..];
    assert b == a + tail;
    forall i | 0 <= i < |tail| ensures tail[i].target != t {
      assert tail[i] == b[|a| + i];
    }
    QueuedAppend(a, tail, t, v, now);
  }

  lemma GrowsWider(a: seq<Tween>, b: seq<Tween>, ids: seq<nat>, wider: seq<nat>)
    requires Grows(a, b, ids)
    requires forall x :: x in ids ==> x in wider
    ensures Grows(a, b, wider)
  {
  }

  /** `ring.forEach(({ mesh }) => restoreOriginal(mesh))` */
  function RestoreAll(st: State, ids: seq<nat>, now: real): (r: State)
    requires AllValid(st.tweens)
    requires forall i :: 0 <= i < |ids| ==> ids[i] < |st.items|
    ensures r == st.(items := r.items, tweens := r.tweens)
    ensures |r.items| == |st.items|
    ensures AllValid(r.tweens)
    ensures Grows(st.tweens, r.tweens, ids)
    decreases |ids|
  {
    if |ids| == 0 then st
    else
      var s1 := RestoreOriginal(st, ids[0], now);
      var r := RestoreAll(s1, ids[1..], now);
      assert Grows(st.tweens, s1.tweens, [ids[0]]);
      GrowsTrans(st.tweens, s1.tweens, r.tweens, [ids[0]], ids[1..]);
      assert [ids[0]] + ids[1..] == ids;
      r
  }

  /**
   * After restoring `ids`, each listed entry with a snapshot carries the
   * snapshot's orientation, opacity and render order and has tweens queued
   * toward the snapshot's position and scale; every other entry is untouched.
   */
  lemma {:induction false} RestoreAllEffect(st: State, ids: seq<nat>, now: real, j: nat)
    requires AllValid(st.tweens)
    requires forall i :: 0 <= i < |ids| ==> ids[i] < |st.items|
    requires j < |st.items|
    ensures var r := RestoreAll(st, ids, now);
      if j in ids && j in st.saved then
        && r.items[j] == st.items[j].(mesh := RestoredMesh(st.items[j].mesh, st.saved[j]))
        && Queued(r.tweens, Target(j, Position), st.saved[j].position, now)
        && Queued(r.tweens, Target(j, Scale), st.saved[j].scale, now)
      else
        r.items[j] == st.items[j]
    decreases |ids|
  {
    if |ids| > 0 {
      var s1 := RestoreOriginal(st, ids[0], now);
      var r := RestoreAll(s1, ids[1..], now);
      RestoreAllEffect(s1, ids[1..], now, j);
      assert j in ids <==> j == ids[0] || j in ids[1..];
      if j in ids[1..] {
        if j in st.saved && j == ids[0] {
          RestoredMeshIdempotent(st.items[j].mesh, st.saved[j]);
        }
      } else if j == ids[0] && j in st.saved {
        var tws := TransformTweens(st.items[j].mesh, j, st.saved[j].position, st.saved[j].scale, now);
        TransformTweensQueued(st.items[j].mesh, j, st.saved[j].position, st.saved[j].scale, now);
        QueuedSuffix(st.tweens, tws, Target(j, Position), st.saved[j].position, now);
        QueuedSuffix(st.tweens, tws, Target(j, Scale), st.saved[j].scale, now);
        QueuedGrows(s1.tweens, r.tweens, ids[1..], Target(j, Position), st.saved[j].position, now);
        QueuedGrows(s1.tweens, r.tweens, ids[1..], Target(j, Scale), st.saved[j].scale, now);
      }
    }
  }

  // ------------------------------------------------------------------
  // relation and ring layout

  /** Entry `j` is another photo related to photo `p`. */
  predicate RelatedTo(items: seq<Entry>, p: nat, j: nat)
    requires p < |items|
  {
    j < |items| && j != p && IsRelated(items[p].record, items[j].record)
  }

  /**
   * The first related photos in collection order, at most `RelatedMax` of
   * them: no related photo is skipped before the last one taken.
   */
  ghost predicate FirstRelated(items: seq<Entry>, p: nat, ring: seq<nat>)
    requires p < |items|
  {
    && |ring| <= RelatedMax
    && Increasing(ring)
    && (forall i :: 0 <= i < |ring| ==> RelatedTo(items, p, ring[i]))
    && (forall j :: RelatedTo(items, p, j) && (|ring| < RelatedMax || j < ring[|ring| - 1]) ==> j in ring)
  }

  /** The filter's verdict on every photo of the collection. */
  function RelatedFlags(items: seq<Entry>, p: nat): (f: seq<bool>)
    requires p < |items|
    ensures |f| == |items|
    ensures forall j :: 0 <= j < |items| ==> (f[j] <==> RelatedTo(items, p, j))
  {
    seq(|items|, j requires 0 <= j < |items| => RelatedTo(items, p, j))
  }

  /** The indices from `i` on whose flag is set, in order. */
  function Selected(f: seq<bool>, i: nat): (r: seq<nat>)
    requires i <= |f|
    ensures forall k :: 0 <= k < |r| ==> i <= r[k] < |f| && f[r[k]]
    decreases |f| - i
  {
    if i == |f| then []
    else
      var rest := Selected(f, i + 1);
      if f[i] then [i] + rest else rest
  }

  lemma {:induction false} SelectedIncreasing(f: seq<bool>, i: nat)
    requires i <= |f|
    ensures Increasing(Selected(f, i))
    decreases |f| - i
  {
    if i < |f| {
      SelectedIncreasing(f, i + 1);
    }
  }

  lemma {:induction false} SelectedComplete(f: seq<bool>, i: nat)
    requires i <= |f|
    ensures forall j :: i <= j < |f| && f[j] ==> j in Selected(f, i)
    decreases |f| - i
  {
    if i < |f| {
      SelectedComplete(f, i + 1);
    }
  }

  /** `orbitImages.filter(o => o.mesh !== picked.mesh && isRelated(...))`, from index `i` on. */
  function RelatedFrom(items: seq<Entry>, p: nat, i: nat): (r: seq<nat>)
    requires p < |items| && i <= |items|
    ensures forall k :: 0 <= k < |r| ==> i <= r[k] < |items| && RelatedTo(items, p, r[k])
  {
    Selected(RelatedFlags(items, p), i)
  }

  /** The filter keeps collection order and misses no related photo. */
  lemma RelatedFromComplete(items: seq<Entry>, p: nat, i: nat)
    requires p < |items| && i <= |items|
    ensures Increasing(RelatedFrom(items, p, i))
    ensures forall j :: i <= j && RelatedTo(items, p, j) ==> j in RelatedFrom(items, p, i)
  {
    SelectedIncreasing(RelatedFlags(items, p), i);
    SelectedComplete(RelatedFlags(items, p), i);
  }

  /** `.slice(0, RELATED_MAX)` of the filtered collection. */
  function Related(items: seq<Entry>, p: nat): (r: seq<nat>)
    requires p < |items|
    ensures |r| <= RelatedMax && Increasing(r)
    ensures forall k :: 0 <= k < |r| ==> r[k] < |items| && r[k] != p
    ensures p !in r
  {
    var all := RelatedFrom(items, p, 0);
    SelectedIncreasing(RelatedFlags(items, p), 0);
    if |all| <= RelatedMax then all else all[..RelatedMax]
  }

  /** The ring is exactly the first related photos, in collection order. */
  lemma RelatedIsFirst(items: seq<Entry>, p: nat)
    requires p < |items|
    ensures FirstRelated(items, p, Related(items, p))
  {
    var all := RelatedFrom(items, p, 0);
    var r := Related(items, p);
    RelatedFromComplete(items, p, 0);
    if |all| > RelatedMax {
      forall j | RelatedTo(items, p, j) && j < r[|r| - 1] ensures j in r {
        var k :| 0 <= k < |all| && all[k] == j;
      }
    }
  }

  /** The angle of ring slot `i` of `count`: `(i / count) * 2 * PI`. */
  function RingAngle(i: nat, count: nat): real
    requires count > 0
  {
    ((i as real) / (count as real)) * Pi * 2.0
  }

  /** Ring slots are evenly spaced, the first at angle 0. */
  lemma RingAnglesEven(i: nat, count: nat)
    requires i < count
    ensures RingAngle(0, count) == 0.0
    ensures RingAngle(i + 1, count) - RingAngle(i, count) == 2.0 * Pi / count as real
    ensures 0.0 <= RingAngle(i, count) < 2.0 * Pi
  {
    var n := count as real;
    assert (i + 1) as real / n - i as real / n == 1.0 / n;
    assert i as real / n < 1.0;
  }

  /** `layoutRing(centerPos, count)` */
  function LayoutRing(center: Vec3, count: nat, trig: Trig): (r: seq<Vec3>)
    ensures |r| == count
    ensures forall i :: 0 <= i < count ==> r[i].y == center.y
    ensures forall i :: 0 <= i < count ==>
      && r[i].x - center.x == trig.cos(RingAngle(i, count)) * RingRadius
      && r[i].z - center.z == trig.sin(RingAngle(i, count)) * RingRadius
  {
    seq(count, i requires 0 <= i < count =>
      Vec3(center.x + trig.cos(RingAngle(i, count)) * RingRadius,
           center.y,
           center.z + trig.sin(RingAngle(i, count)) * RingRadius))
  }

  /** Every ring slot sits `RingRadius` from the centre in the horizontal plane. */
  lemma RingOnCircle(center: Vec3, count: nat, trig: Trig, i: nat)
    requires i < count
    requires UnitCircleAt(trig, RingAngle(i, count))
    ensures var q := LayoutRing(center, count, trig)[i];
      (q.x - center.x) * (q.x - center.x) + (q.z - center.z) * (q.z - center.z) == RingRadius * RingRadius
  {
    var c := trig.cos(RingAngle(i, count));
    var sn := trig.sin(RingAngle(i, count));
    assert (c * RingRadius) * (c * RingRadius) + (sn * RingRadius) * (sn * RingRadius)
        == (c * c + sn * sn) * (RingRadius * RingRadius);
  }

  // ------------------------------------------------------------------
  // focus helpers

  /**
   * `moveInFrontOfCamera(mesh)`: snapshot, tween to `FocusDistance` in front
   * of the camera and to 1.5 times the current scale, face the camera, and
   * take the top render order.
   */
  function MoveInFrontOfCamera(st: State, id: nat, view: View, now: real): (r: State)
    requires id < |st.items| && AllValid(st.tweens)
    ensures r == st.(items := r.items, saved := r.saved, tweens := r.tweens)
    ensures r.saved == SaveOriginal(st.saved, st.items, id)
    ensures |r.items| == |st.items|
    ensures forall j :: 0 <= j < |st.items| && j != id ==> r.items[j] == st.items[j]
    ensures r.items[id] == st.items[id].(mesh := st.items[id].mesh.(
      quaternion := view.lookAt(st.items[id].mesh.position, view.camera.position),
      renderOrder := FocusOrder))
    ensures AllValid(r.tweens)
    ensures Grows(st.tweens, r.tweens, [id])
  {
    var target := InFront(view.camera, FocusDistance);
    var m := st.items[id].mesh;
    var grown := Times(m.scale, FocusGrowth);
    var tws := TransformTweens(m, id, target, grown, now);
    AppendGrows(st.tweens, tws, [id]);
    var m' := m.(quaternion := view.lookAt(m.position, view.camera.position), renderOrder := FocusOrder);
    st.(items := UpdateMesh(st.items, id, m'),
        saved := SaveOriginal(st.saved, st.items, id),
        tweens := st.tweens + tws)
  }

  /** The two tweens `moveInFrontOfCamera` starts, in the order it starts them. */
  lemma MoveInFrontOfCameraTweens(st: State, id: nat, view: View, now: real)
    requires id < |st.items| && AllValid(st.tweens)
    ensures var m := st.items[id].mesh;
      MoveInFrontOfCamera(st, id, view, now).tweens
        == st.tweens + TransformTweens(m, id, InFront(view.camera, FocusDistance), Times(m.scale, FocusGrowth), now)
  {
  }

  /**
   * The `related.forEach((o, i) => ...)` loop from slot `i` on: snapshot the
   * member, tween it to its ring slot, face the camera, render order 8.
   */
  function PlaceRing(st: State, rel: seq<nat>, targets: seq<Vec3>, i: nat, view: View, now: real): (r: State)
    requires i <= |rel| <= |targets|
    requires forall k :: 0 <= k < |rel| ==> rel[k] < |st.items|
    requires AllValid(st.tweens)
    ensures r == st.(items := r.items, saved := r.saved, tweens := r.tweens)
    ensures |r.items| == |st.items|
    ensures Extends(st.saved, r.saved)
    ensures forall k :: i <= k < |rel| ==> rel[k] in r.saved
    ensures forall x :: x in r.saved ==> x in st.saved || x in rel[i..]
    ensures AllValid(r.tweens)
    ensures Grows(st.tweens, r.tweens, rel[i..])
    decreases |rel| - i
  {
    if i == |rel| then st
    else
      var o := rel[i];
      var m := st.items[o].mesh;
      var tw := Start(Target(o, Position), m.position, ToMap(targets[i]), now);
      AppendGrows(st.tweens, [tw], [o]);
      var m' := m.(quaternion := view.lookAt(m.position, view.camera.position), renderOrder := RingOrder);
      var s1 := st.(items := UpdateMesh(st.items, o, m'),
                    saved := SaveOriginal(st.saved, st.items, o),
                    tweens := st.tweens + [tw]);
      var r := PlaceRing(s1, rel, targets, i + 1, view, now);
      assert rel[i..] == [o] + rel[i + 1..];
      GrowsTrans(st.tweens, s1.tweens, r.tweens, [o], rel[i + 1..]);
      r
  }

  /** A single tween toward `v` on every axis queues `v`. */
  lemma QueuedSingle(tw: Tween, v: Vec3, now: real)
    requires tw.to == ToMap(v) && tw.t0 == now && tw.ms == DefaultMs
    ensures Queued([tw], tw.target, v, now)
  {
    assert [tw][..0] == [];
  }

  /** Ring placement leaves alone every entry it does not place. */
  lemma {:induction false} PlaceRingOther(st: State, rel: seq<nat>, targets: seq<Vec3>, i: nat, view: View, now: real, j: nat)
    requires i <= |rel| <= |targets|
    requires forall k :: 0 <= k < |rel| ==> rel[k] < |st.items|
    requires AllValid(st.tweens)
    requires j < |st.items| && j !in rel[i..]
    ensures PlaceRing(st, rel, targets, i, view, now).items[j] == st.items[j]
    decreases |rel| - i
  {
    if i < |rel| {
      assert rel[i..] == [rel[i]] + rel[i + 1..];
      var o := rel[i];
      var m := st.items[o].mesh;
      var tw := Start(Target(o, Position), m.position, ToMap(targets[i]), now);
      AppendGrows(st.tweens, [tw], [o]);
      var m' := m.(quaternion := view.lookAt(m.position, view.camera.position), renderOrder := RingOrder);
      var s1 := st.(items := UpdateMesh(st.items, o, m'),
                    saved := SaveOriginal(st.saved, st.items, o),
                    tweens := st.tweens + [tw]);
      PlaceRingOther(s1, rel, targets, i + 1, view, now, j);
    }
  }

  /**
   * Ring member `rel[k]` ends up facing the camera with render order 8, its
   * first snapshot taken before any change, and a tween queued toward slot `k`.
   */
  lemma {:induction false} PlaceRingMember(st: State, rel: seq<nat>, targets: seq<Vec3>, i: nat, view: View, now: real, k: nat)
    requires i <= k < |rel| <= |targets|
    requires forall x :: 0 <= x < |rel| ==> rel[x] < |st.items|
    requires Increasing(rel)
    requires AllValid(st.tweens)
    ensures var r := PlaceRing(st, rel, targets, i, view, now);
      var o := rel[k];
      var m := st.items[o].mesh;
      && r.items[o] == st.items[o].(mesh := m.(
           quaternion := view.lookAt(m.position, view.camera.position), renderOrder := RingOrder))
      && r.saved[o] == (if o in st.saved then st.saved[o] else Capture(m))
      && Queued(r.tweens, Target(o, Position), targets[k], now)
    decreases |rel| - i
  {
    var o := rel[i];
    var m := st.items[o].mesh;
    var tw := Start(Target(o, Position), m.position, ToMap(targets[i]), now);
    AppendGrows(st.tweens, [tw], [o]);
    var m' := m.(quaternion := view.lookAt(m.position, view.camera.position), renderOrder := RingOrder);
    var s1 := st.(items := UpdateMesh(st.items, o, m'),
                  saved := SaveOriginal(st.saved, st.items, o),
                  tweens := st.tweens + [tw]);
    var r := PlaceRing(s1, rel, targets, i + 1, view, now);
    assert r == PlaceRing(st, rel, targets, i, view, now);
    if k == i {
      assert o !in rel[i + 1..] by {
        forall x | i + 1 <= x < |rel| ensures rel[x] != o {
          assert rel[i] < rel[x];
        }
      }
      PlaceRingOther(s1, rel, targets, i + 1, view, now, o);
      QueuedSingle(tw, targets[i], now);
      QueuedSuffix(st.tweens, [tw], Target(o, Position), targets[i], now);
      QueuedGrows(s1.tweens, r.tweens, rel[i + 1..], Target(o, Position), targets[i], now);
    } else {
      assert rel[i] < rel[k];
      PlaceRingMember(s1, rel, targets, i + 1, view, now, k);
    }
  }

  /** One sprite of `dimAllExcept(keep)`. */
  function Dimmed(e: Entry, kept: bool): (r: Entry)
    ensures !e.mesh.material.hasOpacity ==> r == e
    ensures e.mesh.material.hasOpacity ==>
      r == e.(mesh := e.mesh.(material := e.mesh.material.(
        opacity := if kept then 1.0 else DimAlpha, transparent := true, depthWrite := false)))
  {
    var mat := e.mesh.material;
    if !mat.hasOpacity then e
    else e.(mesh := e.mesh.(material := mat.(
      transparent := true, depthWrite := false, opacity := if kept then 1.0 else DimAlpha)))
  }

  /**
   * `dimAllExcept(keep)`: every sprite with an opacity channel becomes
   * transparent without depth writes, fully opaque if kept and at
   * `DimAlpha` otherwise; sprites without the channel are left alone.
   */
  function DimAllExcept(items: seq<Entry>, keep: seq<nat>): (r: seq<Entry>)
    ensures |r| == |items|
    ensures forall j :: 0 <= j < |items| ==> r[j] == Dimmed(items[j], j in keep)
    ensures forall j :: 0 <= j < |items| && !items[j].mesh.material.hasOpacity ==> r[j] == items[j]
    ensures forall j :: 0 <= j < |items| && items[j].mesh.material.hasOpacity ==>
      && r[j].mesh.material.opacity == (if j in keep then 1.0 else DimAlpha)
      && r[j].mesh.material.transparent && !r[j].mesh.material.depthWrite
      && r[j] == items[j].(mesh := items[j].mesh.(material := r[j].mesh.material))
      && r[j].mesh.material == items[j].mesh.material.(
           opacity := r[j].mesh.material.opacity, transparent := true, depthWrite := false)
  {
    seq(|items|, j requires 0 <= j < |items| => Dimmed(items[j], j in keep))
  }

  /** One sprite of `undimAll()`. */
  function Undimmed(e: Entry, snap: Option<Snapshot>): (r: Entry)
    ensures r == e.(mesh := e.mesh.(material := r.mesh.material))
    ensures r.mesh.material == e.mesh.material.(opacity := r.mesh.material.opacity, depthWrite := true)
    ensures !e.mesh.material.hasOpacity ==> r.mesh.material.opacity == e.mesh.material.opacity
    ensures e.mesh.material.hasOpacity && snap.Some? ==> r.mesh.material.opacity == snap.value.opacity
    ensures e.mesh.material.hasOpacity && snap.None? ==> r.mesh.material.opacity == 1.0
  {
    var mat := e.mesh.material;
    var opacity := if !mat.hasOpacity then mat.opacity else if snap.Some? then snap.value.opacity else 1.0;
    e.(mesh := e.mesh.(material := mat.(opacity := opacity, depthWrite := true)))
  }

  function SnapshotOf(saved: map<nat, Snapshot>, j: nat): (r: Option<Snapshot>)
    ensures r.Some? <==> j in saved
    ensures r.Some? ==> r.value == saved[j]
  {
    if j in saved then Some(saved[j]) else None
  }

  /**
   * `undimAll()`: a sprite with an opacity channel gets back its snapshot
   * opacity, or 1 when it has none; every sprite writes depth again.
   */
  function UndimAll(items: seq<Entry>, saved: map<nat, Snapshot>): (r: seq<Entry>)
    ensures |r| == |items|
    ensures forall j :: 0 <= j < |items| ==> r[j] == Undimmed(items[j], SnapshotOf(saved, j))
    ensures forall j :: 0 <= j < |items| ==>
      && r[j].mesh.material.depthWrite
      && r[j] == items[j].(mesh := items[j].mesh.(material := r[j].mesh.material))
      && r[j].mesh.material == items[j].mesh.material.(opacity := r[j].mesh.material.opacity, depthWrite := true)
    ensures forall j :: 0 <= j < |items| && items[j].mesh.material.hasOpacity ==>
      r[j].mesh.material.opacity == (if j in saved then saved[j].opacity else 1.0)
    ensures forall j :: 0 <= j < |items| && !items[j].mesh.material.hasOpacity ==> r[j] == items[j].(
      mesh := items[j].mesh.(material := items[j].mesh.material.(depthWrite := true)))
  {
    seq(|items|, j requires 0 <= j < |items| => Undimmed(items[j], SnapshotOf(saved, j)))
  }

  /**
   * Undimming erases any dimming, whatever was kept: after
   * `dimAllExcept(keep)` and `undimAll()` a sprite is as if it had only been
   * undimmed, except that a sprite with an opacity channel stays transparent.
   */
  lemma UndimAfterDim(items: seq<Entry>, keep: seq<nat>, saved: map<nat, Snapshot>, j: nat)
    requires j < |items|
    ensures var d := UndimAll(DimAllExcept(items, keep), saved)[j];
      var u := UndimAll(items, saved)[j];
      && (items[j].mesh.material.hasOpacity ==>
            d == u.(mesh := u.mesh.(material := u.mesh.material.(transparent := true))))
      && (!items[j].mesh.material.hasOpacity ==> d == u)
  {
  }

  // ------------------------------------------------------------------
  // transitions

  /** The entries a focus owns: the ring, then the focused photo. */
  function Owned(st: State): seq<nat> {
    st.ring + (if st.focused.Some? then [st.focused.value] else [])
  }

  /** In a reachable state every photo the focus owns can be restored. */
  lemma OwnedAreSaved(st: State)
    requires Inv(st)
    ensures forall x :: x in Owned(st) ==> x in st.saved
  {
  }

  lemma OwnedInRange(st: State)
    requires Inv(st)
    ensures forall k :: 0 <= k < |Owned(st)| ==> Owned(st)[k] < |st.items|
  {
  }

  /**
   * `clearFocus()`: a no-op when nothing is focused; otherwise leave focus
   * mode, restore the ring members and then the focused photo, empty the
   * ring, and undim every sprite.
   */
  function ClearFocus(st: State, now: real): (r: State)
    requires Inv(st)
    ensures Inv(r)
    ensures !st.focusMode ==> r == st
    ensures !r.focusMode && r.focused.None? && r.ring == []
    ensures r.saved == st.saved
    ensures |r.items| == |st.items|
    ensures Grows(st.tweens, r.tweens, Owned(st))
  {
    if !st.focusMode then st
    else
      // focusMode implies a focused photo, so the source's `if (focused)` always holds here
      var f := st.focused.value;
      var s1 := RestoreAll(st.(focusMode := false), st.ring, now).(ring := []);
      var s2 := RestoreOriginal(s1, f, now).(focused := None);
      GrowsTrans(st.tweens, s1.tweens, s2.tweens, st.ring, [f]);
      var r := s2.(items := UndimAll(s2.items, s2.saved));
      GrowsBelow(st.tweens, r.tweens, Owned(st), |r.items|);
      r
  }

  /** What `clearFocus()` does to one entry, before the tweens run. */
  function Cleared(st: State, j: nat): Entry
    requires j < |st.items|
  {
    var e := st.items[j];
    var base := if j in Owned(st) && j in st.saved then e.(mesh := RestoredMesh(e.mesh, st.saved[j])) else e;
    Undimmed(base, SnapshotOf(st.saved, j))
  }

  /**
   * Clearing restores orientation, render order and opacity of every owned
   * entry that has a snapshot, undims every entry, and queues the owned
   * entries' tweens back toward their snapshot position and scale.
   */
  lemma ClearFocusEffect(st: State, now: real, j: nat)
    requires Inv(st) && st.focusMode
    requires j < |st.items|
    ensures ClearFocus(st, now).items[j] == Cleared(st, j)
    ensures j in Owned(st) && j in st.saved ==>
      && Queued(ClearFocus(st, now).tweens, Target(j, Position), st.saved[j].position, now)
      && Queued(ClearFocus(st, now).tweens, Target(j, Scale), st.saved[j].scale, now)
  {
    var f := st.focused.value;
    var s0 := st.(focusMode := false);
    var s1 := RestoreAll(s0, st.ring, now).(ring := []);
    var s2 := RestoreOriginal(s1, f, now).(focused := None);
    RestoreAllEffect(s0, st.ring, now, j);
    assert j in Owned(st) <==> j in st.ring || j == f;
    if j == f && j in st.saved {
      var tws := TransformTweens(s1.items[f].mesh, f, st.saved[f].position, st.saved[f].scale, now);
      TransformTweensQueued(s1.items[f].mesh, f, st.saved[f].position, st.saved[f].scale, now);
      QueuedSuffix(s1.tweens, tws, Target(f, Position), st.saved[f].position, now);
      QueuedSuffix(s1.tweens, tws, Target(f, Scale), st.saved[f].scale, now);
    } else if j in st.ring && j in st.saved {
      QueuedGrows(s1.tweens, s2.tweens, [f], Target(j, Position), st.saved[j].position, now);
      QueuedGrows(s1.tweens, s2.tweens, [f], Target(j, Scale), st.saved[j].scale, now);
    }
  }

  /**
   * One tween duration after `clearFocus()`, an owned entry with a snapshot
   * is back exactly at its snapshot, and writes depth again.
   */
  lemma ClearFocusRestores(st: State, now: real, later: real, j: nat)
    requires Inv(st) && st.focusMode
    requires j < |st.items| && j in Owned(st)
    requires later >= now + DefaultMs
    ensures var r := ClearFocus(st, now);
      var m := Run(r.items, r.tweens, later)[j].mesh;
      var s := st.saved[j];
      && m.position == s.position && m.scale == s.scale
      && m.quaternion == s.quaternion && m.renderOrder == s.renderOrder
      && (m.material.hasOpacity ==> m.material.opacity == s.opacity)
      && m.material.depthWrite
  {
    var r := ClearFocus(st, now);
    OwnedAreSaved(st);
    ClearFocusEffect(st, now, j);
    Settles(r.items, r.tweens, Target(j, Position), st.saved[j].position, now, later);
    Settles(r.items, r.tweens, Target(j, Scale), st.saved[j].scale, now, later);
    RunOnlyTransforms(r.items, r.tweens, later, j);
  }

  /** The ring slots for `count` related photos, centred where the focused photo goes. */
  function RingTargets(view: View, count: nat): (r: seq<Vec3>)
    ensures |r| == if count == 0 then 1 else count
  {
    LayoutRing(InFront(view.camera, FocusDistance), if count == 0 then 1 else count, view.trig)
  }

  /**
   * A step that keeps the focus fields and the number of entries, and only
   * appends tweens aimed at entries, keeps the shape of the state.
   */
  lemma InvKept(a: State, b: State, ids: seq<nat>)
    requires Shape(a)
    requires b.focusMode == a.focusMode && b.focused == a.focused && b.ring == a.ring
    requires |b.items| == |a.items|
    requires AllValid(b.tweens) && Grows(a.tweens, b.tweens, ids)
    requires forall k :: 0 <= k < |ids| ==> ids[k] < |a.items|
    ensures Shape(b)
  {
    GrowsBelow(a.tweens, b.tweens, ids, |a.items|);
  }

  /**
   * The start of `focusImage(picked)`: enter focus mode on `p`, bring it in
   * front of the camera, and pick its ring.
   */
  function Enter(st: State, p: nat, view: View, now: real): (r: State)
    requires Inv(st) && p < |st.items|
    ensures Shape(r) && p in r.saved
    ensures r.focused == Some(p)
    ensures r.ring == Related(st.items, p)
    ensures |r.items| == |st.items|
    ensures r.saved == SaveOriginal(st.saved, st.items, p)
    ensures Grows(st.tweens, r.tweens, [p])
  {
    var s1 := MoveInFrontOfCamera(st.(focusMode := true, focused := Some(p)), p, view, now);
    GrowsBelow(st.tweens, s1.tweens, [p], |st.items|);
    s1.(ring := Related(st.items, p))
  }

  /**
   * The first half of `focusImage(picked)`: enter focus mode on `p`, bring
   * it in front of the camera, and move its first related photos onto a
   * ring around it.
   */
  function Gather(st: State, p: nat, view: View, now: real): (r: State)
    requires Inv(st) && p < |st.items|
    ensures Inv(r)
    ensures r.focused == Some(p)
    ensures r.ring == Related(st.items, p)
    ensures |r.items| == |st.items|
    ensures Extends(st.saved, r.saved)
    ensures forall x :: x in r.saved <==> x in st.saved || x == p || x in r.ring
    ensures Grows(st.tweens, r.tweens, [p] + r.ring)
  {
    var s1 := Enter(st, p, view, now);
    var related := s1.ring;
    var s2 := PlaceRing(s1, related, RingTargets(view, |related|), 0, view, now);
    assert related[0..] == related;
    InvKept(s1, s2, related);
    GrowsTrans(st.tweens, s1.tweens, s2.tweens, [p], related);
    s2
  }

  /** Rewriting the sprites' looks, and nothing else, keeps the invariant. */
  lemma InvWithItems(st: State, items: seq<Entry>)
    requires Inv(st) && |items| == |st.items|
    ensures Inv(st.(items := items))
  {
  }

  /**
   * `focusImage(picked)`: enter focus mode on `p`, bring it in front of the
   * camera, gather its first related photos into a ring around it, and dim
   * every other sprite.
   */
  function FocusImage(st: State, p: nat, view: View, now: real): (r: State)
    requires Inv(st) && p < |st.items|
    ensures Inv(r)
    ensures r.focusMode && r.focused == Some(p)
    ensures r.ring == Related(st.items, p)
    ensures |r.items| == |st.items|
    ensures Extends(st.saved, r.saved)
    ensures Grows(st.tweens, r.tweens, [p] + r.ring)
  {
    var s := Gather(st, p, view, now);
    InvWithItems(s, DimAllExcept(s.items, [p] + s.ring));
    s.(items := DimAllExcept(s.items, [p] + s.ring))
  }

  /** A photo facing the camera with the given render order. */
  function Facing(e: Entry, view: View, order: int): Entry {
    e.(mesh := e.mesh.(quaternion := view.lookAt(e.mesh.position, view.camera.position), renderOrder := order))
  }

  /** What gathering the ring around `p` does to entry `j`. */
  function Placed(st: State, p: nat, view: View, j: nat): Entry
    requires p < |st.items| && j < |st.items|
  {
    if j == p then Facing(st.items[j], view, FocusOrder)
    else if j in Related(st.items, p) then Facing(st.items[j], view, RingOrder)
    else st.items[j]
  }

  /**
   * Gathering turns `p` to the camera at render order 9 and the ring members
   * at render order 8, leaves every other entry alone, and snapshots the
   * focused photo and the ring as they were before anything changed.
   */
  lemma GatherEffect(st: State, p: nat, view: View, now: real, j: nat)
    requires Inv(st) && p < |st.items| && j < |st.items|
    ensures var r := Gather(st, p, view, now);
      && r.items[j] == Placed(st, p, view, j)
      && (j == p || j in r.ring ==>
            r.saved[j] == if j in st.saved then st.saved[j] else Capture(st.items[j].mesh))
  {
    var s1 := MoveInFrontOfCamera(st.(focusMode := true, focused := Some(p)), p, view, now);
    var related := Related(st.items, p);
    var targets := RingTargets(view, |related|);
    var s1' := s1.(ring := related);
    assert related[0..] == related;
    if j in related {
      var k :| 0 <= k < |related| && related[k] == j;
      PlaceRingMember(s1', related, targets, 0, view, now, k);
    } else {
      PlaceRingOther(s1', related, targets, 0, view, now, j);
    }
  }

  /**
   * After `focusImage(p)` the focused photo and its ring are fully opaque and
   * every other sprite with an opacity channel is dimmed.
   */
  lemma FocusImageEffect(st: State, p: nat, view: View, now: real, j: nat)
    requires Inv(st) && p < |st.items| && j < |st.items|
    ensures var r := FocusImage(st, p, view, now);
      r.items[j] == Dimmed(Placed(st, p, view, j), j == p || j in r.ring)
  {
    var s := Gather(st, p, view, now);
    GatherEffect(st, p, view, now, j);
    assert (j in [p] + s.ring) == (j == p || j in s.ring);
  }

  /**
   * `focusImage(p)` snapshots exactly the focused photo and its ring, each as
   * it was before anything changed, unless it already had a snapshot.
   */
  lemma FocusImageSnapshots(st: State, p: nat, view: View, now: real, j: nat)
    requires Inv(st) && p < |st.items| && j < |st.items|
    ensures var r := FocusImage(st, p, view, now);
      && (j in r.saved <==> j in st.saved || j == p || j in r.ring)
      && (j == p || j in r.ring ==>
            r.saved[j] == if j in st.saved then st.saved[j] else Capture(st.items[j].mesh))
  {
    GatherEffect(st, p, view, now, j);
  }

  /**
   * Focusing `p` queues its tweens to `FocusDistance` in front of the camera
   * and to `FocusGrowth` times its scale, and queues ring member `k` toward
   * ring slot `k`.
   */
  lemma FocusImageTweens(st: State, p: nat, view: View, now: real)
    requires Inv(st) && p < |st.items|
    ensures var r := FocusImage(st, p, view, now);
      && Queued(r.tweens, Target(p, Position), InFront(view.camera, FocusDistance), now)
      && Queued(r.tweens, Target(p, Scale), Times(st.items[p].mesh.scale, FocusGrowth), now)
      && forall k :: 0 <= k < |r.ring| ==>
           Queued(r.tweens, Target(r.ring[k], Position), RingTargets(view, |r.ring|)[k], now)
  {
    var s0 := st.(focusMode := true, focused := Some(p));
    var s1 := MoveInFrontOfCamera(s0, p, view, now);
    var related := Related(st.items, p);
    var targets := RingTargets(view, |related|);
    var s1' := s1.(ring := related);
    var r := PlaceRing(s1', related, targets, 0, view, now);
    assert related[0..] == related;
    var m := st.items[p].mesh;
    MoveInFrontOfCameraTweens(s0, p, view, now);
    var tws := TransformTweens(m, p, InFront(view.camera, FocusDistance), Times(m.scale, FocusGrowth), now);
    TransformTweensQueued(m, p, InFront(view.camera, FocusDistance), Times(m.scale, FocusGrowth), now);
    QueuedSuffix(st.tweens, tws, Target(p, Position), InFront(view.camera, FocusDistance), now);
    QueuedSuffix(st.tweens, tws, Target(p, Scale), Times(m.scale, FocusGrowth), now);
    QueuedGrows(s1.tweens, r.tweens, related, Target(p, Position), InFront(view.camera, FocusDistance), now);
    QueuedGrows(s1.tweens, r.tweens, related, Target(p, Scale), Times(m.scale, FocusGrowth), now);
    forall k | 0 <= k < |related|
      ensures Queued(r.tweens, Target(related[k], Position), targets[k], now)
    {
      PlaceRingMember(s1', related, targets, 0, view, now, k);
    }
  }

  // ------------------------------------------------------------------
  // records and the ring

  /** Two collections hold the same records in the same order. */
  predicate SameRecords(a: seq<Entry>, b: seq<Entry>) {
    |a| == |b| && forall j :: 0 <= j < |a| ==> a[j].record == b[j].record
  }

  /** Which photos are related depends on the records alone, not on the sprites. */
  lemma RelatedFromRecords(a: seq<Entry>, b: seq<Entry>, p: nat, i: nat)
    requires SameRecords(a, b) && p < |a| && i <= |a|
    ensures RelatedFrom(a, p, i) == RelatedFrom(b, p, i)
  {
    assert RelatedFlags(a, p) == RelatedFlags(b, p);
  }

  lemma RelatedFromSameRecords(a: seq<Entry>, b: seq<Entry>, p: nat)
    requires SameRecords(a, b) && p < |a|
    ensures Related(a, p) == Related(b, p)
  {
    RelatedFromRecords(a, b, p, 0);
  }

  /** Clearing the focus changes sprites only, never the records behind them. */
  lemma ClearFocusKeepsRecords(st: State, now: real)
    requires Inv(st)
    ensures SameRecords(st.items, ClearFocus(st, now).items)
  {
    if st.focusMode {
      forall j | 0 <= j < |st.items| ensures ClearFocus(st, now).items[j].record == st.items[j].record {
        ClearFocusEffect(st, now, j);
      }
    }
  }

  // ------------------------------------------------------------------
  // input handlers

  /**
   * One object the click ray crosses: a photo's sprite, or some descendant
   * object of photo `of` (the ray cast is recursive).
   */
  datatype Hit = Sprite(id: nat) | Child(of: nat)

  function Owner(h: Hit): nat {
    match h
    case Sprite(id) => id
    case Child(of) => of
  }

  /**
   * The sprites a click may hit: every photo outside focus mode, only the
   * focused photo and its ring inside it.
   */
  predicate Allowed(st: State, id: nat) {
    id < |st.items| && (!st.focusMode || st.focused == Some(id) || id in st.ring)
  }

  /**
   * The position of the nearest object on the ray that belongs to an
   * allowed sprite, or `|ray|` when there is none. `ray` lists every object
   * the ray crosses, nearest first.
   */
  function FirstAllowed(st: State, ray: seq<Hit>): (k: nat)
    ensures k <= |ray|
    ensures forall i :: 0 <= i < k ==> !Allowed(st, Owner(ray[i]))
    ensures k < |ray| ==> Allowed(st, Owner(ray[k]))
    decreases |ray|
  {
    if |ray| == 0 then 0
    else if Allowed(st, Owner(ray[0])) then 0
    else 1 + FirstAllowed(st, ray[1..])
  }

  /** `raycaster.intersectObjects(allowedMeshes, true)[0]`, if there is one. */
  function FirstHit(st: State, ray: seq<Hit>): (r: Option<Hit>)
    ensures r.None? <==> forall i :: 0 <= i < |ray| ==> !Allowed(st, Owner(ray[i]))
    ensures r.Some? ==> Allowed(st, Owner(r.value))
  {
    var k := FirstAllowed(st, ray);
    if k < |ray| then Some(ray[k]) else None
  }

  /**
   * `onClick`: a click on empty space clears the focus; a click on a
   * descendant that is not itself a photo does nothing; a click on the
   * focused photo clears the focus; a click on a ring member moves the focus
   * to it; outside focus mode a click on a photo focuses it.
   */
  function OnClick(st: State, ray: seq<Hit>, view: View, now: real): (r: State)
    requires Inv(st)
    ensures Inv(r)
    ensures |r.items| == |st.items|
    ensures Extends(st.saved, r.saved)
    ensures SameRecords(st.items, r.items)
    ensures FirstHit(st, ray).None? ==> !r.focusMode
    ensures FirstHit(st, ray).Some? && FirstHit(st, ray).value.Child? ==> r == st
    ensures FirstHit(st, ray).Some? && FirstHit(st, ray).value.Sprite? ==>
      var id := FirstHit(st, ray).value.id;
      if st.focused == Some(id) then !r.focusMode
      else r.focused == Some(id) && r.ring == Related(st.items, id)
    // the transitions themselves: a miss or the focused photo clears, a ring
    // member is focused after an instant clear, any photo is focused from rest
    ensures FirstHit(st, ray).None? ==> r == ClearFocus(st, now)
    ensures FirstHit(st, ray).None? && !st.focusMode ==> r == st
    ensures FirstHit(st, ray).Some? && FirstHit(st, ray).value.Sprite? ==>
      var id := FirstHit(st, ray).value.id;
      && (st.focused == Some(id) ==> r == ClearFocus(st, now))
      && (st.focusMode && st.focused != Some(id) ==> id in st.ring && r == FocusImage(ClearFocus(st, now), id, view, now))
      && (!st.focusMode ==> r == FocusImage(st, id, view, now))
  {
    var hit := FirstHit(st, ray);
    if hit.None? then
      ClearFocusKeepsRecords(st, now);
      ClearFocus(st, now)
    else match hit.value
      case Child(_) => st
      case Sprite(id) =>
        if st.focused == Some(id) then
          ClearFocusKeepsRecords(st, now);
          ClearFocus(st, now)
        else if st.focusMode then
          var cleared := ClearFocus(st, now);
          ClearFocusKeepsRecords(st, now);
          RelatedFromSameRecords(st.items, cleared.items, id);
          var r := FocusImage(cleared, id, view, now);
          FocusImageKeepsRecords(cleared, id, view, now);
          r
        else
          FocusImageKeepsRecords(st, id, view, now);
          FocusImage(st, id, view, now)
  }

  /** Focusing changes sprites only, never the records behind them. */
  lemma FocusImageKeepsRecords(st: State, p: nat, view: View, now: real)
    requires Inv(st) && p < |st.items|
    ensures SameRecords(st.items, FocusImage(st, p, view, now).items)
  {
    forall j | 0 <= j < |st.items| ensures FocusImage(st, p, view, now).items[j].record == st.items[j].record {
      FocusImageRecord(st, p, view, now, j);
    }
  }

  lemma FocusImageRecord(st: State, p: nat, view: View, now: real, j: nat)
    requires Inv(st) && p < |st.items| && j < |st.items|
    ensures FocusImage(st, p, view, now).items[j].record == st.items[j].record
  {
    FocusImageEffect(st, p, view, now, j);
  }

  /** In focus mode, a photo hit other than the focused one is a ring member. */
  lemma PickedInRing(st: State, ray: seq<Hit>)
    requires Inv(st) && st.focusMode
    requires FirstHit(st, ray).Some? && FirstHit(st, ray).value.Sprite?
    requires st.focused != Some(FirstHit(st, ray).value.id)
    ensures FirstHit(st, ray).value.id in st.ring
  {
  }

  /** `onKey`: Escape clears the focus; every other key does nothing. */
  function OnKey(st: State, key: string, now: real): (r: State)
    requires Inv(st)
    ensures Inv(r)
    ensures key == "Escape" ==> !r.focusMode && r.saved == st.saved
    ensures key == "Escape" ==> r == ClearFocus(st, now)
    ensures key == "Escape" && !st.focusMode ==> r == st
    ensures key != "Escape" ==> r == st
  {
    if key == "Escape" then ClearFocus(st, now) else st
  }

  /**
   * `updateFocus(time)`: step every active tween and drop the finished ones;
   * the focus fields and the snapshots stay as they are.
   */
  function UpdateFocus(st: State, now: real): (r: State)
    requires Inv(st)
    ensures Inv(r)
    ensures r == st.(items := r.items, tweens := r.tweens)
    ensures r.items == Run(st.items, st.tweens, now)
    ensures forall tw :: tw in r.tweens <==> tw in st.tweens && !Done(tw, now)
  {
    var t := UpdateTweens(st.items, st.tweens, now);
    var r := st.(items := t.items, tweens := t.active);
    assert TargetsBelow(r.tweens, |r.items|) by {
      forall i | 0 <= i < |r.tweens| ensures r.tweens[i].target.id < |r.items| {
        assert r.tweens[i] in st.tweens;
      }
    }
    r
  }

  /**
   * `updateFocus` keeps the active set in insertion order, so a target
   * queued less than one duration ago is still the last one queued.
   */
  lemma UpdateFocusKeepsQueued(st: State, now: real, t: Target, v: Vec3, started: real)
    requires Inv(st)
    requires Queued(st.tweens, t, v, started) && now < started + DefaultMs
    ensures Queued(UpdateFocus(st, now).tweens, t, v, started)
  {
    QueuedRetire(st.tweens, t, v, started, now);
  }

  /** Photos the loader appends later keep the invariant. */
  lemma AppendKeepsInv(st: State, more: seq<Entry>)
    requires Inv(st)
    ensures Inv(st.(items := st.items + more))
  {
  }

  // ------------------------------------------------------------------
  // a worked example

  /** A photo at the origin whose record lists `people`. */
  function Photo(people: People): Entry {
    var mat := Material(true, 1.0, true, false, false, None);
    Entry(Mesh(Origin, IdentityQuat, Vec3(1.0, 1.0, 1.0), mat, 10), 0.0, None, 0.0, None, None, None,
          Record("photo.jpg", people), None, None, 0)
  }

  /**
   * Four photos with people {x}, {x, y}, {z}, {x}: focusing the first puts
   * the second and the fourth on its ring, in that order.
   */
  lemma RingOfSharedNames()
    ensures var items := [Photo(Object(["x"])), Photo(Object(["x", "y"])), Photo(Object(["z"])), Photo(Object(["x"]))];
      Related(items, 0) == [1, 3]
  {
    var items := [Photo(Object(["x"])), Photo(Object(["x", "y"])), Photo(Object(["z"])), Photo(Object(["x"]))];
    assert IsRelated(items[0].record, items[1].record) by {
      assert "x" in Keys(items[0].record.people) && "x" in Keys(items[1].record.people);
    }
    assert !IsRelated(items[0].record, items[2].record) by {
      assert Keys(items[2].record.people) == ["z"];
    }
    assert IsRelated(items[0].record, items[3].record) by {
      assert "x" in Keys(items[3].record.people);
    }
    var f := RelatedFlags(items, 0);
    assert f == [false, true, false, true];
    assert Selected(f, 4) == [];
    assert Selected(f, 3) == [3];
    assert Selected(f, 2) == [3];
    assert Selected(f, 1) == [1, 3];
  }

  /**
   * The same four photos as the loader stores them, with `people` as arrays:
   * every photo with at least one person joins the ring.
   */
  lemma RingOfLoadedArrays()
    ensures var items := [Photo(List(["x"])), Photo(List(["x", "y"])), Photo(List(["z"])), Photo(List(["x"]))];
      Related(items, 0) == [1, 2, 3]
  {
    var items := [Photo(List(["x"])), Photo(List(["x", "y"])), Photo(List(["z"])), Photo(List(["x"]))];
    NonEmptyListsAreRelated(items[0].record, items[1].record);
    NonEmptyListsAreRelated(items[0].record, items[2].record);
    NonEmptyListsAreRelated(items[0].record, items[3].record);
    var f := RelatedFlags(items, 0);
    assert f == [false, true, true, true];
    assert Selected(f, 4) == [];
    assert Selected(f, 3) == [3];
    assert Selected(f, 2) == [2, 3];
    assert Selected(f, 1) == [1, 2, 3];
  }
}
