/**
 * The tiny tween helper: a tween records, for each listed key of one
 * vector-valued property, the value when it started and the value it heads
 * for; every tick writes `from + (to - from) * ease(u)` for
 * `u = min(1, (now - t0) / ms)` and retires the tween once `u` reaches 1.
 *
 * The active set is a sequence in insertion order, the order in which a
 * JavaScript `Set` is iterated, so when two tweens write the same key in one
 * tick the later one wins.
 */
module Tweens {
  import opened Wrappers
  import opened Geometry
  import opened Gallery

  /** Default duration in milliseconds; every caller in the gallery uses it. */
  const DefaultMs: real := 600.0

  /** Cubic ease-out `1 - (1 - u)^3`, the default (and only used) easing. */
  function Ease(u: real): real {
    1.0 - (1.0 - u) * (1.0 - u) * (1.0 - u)
  }

  lemma CubeMonotone(a: real, b: real)
    requires 0.0 <= b <= a
    ensures b * b * b <= a * a * a
  {
    assert b * b <= a * a by {
      assert b * b <= a * b;
      assert a * b <= a * a;
    }
    assert b * b * b <= a * a * b;
    assert a * a * b <= a * a * a;
  }

  /** The easing starts at 0, ends at 1 and never decreases on the unit interval. */
  lemma EaseMonotone(u: real, v: real)
    requires 0.0 <= u <= v <= 1.0
    ensures Ease(0.0) == 0.0 && Ease(1.0) == 1.0
    ensures 0.0 <= Ease(u) <= Ease(v) <= 1.0
  {
    CubeMonotone(1.0 - u, 1.0 - v);
    CubeMonotone(1.0 - v, 0.0);
    CubeMonotone(1.0, 1.0 - u);
  }

  /** `Math.min(1, (now - t0) / ms)`; there is no lower clamp. */
  function Progress(now: real, t0: real, ms: real): (u: real)
    requires ms > 0.0
    ensures u <= 1.0
    ensures u == 1.0 <==> now >= t0 + ms
    ensures now >= t0 ==> u >= 0.0
  {
    var q := (now - t0) / ms;
    assert now >= t0 + ms <==> q >= 1.0 by {
      assert q * ms == now - t0;
    }
    assert now >= t0 ==> q >= 0.0;
    if q < 1.0 then q else 1.0
  }

  datatype Channel = Position | Scale

  /** The vector a tween writes into: the position or the scale of entry `id`. */
  datatype Target = Target(id: nat, channel: Channel)

  datatype Tween = Tween(target: Target, from: map<Axis, real>, to: map<Axis, real>, t0: real, ms: real) {
    predicate Valid() {
      ms > 0.0 && from.Keys == to.Keys
    }
  }

  predicate AllValid(tws: seq<Tween>) {
    forall i :: 0 <= i < |tws| ==> tws[i].Valid()
  }

  lemma AllValidAppend(a: seq<Tween>, b: seq<Tween>)
    requires AllValid(a) && AllValid(b)
    ensures AllValid(a + b)
  {
    forall i | 0 <= i < |a + b| ensures (a + b)[i].Valid() {
      if i < |a| {
        assert (a + b)[i] == a[i];
      } else {
        assert (a + b)[i] == b[i - |a|];
      }
    }
  }

  /** `tween(obj, to)` at time `now`: capture the current value of every listed key. */
  function Start(target: Target, current: Vec3, to: map<Axis, real>, now: real): (tw: Tween)
    ensures tw.Valid()
    ensures tw.target == target && tw.to == to && tw.t0 == now && tw.ms == DefaultMs
    ensures forall k :: k in to ==> tw.from[k] == Get(current, k)
  {
    Tween(target, map k | k in to :: Get(current, k), to, now, DefaultMs)
  }

  /** `u >= 1`: the tween has finished and leaves the active set this tick. */
  predicate Done(tw: Tween, now: real)
    requires tw.Valid()
  {
    Progress(now, tw.t0, tw.ms) >= 1.0
  }

  /** The value the tween writes for key `k` at time `now`. */
  function Interp(tw: Tween, k: Axis, now: real): real
    requires tw.Valid() && k in tw.to
  {
    tw.from[k] + (tw.to[k] - tw.from[k]) * Ease(Progress(now, tw.t0, tw.ms))
  }

  /** Once the duration has elapsed the written value is exactly the target. */
  lemma InterpAtEnd(tw: Tween, k: Axis, now: real)
    requires tw.Valid() && k in tw.to
    requires now >= tw.t0 + tw.ms
    ensures Done(tw, now)
    ensures Interp(tw, k, now) == tw.to[k]
  {
  }

  /** At its start the tween writes back the captured value. */
  lemma InterpAtStart(tw: Tween, k: Axis)
    requires tw.Valid() && k in tw.to
    ensures Interp(tw, k, tw.t0) == tw.from[k]
  {
  }

  /**
   * Between start and finish every written value lies between the start
   * and target values (the ease stays in [0, 1]).
   */
  lemma InterpBetween(tw: Tween, k: Axis, now: real)
    requires tw.Valid() && k in tw.to
    requires tw.t0 <= now
    ensures tw.from[k] <= tw.to[k] ==> tw.from[k] <= Interp(tw, k, now) <= tw.to[k]
    ensures tw.to[k] <= tw.from[k] ==> tw.to[k] <= Interp(tw, k, now) <= tw.from[k]
  {
    var u := Progress(now, tw.t0, tw.ms);
    EaseMonotone(u, 1.0);
    var e := Ease(u);
    var d := tw.to[k] - tw.from[k];
    if d >= 0.0 {
      assert 0.0 <= d * e <= d;
    } else {
      assert d <= d * e <= 0.0;
    }
  }

  /** `step(now)` applied to one vector: listed keys are written, others kept. */
  function StepVec(v: Vec3, tw: Tween, now: real): (r: Vec3)
    requires tw.Valid()
    ensures forall k: Axis :: k !in tw.to ==> Get(r, k) == Get(v, k)
    ensures forall k: Axis :: k in tw.to ==> Get(r, k) == Interp(tw, k, now)
  {
    Vec3(
      if X in tw.to then Interp(tw, X, now) else v.x,
      if Y in tw.to then Interp(tw, Y, now) else v.y,
      if Z in tw.to then Interp(tw, Z, now) else v.z)
  }

  function ChannelOf(m: Mesh, c: Channel): Vec3 {
    match c
    case Position => m.position
    case Scale => m.scale
  }

  function WithChannel(m: Mesh, c: Channel, v: Vec3): (r: Mesh)
    ensures ChannelOf(r, c) == v
  {
    match c
    case Position => m.(position := v)
    case Scale => m.(scale := v)
  }

  /** Entries differ at most in the position and scale of their sprites. */
  predicate SameButTransforms(a: Entry, b: Entry) {
    a == b.(mesh := b.mesh.(position := a.mesh.position, scale := a.mesh.scale))
  }

  /** One tween's `step(now)` applied to the collection. */
  function ApplyTween(items: seq<Entry>, tw: Tween, now: real): (r: seq<Entry>)
    requires tw.Valid()
    ensures |r| == |items|
    ensures forall j :: 0 <= j < |items| && j != tw.target.id ==> r[j] == items[j]
    ensures forall j :: 0 <= j < |items| ==> SameButTransforms(r[j], items[j])
    ensures tw.target.id < |items| ==>
      var m := items[tw.target.id].mesh;
      var c := tw.target.channel;
      && ChannelOf(r[tw.target.id].mesh, c) == StepVec(ChannelOf(m, c), tw, now)
      && (forall c' :: c' != c ==> ChannelOf(r[tw.target.id].mesh, c') == ChannelOf(m, c'))
  {
    var id := tw.target.id;
    if id < |items| then
      var m := items[id].mesh;
      var c := tw.target.channel;
      UpdateMesh(items, id, WithChannel(m, c, StepVec(ChannelOf(m, c), tw, now)))
    else
      items
  }

  /** Every active tween stepped in insertion order. */
  function Run(items: seq<Entry>, tws: seq<Tween>, now: real): (r: seq<Entry>)
    requires AllValid(tws)
    ensures |r| == |items|
    decreases |tws|
  {
    if |tws| == 0 then items
    else ApplyTween(Run(items, tws[..|tws| - 1], now), tws[|tws| - 1], now)
  }

  /** The tweens still running after this tick, in their original order. */
  function Retire(tws: seq<Tween>, now: real): (r: seq<Tween>)
    requires AllValid(tws)
    ensures AllValid(r)
    ensures |r| <= |tws|
    ensures forall tw :: tw in r <==> tw in tws && !Done(tw, now)
    decreases |tws|
  {
    if |tws| == 0 then []
    else
      var rest := Retire(tws[1..], now);
      assert forall tw :: tw in tws <==> tw == tws[0] || tw in tws[1..];
      if Done(tws[0], now) then rest else [tws[0]] + rest
  }

  /**
   * Retiring is a filter that keeps insertion order: the survivors of
   * `a + b` are those of `a` followed by those of `b`, and a single tween
   * survives exactly when it is not done.
   */
  lemma {:induction false} RetireAppend(a: seq<Tween>, b: seq<Tween>, now: real)
    requires AllValid(a) && AllValid(b)
    ensures AllValid(a + b)
    ensures Retire(a + b, now) == Retire(a, now) + Retire(b, now)
    ensures |b| == 1 ==> Retire(b, now) == if Done(b[0], now) then [] else b
    decreases |a|
  {
    AllValidAppend(a, b);
    if |b| == 1 {
      assert b[1..] == [];
    }
    if |a| > 0 {
      assert (a + b)[1..] == a[1..] + b;
      RetireAppend(a[1..], b, now);
    } else {
      assert a + b == b;
    }
  }

  /** The tween written last, in `tws`, to key `k` of `t`. */
  function LastFor(tws: seq<Tween>, t: Target, k: Axis): (r: Option<Tween>)
    ensures r.Some? ==> r.value in tws && r.value.target == t && k in r.value.to
    ensures r.None? ==> forall i :: 0 <= i < |tws| ==> !(tws[i].target == t && k in tws[i].to)
    decreases |tws|
  {
    if |tws| == 0 then None
    else
      var last := tws[|tws| - 1];
      if last.target == t && k in last.to then Some(last) else LastFor(tws[..|tws| - 1], t, k)
  }

  lemma {:induction false} LastForAppend(a: seq<Tween>, b: seq<Tween>, t: Target, k: Axis)
    ensures LastFor(a + b, t, k) == if LastFor(b, t, k).Some? then LastFor(b, t, k) else LastFor(a, t, k)
    decreases |b|
  {
    if |b| == 0 {
      assert a + b == a;
    } else {
      assert (a + b)[..|a + b| - 1] == a + b[..|b| - 1];
      LastForAppend(a, b[..|b| - 1], t, k);
    }
  }

  /**
   * Last writer wins: after a tick, key `k` of a target holds what the last
   * tween listing that key wrote, or its old value when no tween lists it.
   */
  lemma {:induction false} RunValue(items: seq<Entry>, tws: seq<Tween>, now: real, t: Target, k: Axis)
    requires AllValid(tws)
    requires t.id < |items|
    ensures var v := Get(ChannelOf(Run(items, tws, now)[t.id].mesh, t.channel), k);
      match LastFor(tws, t, k)
      case None => v == Get(ChannelOf(items[t.id].mesh, t.channel), k)
      case Some(tw) => v == Interp(tw, k, now)
    decreases |tws|
  {
    if |tws| > 0 {
      var pre := tws[..|tws| - 1];
      RunValue(items, pre, now, t, k);
    }
  }

  /** The tick leaves untouched every entry no tween targets. */
  lemma {:induction false} RunUntargeted(items: seq<Entry>, tws: seq<Tween>, now: real, j: nat)
    requires AllValid(tws)
    requires j < |items|
    requires forall i :: 0 <= i < |tws| ==> tws[i].target.id != j
    ensures Run(items, tws, now)[j] == items[j]
    decreases |tws|
  {
    if |tws| > 0 {
      RunUntargeted(items, tws[..|tws| - 1], now, j);
    }
  }

  /** The tick changes nothing but positions and scales. */
  lemma {:induction false} RunOnlyTransforms(items: seq<Entry>, tws: seq<Tween>, now: real, j: nat)
    requires AllValid(tws)
    requires j < |items|
    ensures SameButTransforms(Run(items, tws, now)[j], items[j])
    decreases |tws|
  {
    if |tws| > 0 {
      RunOnlyTransforms(items, tws[..|tws| - 1], now, j);
    }
  }

  /** Tweens started at `now` toward `v`, on every axis of `t`, are the last writers. */
  predicate Queued(tws: seq<Tween>, t: Target, v: Vec3, now: real) {
    forall k: Axis ::
      && LastFor(tws, t, k).Some?
      && LastFor(tws, t, k).value.to[k] == Get(v, k)
      && LastFor(tws, t, k).value.t0 == now
      && LastFor(tws, t, k).value.ms == DefaultMs
  }

  /** A queued target value is reached by any tick at least one duration later. */
  lemma Settles(items: seq<Entry>, tws: seq<Tween>, t: Target, v: Vec3, started: real, now: real)
    requires AllValid(tws)
    requires t.id < |items|
    requires Queued(tws, t, v, started)
    requires now >= started + DefaultMs
    ensures ChannelOf(Run(items, tws, now)[t.id].mesh, t.channel) == v
  {
    var r := ChannelOf(Run(items, tws, now)[t.id].mesh, t.channel);
    forall k: Axis ensures Get(r, k) == Get(v, k) {
      RunValue(items, tws, now, t, k);
      var tw := LastFor(tws, t, k).value;
      assert tw.Valid() by {
        var i :| 0 <= i < |tws| && tws[i] == tw;
      }
      InterpAtEnd(tw, k, now);
    }
    assert r.x == v.x && r.y == v.y && r.z == v.z by {
      assert Get(r, X) == Get(v, X);
      assert Get(r, Y) == Get(v, Y);
      assert Get(r, Z) == Get(v, Z);
    }
  }

  /** Queued targets survive appending tweens aimed elsewhere. */
  lemma QueuedAppend(a: seq<Tween>, b: seq<Tween>, t: Target, v: Vec3, now: real)
    requires Queued(a, t, v, now)
    requires forall i :: 0 <= i < |b| ==> b[i].target != t
    ensures Queued(a + b, t, v, now)
  {
    forall k: Axis ensures LastFor(a + b, t, k) == LastFor(a, t, k) {
      LastForAppend(a, b, t, k);
    }
  }

  /** Appending tweens that queue `v` for `t` makes `v` the queued target. */
  lemma QueuedSuffix(a: seq<Tween>, b: seq<Tween>, t: Target, v: Vec3, now: real)
    requires Queued(b, t, v, now)
    ensures Queued(a + b, t, v, now)
  {
    forall k: Axis ensures LastFor(a + b, t, k) == LastFor(b, t, k) {
      LastForAppend(a, b, t, k);
    }
  }

  /** The last writer of a key stays the last writer after retiring, as long as it is still running. */
  lemma {:induction false} LastForRetire(tws: seq<Tween>, now: real, t: Target, k: Axis)
    requires AllValid(tws)
    requires LastFor(tws, t, k).Some?
    requires var tw := LastFor(tws, t, k).value; tw.Valid() && !Done(tw, now)
    ensures LastFor(Retire(tws, now), t, k) == LastFor(tws, t, k)
    decreases |tws|
  {
    var pre := tws[..|tws| - 1];
    var last := tws[|tws| - 1];
    assert tws == pre + [last];
    RetireAppend(pre, [last], now);
    LastForAppend(Retire(pre, now), Retire([last], now), t, k);
    if !(last.target == t && k in last.to) {
      assert LastFor(tws, t, k) == LastFor(pre, t, k);
      assert LastFor(Retire([last], now), t, k).None?;
      LastForRetire(pre, now, t, k);
    }
  }

  /**
   * A target queued at `started` is still queued after a tick that comes
   * before its duration is up: the tick drops only finished tweens and keeps
   * the order, so the last writer stays the last writer across frames.
   */
  lemma QueuedRetire(tws: seq<Tween>, t: Target, v: Vec3, started: real, now: real)
    requires AllValid(tws)
    requires Queued(tws, t, v, started)
    requires now < started + DefaultMs
    ensures Queued(Retire(tws, now), t, v, started)
  {
    forall k: Axis ensures LastFor(Retire(tws, now), t, k) == LastFor(tws, t, k) {
      var tw := LastFor(tws, t, k).value;
      assert tw.Valid() by {
        var i :| 0 <= i < |tws| && tws[i] == tw;
      }
      LastForRetire(tws, now, t, k);
    }
  }

  datatype Tick = Tick(items: seq<Entry>, active: seq<Tween>)

  /**
   * `updateTweens(time)`: step every active tween in insertion order, then
   * drop those that reached `u >= 1`.
   */
  function UpdateTweens(items: seq<Entry>, tws: seq<Tween>, now: real): (r: Tick)
    requires AllValid(tws)
    ensures |r.items| == |items|
    ensures AllValid(r.active)
    ensures forall tw :: tw in r.active <==> tw in tws && !Done(tw, now)
    ensures forall tw :: tw in r.active ==> now < tw.t0 + tw.ms
    ensures forall tw :: tw in tws && now >= tw.t0 + tw.ms ==> tw !in r.active
  {
    Tick(Run(items, tws, now), Retire(tws, now))
  }
}
