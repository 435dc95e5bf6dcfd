/**
 * The logo orbits: two closed curves traced along the 3rd and 5th meshes of
 * the logo model counted from the top, smoothed by a wrap-around moving
 * average, and sampled by a normalised parameter.
 *
 * The spline itself (`CatmullRomCurve3.getPointAt`), the world matrices and
 * the bounding-box centres are library computations; they enter as values
 * and functions of the scene objects.
 */
module LogoPath {
  import opened Wrappers
  import opened Geometry
  import opened JsNum

  const Centripetal := "centripetal"
  const Tension := 0.05
  const ArcLengthDivisions := 2000
  /** Three.js's default arc-length table size for a new curve. */
  const DefaultArcLengthDivisions := 200
  const SmoothWindow := 12
  const MinVertices := 8
  const MinMeshes := 5
  /** `pickIndices`: the 3rd and 5th mesh from the top. */
  const PickIndices: seq<nat> := [2, 4]

  datatype Curve = Curve(
    points: seq<Vec3>,
    closed: bool,
    curveType: string,
    tension: real,
    arcLengthDivisions: nat)

  /**
   * One object of `model.traverse`: whether it is a mesh with a geometry,
   * its local vertex positions if the geometry has a position attribute,
   * its world matrix as a map on points, and the height of its world
   * bounding-box centre.
   */
  datatype SceneObject = SceneObject(
    isMesh: bool,
    hasGeometry: bool,
    positions: Option<seq<Vec3>>,
    toWorld: Vec3 -> Vec3,
    centerY: real)

  // ------------------------------------------------------------------
  // queries

  /** `hasLogoPath(index)`: curves are objects, so any stored one is truthy. */
  function HasLogoPath(paths: seq<Curve>, index: int): (r: bool)
    ensures r <==> 0 <= index < |paths|
  {
    0 <= index < |paths|
  }

  /**
   * `getPointOnLogoPath(t, { pathIndex, xOffset })`: nothing for a missing
   * orbit; otherwise the curve's point at the fractional part of `t`,
   * shifted by `xOffset` along x.
   */
  function GetPointOnLogoPath(paths: seq<Curve>, t: real, pathIndex: int, xOffset: real,
                              sample: (Curve, real) -> Vec3): (r: Option<Vec3>)
    ensures r.None? <==> !HasLogoPath(paths, pathIndex)
    ensures r.Some? ==>
      var p := sample(paths[pathIndex], t - t.Floor as real);
      r.value == Vec3(p.x + xOffset, p.y, p.z)
  {
    if !HasLogoPath(paths, pathIndex) then None
    else
      Wrap01IsFraction(t);
      var p := sample(paths[pathIndex], Wrap01(t));
      Some(Vec3(p.x + xOffset, p.y, p.z))
  }

  /** Sampling is periodic in `t` with period 1. */
  lemma PointPeriodic(paths: seq<Curve>, t: real, pathIndex: int, xOffset: real, sample: (Curve, real) -> Vec3)
    ensures GetPointOnLogoPath(paths, t + 1.0, pathIndex, xOffset, sample)
         == GetPointOnLogoPath(paths, t, pathIndex, xOffset, sample)
  {
    Wrap01IsFraction(t);
    Wrap01IsFraction(t + 1.0);
    Wrap01Periodic(t);
  }

  // ------------------------------------------------------------------
  // ordering the meshes from the top

  /**
   * `b.centerY - a.centerY` as a comparator under a stable sort: higher
   * centres first, equal centres in traversal order.
   */
  predicate Above(keys: seq<real>, a: nat, b: nat)
    requires a < |keys| && b < |keys|
  {
    keys[a] > keys[b] || (keys[a] == keys[b] && a < b)
  }

  predicate SortedFromTop(keys: seq<real>, s: seq<nat>) {
    && (forall i :: 0 <= i < |s| ==> s[i] < |keys|)
    && (forall i, j :: 0 <= i < j < |s| ==> Above(keys, s[i], s[j]))
  }

  /** Appending an index that every placed index is above keeps the order. */
  lemma SortedAppend(keys: seq<real>, s: seq<nat>, y: nat)
    requires SortedFromTop(keys, s) && y < |keys|
    requires forall i :: 0 <= i < |s| ==> Above(keys, s[i], y)
    ensures SortedFromTop(keys, s + [y])
  {
    var r := s + [y];
    forall i, j | 0 <= i < j < |r| ensures Above(keys, r[i], r[j]) {
      if j < |s| {
        assert r[i] == s[i] && r[j] == s[j];
      } else {
        assert r[i] == s[i] && r[j] == y;
      }
    }
  }

  /**
   * Insert index `x`, larger than every index already placed, behind every
   * index whose centre is at least as high.
   */
  function Insert(keys: seq<real>, s: seq<nat>, x: nat): (r: seq<nat>)
    requires x < |keys| && SortedFromTop(keys, s)
    requires forall i :: 0 <= i < |s| ==> s[i] < x
    ensures SortedFromTop(keys, r)
    ensures |r| == |s| + 1
    ensures forall y :: y in r <==> y in s || y == x
    decreases |s|
  {
    if |s| == 0 then [x]
    else
      var last := s[|s| - 1];
      var init := s[..|s| - 1];
      assert s == init + [last];
      if keys[last] >= keys[x] then
        assert forall i :: 0 <= i < |s| ==> Above(keys, s[i], x) by {
          forall i | 0 <= i < |s| ensures Above(keys, s[i], x) {
            if i < |s| - 1 {
              assert Above(keys, s[i], last);
            }
          }
        }
        SortedAppend(keys, s, x);
        s + [x]
      else
        assert SortedFromTop(keys, init) by {
          forall i, j | 0 <= i < j < |init| ensures Above(keys, init[i], init[j]) {
            assert init[i] == s[i] && init[j] == s[j];
          }
        }
        var front := Insert(keys, init, x);
        assert forall i :: 0 <= i < |front| ==> Above(keys, front[i], last) by {
          forall i | 0 <= i < |front| ensures Above(keys, front[i], last) {
            assert front[i] in front;
            if front[i] != x {
              var k :| 0 <= k < |init| && init[k] == front[i];
              assert s[k] == init[k];
            }
          }
        }
        SortedAppend(keys, front, last);
        front + [last]
  }

  /**
   * `meshes.sort((a, b) => b.centerY - a.centerY)` on the first `m`
   * indices: every index exactly once (the order is strict, so there are no
   * repeats), higher centres first.
   */
  function SortFromTop(keys: seq<real>, m: nat): (r: seq<nat>)
    requires m <= |keys|
    ensures |r| == m
    ensures SortedFromTop(keys, r)
    ensures forall y: nat :: y in r <==> y < m
  {
    if m == 0 then []
    else
      var s := SortFromTop(keys, m - 1);
      assert forall i :: 0 <= i < |s| ==> s[i] in s;
      Insert(keys, s, m - 1)
  }

  /** Sorted from the top means no index appears twice. */
  lemma SortedDistinct(keys: seq<real>, s: seq<nat>, i: nat, j: nat)
    requires SortedFromTop(keys, s) && i < j < |s|
    ensures s[i] != s[j]
  {
    assert Above(keys, s[i], s[j]);
  }

  /** The sort places every mesh. */
  lemma SortPlacesAll(keys: seq<real>, x: nat)
    requires x < |keys|
    ensures x in SortFromTop(keys, |keys|)
  {
  }

  /**
   * The sort is a ranking: the meshes above the one at position `k` are
   * exactly those placed before it, so position 2 holds the 3rd mesh from
   * the top and position 4 the 5th.
   */
  lemma SortRanks(keys: seq<real>, k: nat, x: nat)
    requires k < |keys| && x < |keys|
    ensures var order := SortFromTop(keys, |keys|);
      Above(keys, x, order[k]) <==> x in order[..k]
  {
    SortPlacesAll(keys, x);
    RankInSorted(keys, SortFromTop(keys, |keys|), k, x);
  }

  /** In a sequence sorted from the top, what comes before position `k` is what is above it. */
  lemma RankInSorted(keys: seq<real>, order: seq<nat>, k: nat, x: nat)
    requires SortedFromTop(keys, order) && k < |order| && x in order
    ensures Above(keys, x, order[k]) <==> x in order[..k]
  {
    var a :| 0 <= a < |order| && order[a] == x;
    if a < k {
      assert order[..k][a] == x;
      assert Above(keys, order[a], order[k]);
    } else {
      forall b | 0 <= b < k ensures order[..k][b] != x {
        assert Above(keys, order[b], order[a]);
      }
      if a > k {
        assert Above(keys, order[k], order[a]);
      }
    }
  }

  // ------------------------------------------------------------------
  // moving-average smoothing

  /** `(i + k + n) % n`: the neighbour `k` steps from `i` around the closed loop. */
  function WrapIndex(i: nat, k: int, n: nat): (j: nat)
    requires n > 0 && i + k + n >= 0
    ensures j < n
  {
    (i + k + n) % n
  }

  /**
   * The sum of the first `m` points of the window around `i`, that is of
   * the neighbours at offsets `-half`, ..., `-half + m - 1`.
   */
  function WindowSum(points: seq<Vec3>, i: nat, half: nat, m: nat): Vec3
    requires i < |points| && half <= |points| && m <= 2 * half + 1
  {
    if m == 0 then Origin
    else Add(WindowSum(points, i, half, m - 1), points[WrapIndex(i, m - 1 - half, |points|)])
  }

  /**
   * The moving average of `_smoothPoints(points, window)`: a list shorter
   * than the window is kept as it is; otherwise point `i` becomes the mean
   * of the `2 * (window / 2) + 1` points centred on it, wrapping around.
   */
  function MovingAverage(points: seq<Vec3>, window: nat): (r: seq<Vec3>)
    ensures |r| == |points|
    ensures |points| < window ==> r == points
  {
    var n := |points|;
    if n < window then points
    else seq(n, i requires 0 <= i < n => Mean(points, i, window / 2))
  }

  /** The mean of the `2 * half + 1` points centred on `i`. */
  function Mean(points: seq<Vec3>, i: nat, half: nat): Vec3
    requires i < |points| && half <= |points|
  {
    Times(WindowSum(points, i, half, 2 * half + 1), 1.0 / (2 * half + 1) as real)
  }

  /** The inner loop of `_smoothPoints`: the sum over the full window around `i`. */
  method SumWindow(points: seq<Vec3>, i: nat, half: nat) returns (acc: Vec3, cnt: nat)
    requires i < |points| && half <= |points|
    ensures cnt == 2 * half + 1
    ensures acc == WindowSum(points, i, half, cnt)
  {
    var n := |points|;
    acc := Origin;
    cnt := 0;
    var k: int := -(half as int);
    while k <= half
      invariant -(half as int) <= k <= half + 1
      invariant cnt == k + half
      invariant acc == WindowSum(points, i, half, cnt)
    {
      acc := Add(acc, points[(i + k + n) % n]);
      cnt := cnt + 1;
      k := k + 1;
    }
  }

  /** `_smoothPoints(points, window)`, loop by loop. */
  method SmoothPoints(points: seq<Vec3>, window: nat) returns (result: seq<Vec3>)
    ensures result == MovingAverage(points, window)
  {
    var n := |points|;
    if n < window {
      return points;
    }
    result := [];
    var half := window / 2;
    for i := 0 to n
      invariant |result| == i
      invariant forall i' :: 0 <= i' < i ==> result[i'] == Mean(points, i', half)
    {
      var acc, cnt := SumWindow(points, i, half);
      result := result + [Times(acc, 1.0 / cnt as real)];
    }
  }

  /** The window of a constant run sums to `m` copies of it. */
  lemma {:induction false} WindowSumConstant(points: seq<Vec3>, i: nat, half: nat, m: nat, c: Vec3)
    requires i < |points| && half <= |points| && m <= 2 * half + 1
    requires forall j :: 0 <= j < |points| ==> points[j] == c
    ensures WindowSum(points, i, half, m) == Times(c, m as real)
  {
    if m > 0 {
      WindowSumConstant(points, i, half, m - 1, c);
      assert WindowSum(points, i, half, m)
          == Add(WindowSum(points, i, half, m - 1), points[WrapIndex(i, m - 1 - half, |points|)]);
      assert (m - 1) as real + 1.0 == m as real;
    }
  }

  /** Dividing `m` copies by `m` gives the copy back. */
  lemma MeanOfCopies(c: Vec3, q: real)
    requires q > 0.0
    ensures Times(Times(c, q), 1.0 / q) == c
  {
    assert q * (1.0 / q) == 1.0;
    assert c.x * q * (1.0 / q) == c.x * (q * (1.0 / q));
    assert c.y * q * (1.0 / q) == c.y * (q * (1.0 / q));
    assert c.z * q * (1.0 / q) == c.z * (q * (1.0 / q));
  }

  lemma MeanConstant(points: seq<Vec3>, i: nat, half: nat, c: Vec3)
    requires i < |points| && half <= |points|
    requires forall j :: 0 <= j < |points| ==> points[j] == c
    ensures Mean(points, i, half) == c
  {
    var cnt := 2 * half + 1;
    WindowSumConstant(points, i, half, cnt, c);
    MeanOfCopies(c, cnt as real);
  }

  /** Smoothing leaves a constant loop where it is. */
  lemma SmoothConstant(points: seq<Vec3>, window: nat, c: Vec3)
    requires forall j :: 0 <= j < |points| ==> points[j] == c
    ensures forall i :: 0 <= i < |points| ==> MovingAverage(points, window)[i] == c
  {
    var n := |points|;
    if n >= window {
      var half := window / 2;
      var cnt := 2 * half + 1;
      forall i | 0 <= i < n ensures MovingAverage(points, window)[i] == c {
        MeanConstant(points, i, half, c);
      }
    }
  }

  // ------------------------------------------------------------------
  // building the orbits

  /**
   * `_buildSmoothCurveFromMesh(mesh)`: no curve without a position
   * attribute or with fewer than 8 vertices; otherwise a closed centripetal
   * spline of tension 0.05 through the smoothed world-space vertices.
   */
  function BuildSmoothCurve(obj: SceneObject): (r: Option<Curve>)
    ensures r.Some? <==> obj.positions.Some? && |obj.positions.value| >= MinVertices
    ensures r.Some? ==>
      && |r.value.points| == |obj.positions.value|
      && r.value.closed && r.value.curveType == Centripetal && r.value.tension == Tension
      && r.value.points == MovingAverage(WorldVertices(obj), SmoothWindow)
    ensures r.Some? && |obj.positions.value| < SmoothWindow ==>
      forall i :: 0 <= i < |r.value.points| ==> r.value.points[i] == obj.toWorld(obj.positions.value[i])
  {
    match obj.positions
    case None => None
    case Some(pos) =>
      var pts := WorldVertices(obj);
      if |pts| < MinVertices then None
      else Some(Curve(MovingAverage(pts, SmoothWindow), true, Centripetal, Tension, DefaultArcLengthDivisions))
  }

  /** The mesh's vertices carried into world space by its world matrix, in attribute order. */
  function WorldVertices(obj: SceneObject): (pts: seq<Vec3>)
    requires obj.positions.Some?
    ensures |pts| == |obj.positions.value|
    ensures forall i :: 0 <= i < |pts| ==> pts[i] == obj.toWorld(obj.positions.value[i])
  {
    var pos := obj.positions.value;
    seq(|pos|, i requires 0 <= i < |pos| => obj.toWorld(pos[i]))
  }

  /**
   * A mesh whose world vertices all sit at one point gives a curve through
   * that point only: the smoothing moves no vertex of a constant loop.
   */
  lemma FlatMeshCurve(obj: SceneObject, c: Vec3)
    requires obj.positions.Some? && |obj.positions.value| >= MinVertices
    requires forall i :: 0 <= i < |obj.positions.value| ==> obj.toWorld(obj.positions.value[i]) == c
    ensures BuildSmoothCurve(obj).Some?
    ensures forall i :: 0 <= i < |BuildSmoothCurve(obj).value.points| ==> BuildSmoothCurve(obj).value.points[i] == c
  {
    SmoothConstant(WorldVertices(obj), SmoothWindow, c);
  }

  /** The objects `model.traverse` collects: meshes with a geometry that has positions. */
  predicate IsCandidate(obj: SceneObject) {
    obj.isMesh && obj.hasGeometry && obj.positions.Some?
  }

  function Candidates(objects: seq<SceneObject>): (r: seq<SceneObject>)
    ensures forall o :: o in r <==> o in objects && IsCandidate(o)
    ensures |r| <= |objects|
  {
    if |objects| == 0 then []
    else
      var rest := Candidates(objects[1..]);
      if IsCandidate(objects[0]) then [objects[0]] + rest else rest
  }

  /**
   * The candidates are the traversal filtered in order: those of `a + b`
   * are those of `a` followed by those of `b`, and a single object is kept
   * exactly when it qualifies. The `< 5` abort counts this list and the
   * sort breaks ties by position in it.
   */
  lemma {:induction false} CandidatesInOrder(a: seq<SceneObject>, b: seq<SceneObject>)
    ensures Candidates(a + b) == Candidates(a) + Candidates(b)
    ensures |b| == 1 ==> Candidates(b) == if IsCandidate(b[0]) then b else []
    decreases |a|
  {
    if |b| == 1 {
      assert b[1..] == [];
    }
    if |a| > 0 {
      assert (a + b)[1..] == a[1..] + b;
      CandidatesInOrder(a[1..], b);
    } else {
      assert a + b == b;
    }
  }

  function Heights(cands: seq<SceneObject>): (keys: seq<real>)
    ensures |keys| == |cands| && forall i :: 0 <= i < |cands| ==> keys[i] == cands[i].centerY
  {
    seq(|cands|, i requires 0 <= i < |cands| => cands[i].centerY)
  }

  /** Close the curve and give it the fine arc-length table, as the loop over `selected` does. */
  function Finish(c: Curve): Curve {
    c.(closed := true, arcLengthDivisions := ArcLengthDivisions)
  }

  /** The curves built from `picked`, in order, skipping those that cannot be built. */
  function BuildAll(picked: seq<SceneObject>): (r: seq<Curve>)
    ensures |r| <= |picked|
    ensures forall c :: c in r ==>
      && c.closed && c.curveType == Centripetal && c.tension == Tension
      && c.arcLengthDivisions == ArcLengthDivisions && |c.points| >= MinVertices
  {
    if |picked| == 0 then []
    else
      var rest := BuildAll(picked[1..]);
      match BuildSmoothCurve(picked[0])
      case None => rest
      case Some(c) => [Finish(c)] + rest
  }

  /** Every picked mesh that has enough vertices gives its own curve, in order. */
  lemma {:induction false} BuildAllKeepsEach(picked: seq<SceneObject>)
    requires forall i :: 0 <= i < |picked| ==> BuildSmoothCurve(picked[i]).Some?
    ensures |BuildAll(picked)| == |picked|
    ensures forall i :: 0 <= i < |picked| ==> BuildAll(picked)[i] == Finish(BuildSmoothCurve(picked[i]).value)
  {
    if |picked| > 0 {
      BuildAllKeepsEach(picked[1..]);
    }
  }

  /** The candidates the source keeps: the 3rd and 5th from the top. */
  function Picked(cands: seq<SceneObject>): (r: seq<SceneObject>)
    requires |cands| >= MinMeshes
    ensures |r| == 2
  {
    var order := SortFromTop(Heights(cands), |cands|);
    [cands[order[PickIndices[0]]], cands[order[PickIndices[1]]]]
  }

  /**
   * `setLogoFixedPathsFromModel(model)`: the orbits are rebuilt from
   * scratch; fewer than five candidate meshes leave none; otherwise the 3rd
   * and 5th meshes from the top each give a closed smoothed orbit when they
   * have enough vertices.
   */
  function SetLogoFixedPathsFromModel(objects: seq<SceneObject>): (r: seq<Curve>)
    ensures |r| <= 2
    ensures |Candidates(objects)| < MinMeshes ==> r == []
    ensures forall c :: c in r ==>
      && c.closed && c.curveType == Centripetal && c.tension == Tension
      && c.arcLengthDivisions == ArcLengthDivisions && |c.points| >= MinVertices
  {
    var cands := Candidates(objects);
    if |cands| < MinMeshes then [] else BuildAll(Picked(cands))
  }

  /**
   * The two meshes the orbits follow are the 3rd and the 5th from the top:
   * exactly two candidates sit above the first and four above the second.
   */
  lemma PickedAreThirdAndFifth(cands: seq<SceneObject>, x: nat)
    requires |cands| >= MinMeshes && x < |cands|
    ensures var keys := Heights(cands);
      var order := SortFromTop(keys, |cands|);
      && Picked(cands) == [cands[order[2]], cands[order[4]]]
      && (Above(keys, x, order[2]) <==> x in order[..2])
      && (Above(keys, x, order[4]) <==> x in order[..4])
  {
    SortRanks(Heights(cands), 2, x);
    SortRanks(Heights(cands), 4, x);
  }

  /**
   * When both picked meshes have enough vertices there are exactly two
   * orbits, the 3rd mesh's first, each closed with the fine arc-length table.
   */
  lemma TwoOrbits(objects: seq<SceneObject>)
    requires |Candidates(objects)| >= MinMeshes
    requires var picked := Picked(Candidates(objects));
      BuildSmoothCurve(picked[0]).Some? && BuildSmoothCurve(picked[1]).Some?
    ensures var picked := Picked(Candidates(objects));
      SetLogoFixedPathsFromModel(objects)
        == [Finish(BuildSmoothCurve(picked[0]).value), Finish(BuildSmoothCurve(picked[1]).value)]
  {
    var picked := Picked(Candidates(objects));
    BuildAllKeepsEach(picked);
  }

  /** The number of orbits, `getPathsCount()`. */
  function GetPathsCount(paths: seq<Curve>): (r: nat)
    ensures r == 0 <==> !HasLogoPath(paths, 0)
    ensures forall i: int :: HasLogoPath(paths, i) <==> 0 <= i < r
  {
    |paths|
  }
}
