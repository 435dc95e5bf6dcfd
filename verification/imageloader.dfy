/**
 * `loadImagesFromSupabase`: every fetched record whose texture is cached or
 * loads becomes one sprite entry appended to the shared collection, with
 * fixed orbit defaults, random phase and speed, and a band taken from the
 * pattern 0, 1, 1 by the number of entries made so far in this call.
 *
 * The database query, the texture loader and `Math.random` are outside this
 * model: the query's outcome is a `Fetch` value, the loader's outcome for
 * record `i` is `load(i)`, and the `d`-th random draw of the call is
 * `random(d)`.
 */
module ImageLoader {
  import opened Wrappers
  import opened Geometry
  import opened Gallery
  import opened Focus

  /** `pattern`: orbit 0 once for every two on orbit 1. */
  const Pattern: seq<int> := [0, 1, 1]
  const SpriteOrder := 10
  const DefaultRadius := 5.0
  const DefaultOffsetX := -0.5
  const MinSpeed := 0.3
  const SpeedSpread := 0.4

  /** What the query for `file_name, people` gives back. */
  datatype Fetch = Failed | NoData | Rows(rows: seq<Record>)

  /** The shared collection and the module-level texture cache, keyed by URL. */
  datatype Loader = Loader(items: seq<Entry>, cache: map<string, Texture>)

  /** The band of the `k`-th entry made in one call. */
  function BandOf(k: nat): (b: int)
    ensures b == 0 <==> k % 3 == 0
    ensures b == 0 || b == 1
  {
    Pattern[k % |Pattern|]
  }

  /** The sprite made for a texture: unit scale, drawn late, always on top. */
  function Sprite(tex: Texture): Mesh {
    Mesh(Origin, IdentityQuat, Vec3(1.0, 1.0, 1.0),
         Material(true, 1.0, true, false, false, Some(tex)),
         SpriteOrder)
  }

  /** `{ ...record, people: Object.keys(record.people || {}) }` */
  function Flatten(rec: Record): (r: Record)
    ensures r.fileName == rec.fileName && r.people.List?
    ensures rec.people.Missing? ==> r.people.names == []
    ensures rec.people.Object? ==> r.people.names == rec.people.keys
    ensures rec.people.List? ==> |r.people.names| == |rec.people.names|
    ensures rec.people.List? ==> forall i :: 0 <= i < |r.people.names| ==> r.people.names[i] == IndexString(i)
  {
    rec.(people := List(Keys(rec.people)))
  }

  /** What the `k`-th entry of a call looks like. */
  predicate Made(e: Entry, tex: Texture, rec: Record, k: nat, random: nat -> real) {
    && e.mesh == Sprite(tex)
    && e.angle == 3.0 * Pi
    && e.orbitRadius == Some(DefaultRadius)
    && e.verticalOffset == 0.0
    && e.offsetX == Some(DefaultOffsetX)
    && e.yLift == Some(0.0)
    && e.zChange == Some(0.0)
    && e.record == Flatten(rec)
    && e.phase == Some(random(2 * k))
    && e.speed == Some(MinSpeed + random(2 * k + 1) * SpeedSpread)
    && e.orbitBand == BandOf(k)
  }

  function NewEntry(tex: Texture, rec: Record, k: nat, random: nat -> real): Entry {
    Entry(Sprite(tex), 3.0 * Pi, Some(DefaultRadius), 0.0, Some(DefaultOffsetX), Some(0.0), Some(0.0),
          Flatten(rec), Some(random(2 * k)), Some(MinSpeed + random(2 * k + 1) * SpeedSpread), BandOf(k))
  }

  /**
   * One iteration of the loop, for a call that started with `start`
   * entries: reuse the cached texture, or load one and cache it; a failed
   * load adds nothing and does not advance the band counter.
   */
  function LoadRecord(start: nat, st: Loader, rec: Record, ok: bool, random: nat -> real): (r: Loader)
    requires start <= |st.items|
    ensures |r.items| == |st.items| + if rec.fileName in st.cache || ok then 1 else 0
    ensures r.items[..|st.items|] == st.items
    ensures rec.fileName in st.cache ==> r.cache == st.cache
    ensures rec.fileName !in st.cache ==> r.cache == if ok then st.cache[rec.fileName := Texture(rec.fileName)] else st.cache
  {
    var url := rec.fileName;
    var k := |st.items| - start;
    if url in st.cache then
      Loader(st.items + [NewEntry(st.cache[url], rec, k, random)], st.cache)
    else if ok then
      var tex := Texture(url);
      Loader(st.items + [NewEntry(tex, rec, k, random)], st.cache[url := tex])
    else st
  }

  /** The entry a record makes carries the defaults, the cached texture and the call's `k`-th band and draws. */
  lemma LoadRecordMade(start: nat, st: Loader, rec: Record, ok: bool, random: nat -> real)
    requires start <= |st.items|
    ensures var r := LoadRecord(start, st, rec, ok, random);
      |r.items| > |st.items| ==> Made(r.items[|st.items|], r.cache[rec.fileName], rec, |st.items| - start, random)
  {
  }

  /** Record `i` is shown when its URL was cached before, or when it or an earlier record with that URL loaded. */
  predicate Succeeds(cache: map<string, Texture>, rows: seq<Record>, load: nat -> bool, i: nat)
    requires i < |rows|
  {
    rows[i].fileName in cache || exists j :: 0 <= j <= i && rows[j].fileName == rows[i].fileName && load(j)
  }

  /** Every cached texture was decoded from its own URL. */
  predicate Keyed(cache: map<string, Texture>) {
    forall url :: url in cache ==> cache[url].url == url
  }

  /** The loop over the first `m` records. */
  function LoadPrefix(st: Loader, rows: seq<Record>, m: nat, load: nat -> bool, random: nat -> real): (r: Loader)
    requires m <= |rows|
    ensures |st.items| <= |r.items| && r.items[..|st.items|] == st.items
    ensures forall url :: url in st.cache ==> url in r.cache && r.cache[url] == st.cache[url]
    decreases m
  {
    if m == 0 then st
    else LoadRecord(|st.items|, LoadPrefix(st, rows, m - 1, load, random), rows[m - 1], load(m - 1), random)
  }

  /** The cache after `m` records holds what it held before plus the URLs that loaded. */
  lemma {:induction false} CacheContents(st: Loader, rows: seq<Record>, m: nat, load: nat -> bool, random: nat -> real)
    requires m <= |rows|
    ensures forall url :: url in LoadPrefix(st, rows, m, load, random).cache <==>
      url in st.cache || exists j :: 0 <= j < m && rows[j].fileName == url && load(j)
    decreases m
  {
    if m > 0 {
      CacheContents(st, rows, m - 1, load, random);
      var before := LoadPrefix(st, rows, m - 1, load, random);
      var after := LoadPrefix(st, rows, m, load, random);
      forall url ensures url in after.cache <==>
        url in st.cache || exists j :: 0 <= j < m && rows[j].fileName == url && load(j)
      {
        if url in st.cache || exists j :: 0 <= j < m - 1 && rows[j].fileName == url && load(j) {
          assert url in before.cache;
        }
      }
    }
  }

  /** Each texture the loop caches is decoded from its own URL. */
  lemma {:induction false} CacheKeyed(st: Loader, rows: seq<Record>, m: nat, load: nat -> bool, random: nat -> real)
    requires m <= |rows|
    ensures Keyed(st.cache) ==> Keyed(LoadPrefix(st, rows, m, load, random).cache)
    decreases m
  {
    if m > 0 {
      CacheKeyed(st, rows, m - 1, load, random);
    }
  }

  /**
   * `loadImagesFromSupabase(scene)`: a failed query or missing data leaves
   * everything as it was; otherwise entries are appended, never removed,
   * and cached textures are never replaced.
   */
  function LoadImages(st: Loader, fetch: Fetch, load: nat -> bool, random: nat -> real): (r: Loader)
    ensures !fetch.Rows? ==> r == st
    ensures |st.items| <= |r.items| && r.items[..|st.items|] == st.items
    ensures |r.items| - |st.items| <= if fetch.Rows? then |fetch.rows| else 0
    ensures forall url :: url in st.cache ==> url in r.cache && r.cache[url] == st.cache[url]
    ensures Keyed(st.cache) ==> Keyed(r.cache)
  {
    match fetch
    case Failed => st
    case NoData => st
    case Rows(rows) =>
      LoadPrefixBound(st, rows, |rows|, load, random);
      CacheKeyed(st, rows, |rows|, load, random);
      LoadPrefix(st, rows, |rows|, load, random)
  }

  /** A call makes at most one entry per record. */
  lemma {:induction false} LoadPrefixBound(st: Loader, rows: seq<Record>, m: nat, load: nat -> bool, random: nat -> real)
    requires m <= |rows|
    ensures |LoadPrefix(st, rows, m, load, random).items| <= |st.items| + m
    decreases m
  {
    if m > 0 {
      LoadPrefixBound(st, rows, m - 1, load, random);
    }
  }

  // ------------------------------------------------------------------
  // which records become entries, and what they look like

  /** Record `i` makes an entry exactly when it succeeds. */
  lemma RecordStep(st: Loader, rows: seq<Record>, i: nat, load: nat -> bool, random: nat -> real)
    requires i < |rows|
    ensures var before := LoadPrefix(st, rows, i, load, random);
      var after := LoadPrefix(st, rows, i + 1, load, random);
      && after.items[..|before.items|] == before.items
      && |after.items| == |before.items| + (if Succeeds(st.cache, rows, load, i) then 1 else 0)
  {
    var before := LoadPrefix(st, rows, i, load, random);
    var url := rows[i].fileName;
    CacheContents(st, rows, i, load, random);
    if url in before.cache && url !in st.cache {
      var j :| 0 <= j < i && rows[j].fileName == url && load(j);
      assert 0 <= j <= i && rows[j].fileName == rows[i].fileName && load(j);
    }
    if Succeeds(st.cache, rows, load, i) && url !in st.cache && url !in before.cache {
      var j :| 0 <= j <= i && rows[j].fileName == url && load(j);
      assert j == i;
    }
  }

  lemma PrefixTrans<T>(a: seq<T>, b: seq<T>, c: seq<T>)
    requires |a| <= |b| <= |c| && b[..|a|] == a && c[..|b|] == b
    ensures c[..|a|] == a
  {
    assert c[..|a|] == c[..|b|][..|a|];
  }

  lemma PrefixIndex<T>(a: seq<T>, b: seq<T>, k: nat)
    requires |a| <= |b| && b[..|a|] == a && k < |a|
    ensures b[k] == a[k]
  {
    assert b[..|a|][k] == b[k];
  }

  /** Entries made earlier in the loop stay where they are. */
  lemma {:induction false} PrefixStable(st: Loader, rows: seq<Record>, m: nat, m': nat, load: nat -> bool, random: nat -> real)
    requires m <= m' <= |rows|
    ensures var a := LoadPrefix(st, rows, m, load, random).items;
      var b := LoadPrefix(st, rows, m', load, random).items;
      |a| <= |b| && b[..|a|] == a
    decreases m' - m
  {
    if m < m' {
      PrefixStable(st, rows, m, m' - 1, load, random);
      RecordStep(st, rows, m' - 1, load, random);
      PrefixTrans(LoadPrefix(st, rows, m, load, random).items,
                  LoadPrefix(st, rows, m' - 1, load, random).items,
                  LoadPrefix(st, rows, m', load, random).items);
    }
  }

  /**
   * A record that succeeds becomes the entry right after those of the
   * records before it: its sprite shows the texture of its own URL, its
   * band and random draws are those of the number of entries made before
   * it in this call.
   */
  lemma EntryForRecord(st: Loader, rows: seq<Record>, i: nat, load: nat -> bool, random: nat -> real)
    requires i < |rows| && Keyed(st.cache)
    requires Succeeds(st.cache, rows, load, i)
    ensures var r := LoadImages(st, Rows(rows), load, random);
      var at := |LoadPrefix(st, rows, i, load, random).items|;
      && at < |r.items|
      && Made(r.items[at], Texture(rows[i].fileName), rows[i], at - |st.items|, random)
  {
    var before := LoadPrefix(st, rows, i, load, random);
    var after := LoadPrefix(st, rows, i + 1, load, random);
    RecordStep(st, rows, i, load, random);
    PrefixStable(st, rows, i + 1, |rows|, load, random);
    var at := |before.items|;
    LoadRecordMade(|st.items|, before, rows[i], load(i), random);
    CacheKeyed(st, rows, i + 1, load, random);
    assert after.cache[rows[i].fileName].url == rows[i].fileName;
    PrefixIndex(after.items, LoadImages(st, Rows(rows), load, random).items, at);
  }

  /** A failed record makes nothing and leaves the band counter where it was. */
  lemma FailureAddsNothing(st: Loader, rows: seq<Record>, i: nat, load: nat -> bool, random: nat -> real)
    requires i < |rows| && !Succeeds(st.cache, rows, load, i)
    ensures LoadPrefix(st, rows, i + 1, load, random).items == LoadPrefix(st, rows, i, load, random).items
  {
    RecordStep(st, rows, i, load, random);
  }

  /** A URL cached before the call is never loaded again, even when loading it would fail. */
  lemma CachedAlwaysSucceeds(st: Loader, rows: seq<Record>, i: nat, load: nat -> bool)
    requires i < |rows| && rows[i].fileName in st.cache
    ensures Succeeds(st.cache, rows, load, i)
  {
  }

  /** The random draws put every speed in [0.3, 0.7) and every phase in [0, 1). */
  lemma MadeRanges(e: Entry, tex: Texture, rec: Record, k: nat, random: nat -> real)
    requires Made(e, tex, rec, k, random)
    requires 0.0 <= random(2 * k) < 1.0 && 0.0 <= random(2 * k + 1) < 1.0
    ensures 0.0 <= e.phase.value < 1.0
    ensures MinSpeed <= e.speed.value < MinSpeed + SpeedSpread
  {
  }

  // ------------------------------------------------------------------
  // the 1:2 ratio

  /** Entries of band `b` among `es`. */
  function CountBand(es: seq<Entry>, b: int): (c: nat)
    ensures c <= |es|
  {
    if |es| == 0 then 0
    else CountBand(es[..|es| - 1], b) + if es[|es| - 1].orbitBand == b then 1 else 0
  }

  /**
   * The first `m` entries of a call: one in three, rounded up, goes to
   * orbit 0, the rest to orbit 1.
   */
  lemma {:induction false} PatternRatio(es: seq<Entry>)
    requires forall k :: 0 <= k < |es| ==> es[k].orbitBand == BandOf(k)
    ensures CountBand(es, 0) == (|es| + 2) / 3
    ensures CountBand(es, 1) == |es| - (|es| + 2) / 3
  {
    if |es| > 0 {
      var m := |es| - 1;
      PatternRatio(es[..m]);
      assert es[m].orbitBand == BandOf(m);
    }
  }

  /** The entries of a call take their bands from the pattern in the order they are made. */
  lemma {:induction false} BandsFollowPattern(st: Loader, rows: seq<Record>, m: nat, load: nat -> bool, random: nat -> real)
    requires m <= |rows|
    ensures forall k :: |st.items| <= k < |LoadPrefix(st, rows, m, load, random).items| ==>
      LoadPrefix(st, rows, m, load, random).items[k].orbitBand == BandOf(k - |st.items|)
    decreases m
  {
    if m > 0 {
      BandsFollowPattern(st, rows, m - 1, load, random);
      var before := LoadPrefix(st, rows, m - 1, load, random);
      var after := LoadPrefix(st, rows, m, load, random).items;
      LoadRecordMade(|st.items|, before, rows[m - 1], load(m - 1), random);
      assert after == LoadRecord(|st.items|, before, rows[m - 1], load(m - 1), random).items;
      forall k | |st.items| <= k < |after| ensures after[k].orbitBand == BandOf(k - |st.items|) {
        if k < |before.items| {
          PrefixIndex(before.items, after, k);
        } else {
          assert k == |before.items|;
        }
      }
    }
  }

  /**
   * Whatever fails, the entries one call adds split 1:2 between the
   * orbits: a third, rounded up, on orbit 0 and the rest on orbit 1.
   */
  lemma LoadRatio(st: Loader, rows: seq<Record>, load: nat -> bool, random: nat -> real)
    ensures var items := LoadImages(st, Rows(rows), load, random).items;
      var added := items[|st.items|..];
      && CountBand(added, 0) == (|added| + 2) / 3
      && CountBand(added, 1) == |added| - (|added| + 2) / 3
  {
    var items := LoadImages(st, Rows(rows), load, random).items;
    assert items == LoadPrefix(st, rows, |rows|, load, random).items;
    BandsFollowPattern(st, rows, |rows|, load, random);
    var added := items[|st.items|..];
    assert forall k :: 0 <= k < |added| ==> added[k] == items[|st.items| + k];
    PatternRatio(added);
  }

  // ------------------------------------------------------------------
  // grouping by band

  /** `img.orbitBand === 1 ? 1 : 0` */
  function GroupOf(e: Entry): nat {
    if e.orbitBand == 1 then 1 else 0
  }

  /** The indices of the first `m` entries in group `b`, in collection order. */
  function Group(items: seq<Entry>, b: nat, m: nat): (r: seq<nat>)
    requires m <= |items|
    ensures forall k :: 0 <= k < |r| ==> r[k] < m
    decreases m
  {
    if m == 0 then []
    else Group(items, b, m - 1) + if GroupOf(items[m - 1]) == b then [m - 1] else []
  }

  /** A group holds exactly the entries of its band, each once, in collection order. */
  lemma {:induction false} GroupMembers(items: seq<Entry>, b: nat, m: nat)
    requires m <= |items|
    ensures forall i: nat :: i in Group(items, b, m) <==> i < m && GroupOf(items[i]) == b
    ensures Increasing(Group(items, b, m))
    decreases m
  {
    if m > 0 {
      GroupMembers(items, b, m - 1);
    }
  }

  /** `groups`: the two bands' members, each in collection order. */
  function BandGroups(items: seq<Entry>): (g: (seq<nat>, seq<nat>))
    ensures forall i :: 0 <= i < |items| ==> (i in g.1 <==> items[i].orbitBand == 1)
    ensures forall i :: 0 <= i < |items| ==> (i in g.0 <==> i !in g.1)
    ensures forall i :: i in g.0 || i in g.1 ==> i < |items|
    ensures Increasing(g.0) && Increasing(g.1)
    ensures |g.0| + |g.1| == |items|
  {
    GroupMembers(items, 0, |items|);
    GroupMembers(items, 1, |items|);
    GroupSizes(items, |items|);
    (Group(items, 0, |items|), Group(items, 1, |items|))
  }

  /** Every entry lands in exactly one group. */
  lemma {:induction false} GroupSizes(items: seq<Entry>, m: nat)
    requires m <= |items|
    ensures |Group(items, 0, m)| + |Group(items, 1, m)| == m
    decreases m
  {
    if m > 0 {
      GroupSizes(items, m - 1);
      if GroupOf(items[m - 1]) == 0 {
        assert |Group(items, 0, m)| == |Group(items, 0, m - 1)| + 1;
        assert |Group(items, 1, m)| == |Group(items, 1, m - 1)|;
      } else {
        assert |Group(items, 0, m)| == |Group(items, 0, m - 1)|;
        assert |Group(items, 1, m)| == |Group(items, 1, m - 1)| + 1;
      }
    }
  }

  // ------------------------------------------------------------------
  // loading next to the focus view

  /** Loading while a photo is focused keeps the focus state consistent. */
  lemma LoadKeepsFocusInv(fs: State, cache: map<string, Texture>, fetch: Fetch, load: nat -> bool, random: nat -> real)
    requires Inv(fs)
    ensures var r := LoadImages(Loader(fs.items, cache), fetch, load, random);
      Inv(fs.(items := r.items))
  {
    var r := LoadImages(Loader(fs.items, cache), fetch, load, random);
    assert r.items == fs.items + r.items[|fs.items|..];
    AppendKeepsInv(fs, r.items[|fs.items|..]);
  }
}
