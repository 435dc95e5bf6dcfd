/**
 * The gallery's data: one entry of `orbitImages` per loaded photo, holding
 * its sprite (position, orientation, scale, material, render order), its
 * orbit parameters and the database record it came from.
 *
 * An entry is identified by its index in the collection: the loader gives
 * every entry a sprite of its own, so "same mesh" and "same index" agree.
 */
module Gallery {
  import opened Wrappers
  import opened Geometry

  /** A decoded texture; its colour space is always set to sRGB by the loader. */
  datatype Texture = Texture(url: string)

  /**
   * Sprite material. `hasOpacity` is the capability the source probes with
   * `'opacity' in mesh.material`; `opacity` means nothing when it is false.
   */
  datatype Material = Material(
    hasOpacity: bool,
    opacity: real,
    transparent: bool,
    depthWrite: bool,
    depthTest: bool,
    texture: Option<Texture>)

  datatype Mesh = Mesh(
    position: Vec3,
    quaternion: Quat,
    scale: Vec3,
    material: Material,
    renderOrder: int)

  /**
   * The JavaScript value stored under `people`: absent or falsy, an array
   * of names, or a plain object whose own enumerable keys are listed in order.
   */
  datatype People = Missing | List(names: seq<string>) | Object(keys: seq<string>)

  datatype Record = Record(fileName: string, people: People)

  /** One element of `orbitImages`; optional fields are read with `??` defaults. */
  datatype Entry = Entry(
    mesh: Mesh,
    angle: real,
    orbitRadius: Option<real>,
    verticalOffset: real,
    offsetX: Option<real>,
    yLift: Option<real>,
    zChange: Option<real>,
    record: Record,
    phase: Option<real>,
    speed: Option<real>,
    orbitBand: int)

  function DigitChar(d: nat): char
    requires d < 10
  {
    "0123456789"[d]
  }

  /** Decimal rendering of an array index, as JavaScript property keys spell it. */
  function IndexString(i: nat): (s: string)
    ensures |s| >= 1
    ensures i < 10 ==> s == [DigitChar(i)]
    decreases i
  {
    if i < 10 then [DigitChar(i)] else IndexString(i / 10) + [DigitChar(i % 10)]
  }

  /**
   * `Object.keys(people || {})`: the names of an object, the index strings
   * "0", "1", ... of an array, nothing for a missing value.
   */
  function Keys(p: People): (ks: seq<string>)
    ensures p.Missing? ==> ks == []
    ensures p.List? ==> |ks| == |p.names|
    ensures p.List? ==> forall i :: 0 <= i < |ks| ==> ks[i] == IndexString(i)
    ensures p.Object? ==> ks == p.keys
  {
    match p
    case Missing => []
    case List(names) => seq(|names|, i requires 0 <= i < |names| => IndexString(i))
    case Object(keys) => keys
  }

  function WithMesh(e: Entry, m: Mesh): Entry {
    e.(mesh := m)
  }

  /** Replace the mesh of entry `i`, leaving every other entry alone. */
  function UpdateMesh(items: seq<Entry>, i: nat, m: Mesh): (r: seq<Entry>)
    requires i < |items|
    ensures |r| == |items|
    ensures r[i] == items[i].(mesh := m)
    ensures forall j :: 0 <= j < |items| && j != i ==> r[j] == items[j]
  {
    items[i := items[i].(mesh := m)]
  }
}
