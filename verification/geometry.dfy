/**
 * Vectors, quaternions and the camera as plain values over exact reals.
 * Trigonometry and `lookAt` belong to the runtime and the rendering library,
 * so they enter as function values in a `View`.
 */
module Geometry {

  datatype Vec3 = Vec3(x: real, y: real, z: real)

  const Origin := Vec3(0.0, 0.0, 0.0)

  datatype Axis = X | Y | Z

  function Get(v: Vec3, a: Axis): real {
    match a
    case X => v.x
    case Y => v.y
    case Z => v.z
  }

  function Add(a: Vec3, b: Vec3): (r: Vec3)
    ensures forall k: Axis :: Get(r, k) == Get(a, k) + Get(b, k)
  {
    Vec3(a.x + b.x, a.y + b.y, a.z + b.z)
  }

  function Times(a: Vec3, s: real): (r: Vec3)
    ensures forall k: Axis :: Get(r, k) == Get(a, k) * s
  {
    Vec3(a.x * s, a.y * s, a.z * s)
  }

  /** The vector as an object literal `{x, y, z}`. */
  function ToMap(v: Vec3): (m: map<Axis, real>)
    ensures m.Keys == {X, Y, Z}
    ensures forall k: Axis :: k in m && m[k] == Get(v, k)
  {
    var m := map[X := v.x, Y := v.y, Z := v.z];
    assert forall k: Axis :: k in m && m[k] == Get(v, k) by {
      forall k: Axis ensures k in m && m[k] == Get(v, k) {
        if k.X? {
        } else if k.Y? {
        } else {
          assert k.Z?;
        }
      }
    }
    m
  }

  datatype Quat = Quat(x: real, y: real, z: real, w: real)

  const IdentityQuat := Quat(0.0, 0.0, 0.0, 1.0)

  /** `Math.PI` */
  const Pi: real := 3.141592653589793

  datatype Trig = Trig(cos: real -> real, sin: real -> real)

  /** The Pythagorean identity at one angle, assumed of the runtime's `cos`/`sin` where needed. */
  predicate UnitCircleAt(trig: Trig, a: real) {
    trig.cos(a) * trig.cos(a) + trig.sin(a) * trig.sin(a) == 1.0
  }

  /** Camera world position and (unit) world view direction. */
  datatype Camera = Camera(position: Vec3, direction: Vec3)

  /**
   * Everything the core reads from the rendering library: the camera, the
   * runtime's trigonometry, and `Object3D.lookAt` as a function from the
   * object's position and the point it turns to onto its new orientation.
   */
  datatype View = View(camera: Camera, trig: Trig, lookAt: (Vec3, Vec3) -> Quat)

  /** The point `distance` units in front of the camera along its view direction. */
  function InFront(cam: Camera, distance: real): Vec3 {
    Add(cam.position, Times(cam.direction, distance))
  }
}
