// Three-component vectors over the reals and the clamp the game uses.
// JavaScript numbers are modelled as exact reals; IEEE-754 rounding is not modelled.

module Geometry {

  /** A position or a velocity: the `[x, y, z]` triples of the game. */
  datatype Vec3 = Vec3(x: real, y: real, z: real)

  const Zero: Vec3 := Vec3(0.0, 0.0, 0.0)

  function Add(p: Vec3, v: Vec3): Vec3 {
    Vec3(p.x + v.x, p.y + v.y, p.z + v.z)
  }

  /** The velocity `[-v[0], v[1], v[2]]`: a bounce off a paddle. */
  function ReflectX(v: Vec3): Vec3 {
    Vec3(-v.x, v.y, v.z)
  }

  /** The velocity `[v[0], -v[1], v[2]]`: a bounce off the top or bottom wall. */
  function ReflectY(v: Vec3): Vec3 {
    Vec3(v.x, -v.y, v.z)
  }

  function Abs(r: real): real {
    if r < 0.0 then -r else r
  }

  function Min(a: real, b: real): real {
    if a <= b then a else b
  }

  function Max(a: real, b: real): real {
    if a >= b then a else b
  }

  /** `Math.max(Math.min(v, hi), lo)`: never below `lo`; when the interval is
      not empty, the point of `[lo, hi]` nearest to `v`. */
  function Clamp(v: real, lo: real, hi: real): (r: real)
    ensures lo <= r
    ensures hi < lo ==> r == lo
    ensures lo <= hi ==> r <= hi
    ensures lo <= v <= hi ==> r == v
    ensures lo <= hi && hi < v ==> r == hi
    ensures v < lo ==> r == lo
  {
    Max(Min(v, hi), lo)
  }
}
