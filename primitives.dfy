// What the scene generator hands to the renderer, and the foreign numerics it relies on.
module Primitives {

  import opened Color

  datatype Vec3 = Vec3(x: real, y: real, z: real)

  const Origin: Vec3 := Vec3(0.0, 0.0, 0.0)

  function Scale(v: Vec3, k: real): Vec3 {
    Vec3(v.x * k, v.y * k, v.z * k)
  }

  datatype Rgba = Rgba(r: real, g: real, b: real, a: real)

  /** Every shape is drawn semi-transparent: `glColor4f(*color, 0.7)`. */
  const Alpha: real := 0.7

  /** A colour with channels in [0, 1] is emitted as a valid semi-transparent shade. */
  function Shade(c: Rgb): (s: Rgba)
    ensures IsColor(c) ==> IsShade(s)
  {
    Rgba(c.r, c.g, c.b, Alpha)
  }

  /** A colour as emitted: channels in [0, 1] and the fixed alpha. */
  predicate IsShade(c: Rgba) {
    InUnit(c.r) && InUnit(c.g) && InUnit(c.b) && c.a == Alpha
  }

  /**
   * One drawing call: `draw_sphere` (a GLU sphere with its tessellation
   * detail) or `draw_triangle`.
   */
  datatype Primitive =
    | Sphere(center: Vec3, radius: real, slices: nat, stacks: nat, color: Rgba)
    | Triangle(v1: Vec3, v2: Vec3, v3: Vec3, color: Rgba)

  /**
   * A primitive together with the rotations in force when it was drawn:
   * the global rotation about the Y axis and the sector's rotation about
   * the Z axis, both in degrees (0 about Z outside the sector loop).
   */
  datatype Draw = Draw(yDegrees: real, zDegrees: real, prim: Primitive)

  /** Attaches the same rotations to every primitive of a list. */
  function Place(yDegrees: real, zDegrees: real, ps: seq<Primitive>): seq<Draw> {
    seq(|ps|, i requires 0 <= i < |ps| => Draw(yDegrees, zDegrees, ps[i]))
  }

  /** Drawing two lists one after the other under the same rotations is drawing their concatenation. */
  lemma PlaceAppend(yDegrees: real, zDegrees: real, a: seq<Primitive>, b: seq<Primitive>)
    ensures Place(yDegrees, zDegrees, a + b) == Place(yDegrees, zDegrees, a) + Place(yDegrees, zDegrees, b)
  {
  }

  /**
   * `math.sin`, `math.cos` and `noise.pnoise2`, whose definitions are not
   * part of this model: they are given to the generator as values.
   */
  datatype Numerics = Numerics(sin: real -> real, cos: real -> real, pnoise2: (real, real) -> real)
}
