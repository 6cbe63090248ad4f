// One sector of the kaleidoscope (`draw_sector`) and the pulsing core (`draw_core`).
// The generator is written as the source's loops; beside each loop stands the
// function that says what list of primitives it emits.
module Sector {

  import opened Color
  import opened Primitives
  import RealArith

  /** `math.pi` */
  const Pi: real := 3.141592653589793

  /** Primitives one sector emits: 4 triangles, 6 chains of 20 spheres, 25 spheres. */
  const RadialCount: nat := 4
  const VineCount: nat := 6
  const VineSpheres: nat := 20
  const EllipseCount: nat := 25
  const SectorSize: nat := RadialCount + VineCount * VineSpheres + EllipseCount

  /** `(frame * rate + k * spacing) % 360`: every hue derived from the frame counter is a degree in [0, 360). */
  function WheelHue(frame: int, rate: int, k: int, spacing: int): (h: int)
    ensures 0 <= h < 360
  {
    (frame * rate + k * spacing) % 360
  }

  // ---------------------------------------------------------------- radial lines

  /** The k-th radial line, drawn as a thin triangle from the origin out to the tip and back to 0.9 of it. */
  function RadialTriangle(env: Numerics, frame: int, pulse: real, k: int): Primitive
  {
    var angle := k as real * (Pi / 8.0);
    var length := (1.0 + 0.5 * env.sin(frame as real * 0.02 + k as real)) * pulse;
    var color := HsbToRgb(WheelHue(frame, 5, k, 90) as real, 0.8, 1.0);
    var tip := Vec3(length * env.cos(angle), length * env.sin(angle),
                    0.2 * env.sin(frame as real * 0.01 + k as real));
    Triangle(Origin, tip, Scale(tip, 0.9), Shade(color))
  }

  /** Every radial triangle starts at the origin and its third vertex is 0.9 times its second. */
  lemma RadialTriangleShape(env: Numerics, frame: int, pulse: real, k: int)
    ensures var t := RadialTriangle(env, frame, pulse, k);
            t.Triangle? && t.v1 == Origin && t.v3 == Scale(t.v2, 0.9) && IsShade(t.color)
  {
  }

  function RadialLines(env: Numerics, frame: int, pulse: real): seq<Primitive> {
    seq(RadialCount, k => RadialTriangle(env, frame, pulse, k))
  }

  // ---------------------------------------------------------------- vines

  datatype Cubic = Cubic(p0: Vec3, p1: Vec3, p2: Vec3, p3: Vec3)

  /** The cubic Bernstein blend `mt^3 a + 3 mt^2 t b + 3 mt t^2 c + t^3 d` with `mt = 1 - t`. */
  function Blend(a: real, b: real, c: real, d: real, t: real): real {
    var mt := 1.0 - t;
    mt * mt * mt * a + 3.0 * mt * mt * t * b + 3.0 * mt * t * t * c + t * t * t * d
  }

  /** A point of the cubic Bezier curve: at t = 0 the first control point, at t = 1 the last. */
  function Bezier(c: Cubic, t: real): (p: Vec3)
    ensures t == 0.0 ==> p == c.p0
    ensures t == 1.0 ==> p == c.p3
  {
    Vec3(Blend(c.p0.x, c.p1.x, c.p2.x, c.p3.x, t),
         Blend(c.p0.y, c.p1.y, c.p2.y, c.p3.y, t),
         Blend(c.p0.z, c.p1.z, c.p2.z, c.p3.z, t))
  }

  /** The four control points of vine m: fixed ends on the x axis, inner points swaying with the frame. */
  function VineControls(env: Numerics, frame: int, m: int): Cubic {
    var offset := m as real * 0.2;
    var f := frame as real;
    var mr := m as real;
    Cubic(Vec3(0.5 + offset, 0.0, 0.0),
          Vec3(1.0 + offset + 0.2 * env.sin(f * 0.03 + mr), 0.5 * env.cos(f * 0.02 + mr), 0.1 * env.sin(f * 0.02 + mr)),
          Vec3(1.5 + offset + 0.3 * env.sin(f * 0.04 + mr), 1.0 * env.cos(f * 0.03 + mr), 0.2 * env.sin(f * 0.03 + mr)),
          Vec3(2.0 + offset, 0.0, 0.0))
  }

  /** The curve parameter of sample n: `t` runs over `range(0, 101, 5)` divided by 100. */
  function SampleT(n: int): real {
    (5 * n) as real / 100.0
  }

  function VineColor(frame: int, m: int): Rgba {
    Shade(HsbToRgb(WheelHue(frame, 4, m, 60) as real, 0.8, 1.0))
  }

  /** The sphere drawn at sample n of vine m. */
  function VineSphere(env: Numerics, frame: int, m: int, n: int): Primitive {
    Sphere(Bezier(VineControls(env, frame, m), SampleT(n)), 0.05, 10, 10, VineColor(frame, m))
  }

  /** Vine m: a sphere at each of the first 20 of its 21 samples. */
  function Vine(env: Numerics, frame: int, m: int): seq<Primitive> {
    seq(VineSpheres, n => VineSphere(env, frame, m, n))
  }

  /** Vines 0 .. count-1, one after the other. */
  function Vines(env: Numerics, frame: int, count: nat): seq<Primitive> {
    if count == 0 then [] else Vines(env, frame, count - 1) + Vine(env, frame, count - 1)
  }

  /** Each vine adds 20 spheres of radius 0.05 with its own colour. */
  lemma {:induction false} VinesLayout(env: Numerics, frame: int, count: nat)
    ensures |Vines(env, frame, count)| == VineSpheres * count
    ensures forall i :: 0 <= i < |Vines(env, frame, count)| ==>
              Vines(env, frame, count)[i] == VineSphere(env, frame, i / VineSpheres, i % VineSpheres)
  {
    if count > 0 {
      VinesLayout(env, frame, count - 1);
      var before := Vines(env, frame, count - 1);
      forall i | 0 <= i < |Vines(env, frame, count)|
        ensures Vines(env, frame, count)[i] == VineSphere(env, frame, i / VineSpheres, i % VineSpheres)
      {
        if i >= |before| {
          assert i / VineSpheres == count - 1 && i % VineSpheres == i - |before|;
        }
      }
    }
  }

  // ---------------------------------------------------------------- ellipses

  /** Ellipse j: x swept along the axis, y and size driven by the noise value at (x/100, frame/100). */
  function EllipseSphere(env: Numerics, frame: int, pulse: real, j: int): Primitive {
    var x := 0.2 + j as real * 0.12;
    var noiseVal := env.pnoise2(x * 0.01, frame as real * 0.01);
    var y := (noiseVal - 0.5) * 1.8 * pulse;
    var size := 0.15 + noiseVal * 0.4;
    var color := HsbToRgb(WheelHue(frame, 3, j, 14) as real, 0.7, 1.0);
    var z := 0.1 * env.sin(frame as real * 0.01 + j as real);
    Sphere(Vec3(x, y, z), size, 10, 10, Shade(color))
  }

  function Ellipses(env: Numerics, frame: int, pulse: real): seq<Primitive> {
    seq(EllipseCount, j => EllipseSphere(env, frame, pulse, j))
  }

  // ---------------------------------------------------------------- the sector

  /** What one call of `draw_sector` emits, in drawing order. */
  function SectorSpec(env: Numerics, frame: int, pulse: real): (s: seq<Primitive>)
    ensures |s| == SectorSize
  {
    VinesLayout(env, frame, VineCount);
    RadialLines(env, frame, pulse) + Vines(env, frame, VineCount) + Ellipses(env, frame, pulse)
  }

  /**
   * One sector is 4 triangles, then 6 x 20 spheres of radius 0.05 (vine m's
   * sample n at index 4 + 20m + n), then 25 spheres; every colour is a valid
   * semi-transparent shade.
   */
  lemma SectorLayout(env: Numerics, frame: int, pulse: real)
    ensures var s := SectorSpec(env, frame, pulse);
            |s| == SectorSize == 149
            && (forall i :: 0 <= i < 4 ==> s[i] == RadialTriangle(env, frame, pulse, i))
            && (forall i :: 4 <= i < 124 ==> s[i] == VineSphere(env, frame, (i - 4) / 20, (i - 4) % 20))
            && (forall i :: 124 <= i < 149 ==> s[i] == EllipseSphere(env, frame, pulse, i - 124))
            && (forall i :: 0 <= i < 4 ==> s[i].Triangle?)
            && (forall i :: 4 <= i < 149 ==> s[i].Sphere?)
            && (forall i :: 4 <= i < 124 ==> s[i].radius == 0.05)
            && (forall i :: 0 <= i < 149 ==> IsShade(s[i].color))
  {
    VinesLayout(env, frame, VineCount);
    var s := SectorSpec(env, frame, pulse);
    var vines := Vines(env, frame, VineCount);
    assert |vines| == 120;
    forall i | 4 <= i < 124
      ensures s[i] == VineSphere(env, frame, (i - 4) / 20, (i - 4) % 20)
    {
      assert s[i] == vines[i - 4];
    }
  }

  /** The inner loop of a vine: the 21 samples of its Bezier curve, from the first control point to the last. */
  method ChainPoints(env: Numerics, frame: int, m: int) returns (points: seq<Vec3>)
    ensures |points| == VineSpheres + 1
    ensures forall n :: 0 <= n < |points| ==> points[n] == Bezier(VineControls(env, frame, m), SampleT(n))
    ensures points[0] == Vec3(0.5 + m as real * 0.2, 0.0, 0.0)
    ensures points[VineSpheres] == Vec3(2.0 + m as real * 0.2, 0.0, 0.0)
  {
    points := [];
    var t := 0;
    while t < 101
      invariant 0 <= t <= 105 && t == 5 * |points|
      invariant forall n :: 0 <= n < |points| ==> points[n] == Bezier(VineControls(env, frame, m), SampleT(n))
    {
      var param := t as real / 100.0;
      var ctrl := VineControls(env, frame, m);
      points := points + [Bezier(ctrl, param)];
      t := t + 5;
    }
    assert SampleT(0) == 0.0 && SampleT(20) == 1.0;
  }

  /** One vine: sample the curve, then draw a sphere at every sample but the last. */
  method DrawVine(env: Numerics, frame: int, m: int) returns (out: seq<Primitive>)
    ensures out == Vine(env, frame, m)
  {
    var color := VineColor(frame, m);
    var points := ChainPoints(env, frame, m);
    out := [];
    var i := 0;
    while i < |points| - 1
      invariant 0 <= i <= |points| - 1
      invariant out == seq(i, n => VineSphere(env, frame, m, n))
    {
      out := out + [Sphere(points[i], 0.05, 10, 10, color)];
      i := i + 1;
    }
  }

  /** `draw_sector`: the radial lines, the six vines and the ellipses, in that order. */
  method DrawSector(env: Numerics, frame: int, pulse: real) returns (out: seq<Primitive>)
    ensures out == SectorSpec(env, frame, pulse)
  {
    out := [];
    var k := 0;
    while k < RadialCount
      invariant 0 <= k <= RadialCount
      invariant out == seq(k, i => RadialTriangle(env, frame, pulse, i))
    {
      out := out + [RadialTriangle(env, frame, pulse, k)];
      k := k + 1;
    }
    var lines := out;
    var m := 0;
    while m < VineCount
      invariant 0 <= m <= VineCount
      invariant out == lines + Vines(env, frame, m)
    {
      var vine := DrawVine(env, frame, m);
      out := out + vine;
      m := m + 1;
    }
    var shapes := out;
    var j := 0;
    while j < EllipseCount
      invariant 0 <= j <= EllipseCount
      invariant out == shapes + seq(j, i => EllipseSphere(env, frame, pulse, i))
    {
      out := out + [EllipseSphere(env, frame, pulse, j)];
      j := j + 1;
    }
  }

  // ---------------------------------------------------------------- the core

  /** `draw_core`: one finely tessellated sphere at the origin, pulsing and cycling its hue. */
  function CoreSphere(env: Numerics, frame: int, pulse: real): Primitive {
    var size := 0.5 + 0.2 * env.sin(frame as real * 0.03) * pulse;
    var color := HsbToRgb(WheelHue(frame, 6, 0, 0) as real, 0.8, 1.0);
    Sphere(Origin, size, 20, 20, Shade(color))
  }

  /** At frame 0 the core has radius 0.5 whatever the pulse, hue 0, hence the colour (1, 0.2, 0.2). */
  lemma CoreAtStart(env: Numerics, pulse: real)
    requires env.sin(0.0) == 0.0
    ensures CoreSphere(env, 0, pulse) == Sphere(Origin, 0.5, 20, 20, Rgba(1.0, 0.2, 0.2, 0.7))
  {
    Mod360InRange(0.0);
    assert SectorIndex(0.0) == 0 && Fraction(0.0) == 0.0;
    assert HsbToRgb(0.0, 0.8, 1.0) == Rgb(1.0, 0.2, 0.2);
  }

  /** With sin in [-1, 1] and a non-negative pulse, the core radius stays within 0.2 * pulse of 0.5. */
  lemma CoreRadiusBounds(env: Numerics, frame: int, pulse: real)
    requires -1.0 <= env.sin(frame as real * 0.03) <= 1.0 && 0.0 <= pulse
    ensures 0.5 - 0.2 * pulse <= CoreSphere(env, frame, pulse).radius <= 0.5 + 0.2 * pulse
  {
    var s := env.sin(frame as real * 0.03);
    RealArith.MulNonneg(1.0 - s, pulse);
    RealArith.MulNonneg(1.0 + s, pulse);
  }
}
