// The HSB colour model: hue in degrees, saturation and brightness in [0, 1],
// converted to an RGB triple in [0, 1] by the six-sector colour wheel.
module Color {

  import opened RealArith

  datatype Rgb = Rgb(r: real, g: real, b: real)

  predicate InUnit(x: real) { 0.0 <= x <= 1.0 }

  predicate IsColor(c: Rgb) { InUnit(c.r) && InUnit(c.g) && InUnit(c.b) }

  /** `min(1.0, max(0.0, x))`: out-of-range values are clamped, never rejected. */
  function Clamp01(x: real): (r: real)
    ensures InUnit(r)
    ensures InUnit(x) ==> r == x
    ensures x <= 0.0 ==> r == 0.0
    ensures x >= 1.0 ==> r == 1.0
  {
    if x < 0.0 then 0.0 else if x > 1.0 then 1.0 else x
  }

  /**
   * Python's `x % 360` on a number: the floored remainder, always in
   * [0, 360). Written as whole turns added or removed until the value is
   * in range; `Mod360IsFloored` shows it is `x - 360 * floor(x / 360)`.
   */
  function Mod360(x: real): (r: real)
    ensures 0.0 <= r < 360.0
    decreases if x < 0.0 then (-x).Floor + 361 else x.Floor
  {
    if x < 0.0 then Mod360(x + 360.0)
    else if x >= 360.0 then Mod360(x - 360.0)
    else x
  }

  /** The remainder is the floored one, as Python computes it. */
  lemma {:induction false} Mod360IsFloored(x: real)
    ensures Mod360(x) == x - 360.0 * (x / 360.0).Floor as real
    decreases if x < 0.0 then (-x).Floor + 361 else x.Floor
  {
    if x < 0.0 {
      Mod360IsFloored(x + 360.0);
      assert (x + 360.0) / 360.0 == x / 360.0 + 1.0;
      assert ((x + 360.0) / 360.0).Floor == (x / 360.0).Floor + 1;
    } else if x >= 360.0 {
      Mod360IsFloored(x - 360.0);
      assert (x - 360.0) / 360.0 == x / 360.0 - 1.0;
      assert ((x - 360.0) / 360.0).Floor == (x / 360.0).Floor - 1;
    } else {
      assert (x / 360.0).Floor == 0;
    }
  }

  /** Reducing a hue that is already in range changes nothing. */
  lemma Mod360InRange(x: real)
    requires 0.0 <= x < 360.0
    ensures Mod360(x) == x
  {
  }

  /** A full turn of the wheel changes nothing. */
  lemma Mod360Period(x: real)
    ensures Mod360(x + 360.0) == Mod360(x)
  {
  }

  /** `i = floor(h / 60)` on a reduced hue: always one of the six sectors. */
  function SectorIndex(h: real): (i: int)
    requires 0.0 <= h < 360.0
    ensures 0 <= i <= 5
    ensures i as real <= h / 60.0 < i as real + 1.0
  {
    if h < 60.0 then 0
    else if h < 120.0 then 1
    else if h < 180.0 then 2
    else if h < 240.0 then 3
    else if h < 300.0 then 4
    else 5
  }

  /** The sector is the floor of the reduced hue over 60, as `math.floor` gives it. */
  lemma SectorIndexIsFloor(h: real)
    requires 0.0 <= h < 360.0
    ensures SectorIndex(h) == (h / 60.0).Floor
  {
  }

  /** `f = h / 60 - i`: the position inside the sector. */
  function Fraction(h: real): (f: real)
    requires 0.0 <= h < 360.0
    ensures 0.0 <= f < 1.0
    ensures h == 60.0 * (SectorIndex(h) as real + f)
  {
    h / 60.0 - SectorIndex(h) as real
  }

  /** The product of two numbers in [0, 1] is in [0, 1] and below either factor. */
  lemma ProductInUnit(x: real, y: real)
    requires InUnit(x) && InUnit(y)
    ensures InUnit(x * y) && x * y <= y && x * y <= x
  {
    MulNonneg(x, y);
    MulNonneg(1.0 - x, y);
    MulNonneg(x, 1.0 - y);
    assert y - x * y == (1.0 - x) * y;
    assert x - x * y == x * (1.0 - y);
  }

  /** `b * (1 - x)` for a brightness b and a factor x, both in [0, 1]. */
  function Fade(b: real, x: real): (r: real)
    requires InUnit(b) && InUnit(x)
    ensures 0.0 <= r <= b
  {
    MulNonneg(b, 1.0 - x);
    MulNonneg(b, x);
    assert b - b * (1.0 - x) == b * x;
    b * (1.0 - x)
  }

  /** The larger the factor, the darker the fade. */
  lemma FadeAntitone(b: real, x: real, y: real)
    requires InUnit(b) && InUnit(x) && InUnit(y) && x <= y
    ensures Fade(b, y) <= Fade(b, x)
  {
    MulNonneg(b, y - x);
    assert Fade(b, x) - Fade(b, y) == b * (y - x);
  }

  /** The six-sector wheel on a reduced hue, a clamped non-zero saturation and a clamped brightness. */
  function Wheel(h: real, s: real, b: real): (c: Rgb)
    requires 0.0 <= h < 360.0 && 0.0 < s <= 1.0 && InUnit(b)
    ensures IsColor(c)
  {
    var i := SectorIndex(h);
    var f := Fraction(h);
    ProductInUnit(s, f);
    ProductInUnit(s, 1.0 - f);
    var p := Fade(b, s);
    var q := Fade(b, s * f);
    var t := Fade(b, s * (1.0 - f));
    if i == 0 then Rgb(b, t, p)
    else if i == 1 then Rgb(q, b, p)
    else if i == 2 then Rgb(p, b, t)
    else if i == 3 then Rgb(p, q, b)
    else if i == 4 then Rgb(t, p, b)
    else Rgb(b, p, q)
  }

  /** `hsb_to_rgb(h, s, b)`: every channel of the result is in [0, 1], whatever the inputs. */
  function HsbToRgb(h: real, s: real, b: real): (c: Rgb)
    ensures IsColor(c)
  {
    var h := Mod360(h);
    var s := Clamp01(s);
    var b := Clamp01(b);
    if s == 0.0 then Rgb(b, b, b) else Wheel(h, s, b)
  }

  /** Once clamped, a saturation of 0 (so every s <= 0) gives the grey (b, b, b). */
  lemma Achromatic(h: real, s: real, b: real)
    requires Clamp01(s) == 0.0
    ensures HsbToRgb(h, s, b) == Rgb(Clamp01(b), Clamp01(b), Clamp01(b))
  {
  }

  /** The hue is reduced modulo 360 before use, so a full turn gives the same colour. */
  lemma HuePeriodic(h: real, s: real, b: real)
    ensures HsbToRgb(h + 360.0, s, b) == HsbToRgb(h, s, b)
  {
    Mod360Period(h);
  }

  /** One channel of c is `hi`, one is `lo`, and every channel lies between them. */
  predicate Spans(c: Rgb, lo: real, hi: real) {
    (c.r == hi || c.g == hi || c.b == hi)
    && (c.r == lo || c.g == lo || c.b == lo)
    && lo <= c.r <= hi && lo <= c.g <= hi && lo <= c.b <= hi
  }

  /** The wheel's channels lie between p = Fade(b, s) and b, and both bounds occur. */
  lemma WheelExtremes(h: real, s: real, b: real)
    requires 0.0 <= h < 360.0 && 0.0 < s <= 1.0 && InUnit(b)
    ensures Spans(Wheel(h, s, b), Fade(b, s), b)
  {
    var f := Fraction(h);
    ProductInUnit(s, f);
    ProductInUnit(s, 1.0 - f);
    FadeAntitone(b, s * f, s);
    FadeAntitone(b, s * (1.0 - f), s);
  }

  /**
   * With a non-zero saturation one channel is the brightness b and one is
   * p = Fade(b, s) = b(1 - s); p is the smallest channel and b the largest.
   */
  lemma ChromaticExtremes(h: real, s: real, b: real)
    requires Clamp01(s) > 0.0
    ensures Spans(HsbToRgb(h, s, b), Fade(Clamp01(b), Clamp01(s)), Clamp01(b))
  {
    var sc, v := Clamp01(s), Clamp01(b);
    assert HsbToRgb(h, s, b) == Wheel(Mod360(h), sc, v);
    WheelExtremes(Mod360(h), sc, v);
  }

  /** The three primaries at full saturation and brightness: hue 0 is red, 120 green, 240 blue. */
  lemma Primaries()
    ensures HsbToRgb(0.0, 1.0, 1.0) == Rgb(1.0, 0.0, 0.0)
    ensures HsbToRgb(120.0, 1.0, 1.0) == Rgb(0.0, 1.0, 0.0)
    ensures HsbToRgb(240.0, 1.0, 1.0) == Rgb(0.0, 0.0, 1.0)
  {
    Mod360InRange(0.0);
    Mod360InRange(120.0);
    Mod360InRange(240.0);
    assert SectorIndex(0.0) == 0 && Fraction(0.0) == 0.0;
    assert SectorIndex(120.0) == 2 && Fraction(120.0) == 0.0;
    assert SectorIndex(240.0) == 4 && Fraction(240.0) == 0.0;
  }
}
