/** `rgbToHsv` (src/lib/colors.ts), the key the palettes are ordered by. */
module Hsv {
  import opened Types
  import opened Colors

  /** Hue in whole degrees, saturation and value in [0,1]. */
  datatype Hsv = Hsv(h: int, s: real, v: real)

  function Max3(x: real, y: real, z: real): (r: real)
    ensures r >= x && r >= y && r >= z && (r == x || r == y || r == z)
  {
    var xy := if x >= y then x else y;
    if xy >= z then xy else z
  }

  function Min3(x: real, y: real, z: real): (r: real)
    ensures r <= x && r <= y && r <= z && (r == x || r == y || r == z)
  {
    var xy := if x <= y then x else y;
    if xy <= z then xy else z
  }

  /** The integer part of `x`, rounded toward zero. */
  function Trunc(x: real): (n: int)
    ensures x >= 0.0 ==> 0 <= n && n as real <= x < n as real + 1.0
    ensures x < 0.0 ==> n <= 0 && n as real - 1.0 < x <= n as real
  {
    if x >= 0.0 then x.Floor else -((-x).Floor)
  }

  /** JavaScript's `%` on numbers: the remainder of the quotient truncated
      toward zero, so it takes the sign of `x`. */
  function JsRemainder(x: real, y: real): real
    requires y != 0.0
  {
    x - y * Trunc(x / y) as real
  }

  /** A remainder by 6 leaves every value of (-6, 6) alone. */
  lemma JsRemainderSmall(x: real)
    requires -6.0 < x < 6.0
    ensures JsRemainder(x, 6.0) == x
  {
    assert -1.0 < x / 6.0 < 1.0;
    assert Trunc(x / 6.0) == 0;
  }

  /** The hue sector before scaling to degrees. */
  function HueSector(r: real, g: real, b: real): real {
    var max, min := Max3(r, g, b), Min3(r, g, b);
    var d := max - min;
    if d == 0.0 then 0.0
    else if max == r then JsRemainder((g - b) / d, 6.0)
    else if max == g then (b - r) / d + 2.0
    else (r - g) / d + 4.0
  }

  /** Hue, saturation and value of three channels scaled to [0,1]. */
  function HsvOf(r: real, g: real, b: real): Hsv {
    var max, min := Max3(r, g, b), Min3(r, g, b);
    var d := max - min;
    var h := HueSector(r, g, b);
    Hsv(Round((if h < 0.0 then h + 6.0 else h) * 60.0),
        if max == 0.0 then 0.0 else d / max,
        max)
  }

  function RgbToHsv(c: RGB): Hsv {
    HsvOf(c.r as real / 255.0, c.g as real / 255.0, c.b as real / 255.0)
  }

  lemma RatioBounds(n: real, d: real)
    requires d > 0.0 && -d <= n <= d
    ensures -1.0 <= n / d <= 1.0
  {
    assert n / d * d == n;
  }

  lemma HueSectorRange(r: real, g: real, b: real)
    ensures var h := HueSector(r, g, b);
            0.0 <= (if h < 0.0 then h + 6.0 else h) < 6.0
  {
    var max, min := Max3(r, g, b), Min3(r, g, b);
    var d := max - min;
    if d != 0.0 {
      if max == r {
        RatioBounds(g - b, d);
        JsRemainderSmall((g - b) / d);
      } else if max == g {
        RatioBounds(b - r, d);
      } else {
        RatioBounds(r - g, d);
      }
    }
  }

  /** The hue is a whole number of degrees in [0,360] (360 itself is
      reachable because the degrees are rounded after the sector is scaled),
      saturation and value lie in [0,1]. */
  lemma RgbToHsvRange(c: RGB)
    ensures 0 <= RgbToHsv(c).h <= 360
    ensures 0.0 <= RgbToHsv(c).s <= 1.0
    ensures 0.0 <= RgbToHsv(c).v <= 1.0
  {
    HsvOfRange(c.r as real / 255.0, c.g as real / 255.0, c.b as real / 255.0);
  }

  /** The same bounds for any three channels in [0,1]. */
  lemma HsvOfRange(r: real, g: real, b: real)
    requires 0.0 <= r <= 1.0 && 0.0 <= g <= 1.0 && 0.0 <= b <= 1.0
    ensures 0 <= HsvOf(r, g, b).h <= 360
    ensures 0.0 <= HsvOf(r, g, b).s <= 1.0
    ensures 0.0 <= HsvOf(r, g, b).v <= 1.0
  {
    var h := HueSector(r, g, b);
    HueSectorRange(r, g, b);
    DegreesRange(if h < 0.0 then h + 6.0 else h);
    var max, min := Max3(r, g, b), Min3(r, g, b);
    assert 0.0 <= min && max <= 1.0;
    if max != 0.0 {
      RatioBounds(max - min, max);
    }
  }

  /** A sector in [0,6) rounds to a whole number of degrees in [0,360]. */
  lemma DegreesRange(t: real)
    requires 0.0 <= t < 6.0
    ensures 0 <= Round(t * 60.0) <= 360
  {
  }

  /** A grey has no hue and no saturation; its value is its level. */
  lemma RgbToHsvGrey(v: Channel)
    ensures RgbToHsv(RGB(v, v, v)) == Hsv(0, 0.0, v as real / 255.0)
  {
    var x := v as real / 255.0;
    assert Max3(x, x, x) == x && Min3(x, x, x) == x;
    assert HueSector(x, x, x) == 0.0;
  }

  /** The primaries sit at hues 0, 120 and 240, fully saturated and bright. */
  lemma RgbToHsvPrimaries()
    ensures RgbToHsv(RGB(255, 0, 0)) == Hsv(0, 1.0, 1.0)
    ensures RgbToHsv(RGB(0, 255, 0)) == Hsv(120, 1.0, 1.0)
    ensures RgbToHsv(RGB(0, 0, 255)) == Hsv(240, 1.0, 1.0)
  {
    assert 255 as real / 255.0 == 1.0 && 0 as real / 255.0 == 0.0;
    JsRemainderSmall(0.0);
    assert HueSector(1.0, 0.0, 0.0) == 0.0;
    assert HueSector(0.0, 1.0, 0.0) == 2.0;
    assert HueSector(0.0, 0.0, 1.0) == 4.0;
  }

  /** A red with a touch of blue lands on hue 360, not 0. */
  lemma HueCanBe360()
    ensures RgbToHsv(RGB(255, 0, 1)).h == 360
  {
    var r, g, b := 1.0, 0.0, 1.0 / 255.0;
    assert 255 as real / 255.0 == r && 0 as real / 255.0 == g && 1 as real / 255.0 == b;
    assert Max3(r, g, b) == 1.0 && Min3(r, g, b) == 0.0;
    var x := (g - b) / 1.0;
    JsRemainderSmall(x);
    assert HueSector(r, g, b) == -1.0 / 255.0;
    assert (-1.0 / 255.0 + 6.0) * 60.0 + 0.5 == 360.5 - 60.0 / 255.0;
    assert Round((-1.0 / 255.0 + 6.0) * 60.0) == 360;
  }
}
