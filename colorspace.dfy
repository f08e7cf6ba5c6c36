/** The conversions between sRGB and CIE L*a*b* (D65 white), the CIE76
    colour difference and the nearest-colour search (src/lib/colors.ts).
    The linear parts of every formula are written out over exact reals; the
    floating-point primitives they rest on (powers, roots and the Euclidean
    norm) are left as parameters. */
module ColorSpace {
  import opened Types
  import opened Colors

  /** `x ** y`, `Math.cbrt`, the cube `t * t * t` of the inverse Lab
      companding, and the norm `Math.sqrt(x * x + y * y + z * z)` of
      `deltaE76`. */
  datatype Numerics = Numerics(pow: (real, real) -> real, cbrt: real -> real, cube: real -> real,
                               norm: (real, real, real) -> real)

  /** What the distance lemmas need of the norm, both of which hold of its
      IEEE-754 evaluation: it is 0 at the origin and never negative. */
  ghost predicate Sound(m: Numerics) {
    && m.norm(0.0, 0.0, 0.0) == 0.0
    && (forall x, y, z :: 0.0 <= m.norm(x, y, z))
  }

  /** The norm does not see the sign of its arguments, as the squares inside
      it do not. */
  ghost predicate Even(m: Numerics) {
    forall x, y, z, x', y', z' :: x == -x' && y == -y' && z == -z' ==> m.norm(x, y, z) == m.norm(x', y', z')
  }

  /** A colour in CIE L*a*b*. */
  datatype Lab = Lab(l: real, a: real, b: real)

  datatype Xyz = Xyz(x: real, y: real, z: real)

  /** sRGB gamma decoding of one channel scaled to [0,1]. */
  function Linearize(m: Numerics, c: real): real {
    if c <= 0.04045 then c / 12.92 else m.pow((c + 0.055) / 1.055, 2.4)
  }

  /** `rgb2xyz`. */
  function RgbToXyz(m: Numerics, c: RGB): Xyz {
    var r := Linearize(m, c.r as real / 255.0);
    var g := Linearize(m, c.g as real / 255.0);
    var b := Linearize(m, c.b as real / 255.0);
    Xyz(0.4124 * r + 0.3576 * g + 0.1805 * b,
        0.2126 * r + 0.7152 * g + 0.0722 * b,
        0.0193 * r + 0.1192 * g + 0.9505 * b)
  }

  /** The piecewise cube root of the L*a*b* definition. */
  function LabF(m: Numerics, t: real): real {
    if t > 0.008856 then m.cbrt(t) else 7.787 * t + 16.0 / 116.0
  }

  /** `xyz2lab`, against the D65 reference white. */
  function XyzToLab(m: Numerics, v: Xyz): Lab {
    var fx := LabF(m, v.x / 0.95047);
    var fy := LabF(m, v.y / 1.0);
    var fz := LabF(m, v.z / 1.08883);
    Lab(116.0 * fy - 16.0, 500.0 * (fx - fy), 200.0 * (fy - fz))
  }

  /** `rgb2lab`. */
  function RgbToLab(m: Numerics, c: RGB): Lab {
    XyzToLab(m, RgbToXyz(m, c))
  }

  /** A grey's Y is the linearised channel itself, the luminance weights
      adding up to 1; in particular black has no luminance. */
  lemma RgbToXyzGrey(m: Numerics, v: Channel)
    ensures RgbToXyz(m, RGB(v, v, v)).y == Linearize(m, v as real / 255.0)
  {
  }

  /** Black is the origin of XYZ. */
  lemma RgbToXyzBlack(m: Numerics)
    ensures RgbToXyz(m, RGB(0, 0, 0)) == Xyz(0.0, 0.0, 0.0)
  {
    assert Linearize(m, 0 as real / 255.0) == 0.0;
  }

  /** The a* axis is zero when X and Y are in the white point's proportion,
      and the b* axis when Z and Y are; the origin of XYZ is L* = 0. */
  lemma XyzToLabAxes(m: Numerics, v: Xyz)
    ensures v.x / 0.95047 == v.y ==> XyzToLab(m, v).a == 0.0
    ensures v.z / 1.08883 == v.y ==> XyzToLab(m, v).b == 0.0
    ensures v == Xyz(0.0, 0.0, 0.0) ==> XyzToLab(m, v) == Lab(0.0, 0.0, 0.0)
  {
  }

  /** Black is the origin of L*a*b*. */
  lemma RgbToLabBlack(m: Numerics)
    ensures RgbToLab(m, RGB(0, 0, 0)) == Lab(0.0, 0.0, 0.0)
  {
    RgbToXyzBlack(m);
    XyzToLabAxes(m, Xyz(0.0, 0.0, 0.0));
  }

  /** The inverse of `LabF`. */
  function LabFInverse(m: Numerics, t: real): real {
    var t3 := m.cube(t);
    if t3 > 0.008856 then t3 else (t - 16.0 / 116.0) / 7.787
  }

  /** The gamma-encoded channel in [0,1] that `lab2rgb` computes from a
      linear channel clamped to [0,1]. */
  function Gamma(m: Numerics, c: real): real {
    var k := Clamp(c, 0.0, 1.0);
    if k <= 0.0031308 then 12.92 * k else 1.055 * m.pow(k, GammaExponent) - 0.055
  }

  /** The exponent `1 / 2.4` of the sRGB gamma encoding. */
  const GammaExponent: real := 1.0 / 2.4

  /** One RGB channel as `lab2rgb` writes it: the gamma-encoded value is
      handed to `clamp8` as it is, without scaling it to [0,255]. */
  function EncodeAsWritten(m: Numerics, c: real): Channel {
    Clamp8(Gamma(m, c))
  }

  /** The evidently intended channel: the gamma-encoded value scaled by 255
      before `clamp8`. No light gives black. */
  function Encode(m: Numerics, c: real): (v: Channel)
    ensures c <= 0.0 ==> v == 0
  {
    Clamp8(255.0 * Gamma(m, c))
  }

  /** What the gamma step needs of `x ** (1 / 2.4)`, which its IEEE
      evaluation satisfies: it maps 1 to 1 and no point of [0,1] above 1. */
  ghost predicate PowUnit(m: Numerics) {
    && m.pow(1.0, GammaExponent) == 1.0
    && forall x :: 0.0 <= x <= 1.0 ==> m.pow(x, GammaExponent) <= 1.0
  }

  /** The gamma-encoded value is at most 1. */
  lemma GammaAtMostOne(m: Numerics, c: real)
    requires PowUnit(m)
    ensures Gamma(m, c) <= 1.0
  {
    var k := Clamp(c, 0.0, 1.0);
    if k > 0.0031308 {
      assert m.pow(k, GammaExponent) <= 1.0;
    }
  }

  /** As written, no channel gets above 1. */
  lemma EncodeAsWrittenAtMostOne(m: Numerics, c: real)
    requires PowUnit(m)
    ensures EncodeAsWritten(m, c) <= 1
  {
    GammaAtMostOne(m, c);
  }

  /** With the scaling, full linear intensity gives the full 8-bit value. */
  lemma EncodeFullScale(m: Numerics, c: real)
    requires PowUnit(m) && c >= 1.0
    ensures Encode(m, c) == 255
  {
    assert Clamp(c, 0.0, 1.0) == 1.0;
    assert Gamma(m, c) == 1.055 * 1.0 - 0.055;
  }

  /** The linear RGB channels of a Lab colour, before encoding. */
  function LabToLinear(m: Numerics, lab: Lab): (real, real, real) {
    var fy := (lab.l + 16.0) / 116.0;
    var fx := fy + lab.a / 500.0;
    var fz := fy - lab.b / 200.0;
    var x := 0.95047 * LabFInverse(m, fx);
    var y := 1.0 * LabFInverse(m, fy);
    var z := 1.08883 * LabFInverse(m, fz);
    (3.2406 * x + -1.5372 * y + -0.4986 * z,
     -0.9689 * x + 1.8758 * y + 0.0415 * z,
     0.0557 * x + -0.2040 * y + 1.0570 * z)
  }

  /** `lab2rgb` as the source writes it. */
  function LabToRgbAsWritten(m: Numerics, lab: Lab): RGB {
    var lin := LabToLinear(m, lab);
    RGB(EncodeAsWritten(m, lin.0), EncodeAsWritten(m, lin.1), EncodeAsWritten(m, lin.2))
  }

  /** Every colour `lab2rgb` produces as written is one of #000000 to
      #010101, whatever the Lab input, white included. */
  lemma LabToRgbAsWrittenIsDark(m: Numerics, lab: Lab)
    requires PowUnit(m)
    ensures var c := LabToRgbAsWritten(m, lab); c.r <= 1 && c.g <= 1 && c.b <= 1
  {
    var lin := LabToLinear(m, lab);
    EncodeAsWrittenAtMostOne(m, lin.0);
    EncodeAsWrittenAtMostOne(m, lin.1);
    EncodeAsWrittenAtMostOne(m, lin.2);
  }

  /** `lab2rgb` with the intended scaling: every channel goes through
      `clamp8`, so the result is a valid 8-bit colour whatever the Lab input. */
  function LabToRgb(m: Numerics, lab: Lab): RGB {
    var lin := LabToLinear(m, lab);
    RGB(Encode(m, lin.0), Encode(m, lin.1), Encode(m, lin.2))
  }

  /** With the scaling, a Lab colour whose linear channels are all at full
      intensity comes back as #FFFFFF, where the written code gives at most
      #010101. */
  lemma LabToRgbFullScale(m: Numerics, lab: Lab)
    requires PowUnit(m)
    requires var lin := LabToLinear(m, lab); lin.0 >= 1.0 && lin.1 >= 1.0 && lin.2 >= 1.0
    ensures LabToRgb(m, lab) == RGB(255, 255, 255)
  {
    var lin := LabToLinear(m, lab);
    EncodeFullScale(m, lin.0);
    EncodeFullScale(m, lin.1);
    EncodeFullScale(m, lin.2);
  }

  /** `deltaE76`: Euclidean distance in L*a*b*. */
  function DeltaE76(m: Numerics, p: Lab, q: Lab): real {
    m.norm(p.l - q.l, p.a - q.a, p.b - q.b)
  }

  /** The distance does not depend on the order of its arguments. */
  lemma DeltaE76Symmetric(m: Numerics, p: Lab, q: Lab)
    requires Even(m)
    ensures DeltaE76(m, p, q) == DeltaE76(m, q, p)
  {
    assert m.norm(p.l - q.l, p.a - q.a, p.b - q.b) == m.norm(q.l - p.l, q.a - p.a, q.b - p.b);
  }

  lemma DeltaE76NonNegative(m: Numerics, p: Lab, q: Lab)
    requires Sound(m)
    ensures DeltaE76(m, p, q) >= 0.0
  {
  }

  lemma DeltaE76SelfZero(m: Numerics, p: Lab)
    requires Sound(m)
    ensures DeltaE76(m, p, p) == 0.0
  {
  }

  /** The Lab midpoint of two colours. */
  function Midpoint(p: Lab, q: Lab): (r: Lab)
    ensures r.l - p.l == q.l - r.l && r.a - p.a == q.a - r.a && r.b - p.b == q.b - r.b
  {
    Lab((p.l + q.l) / 2.0, (p.a + q.a) / 2.0, (p.b + q.b) / 2.0)
  }

  /** The running `bd` of the nearest-centre scan starts here. */
  const NoDistance: real := 1000000000.0

  /** The nearest-centre scan, in which a centre strictly closer than the
      best distance so far takes over, run from position `i` on with the best
      index and distance so far: the index and distance it ends with. */
  function Scan(m: Numerics, p: Lab, cs: seq<Lab>, i: nat, bi: nat, bd: real): (r: (nat, real))
    requires i <= |cs|
    ensures r.0 == bi || i <= r.0 < |cs|
    decreases |cs| - i
  {
    if i == |cs| then (bi, bd)
    else
      var d := DeltaE76(m, p, cs[i]);
      if d < bd then Scan(m, p, cs, i + 1, i, d) else Scan(m, p, cs, i + 1, bi, bd)
  }

  /** The index the scan settles on, starting from `bi = 0, bd = 1e9`. */
  function Nearest(m: Numerics, p: Lab, cs: seq<Lab>): (r: nat)
    ensures |cs| > 0 ==> r < |cs|
  {
    Scan(m, p, cs, 0, 0, NoDistance).0
  }

  /** What the scan has established after looking at `cs[..i]`. */
  ghost predicate ScanState(m: Numerics, p: Lab, cs: seq<Lab>, i: nat, bi: nat, bd: real)
    requires i <= |cs|
  {
    || (bi == 0 && bd == NoDistance && forall j :: 0 <= j < i ==> DeltaE76(m, p, cs[j]) >= NoDistance)
    || (bi < i && bd == DeltaE76(m, p, cs[bi]) && bd < NoDistance
        && (forall j :: 0 <= j < bi ==> DeltaE76(m, p, cs[j]) > bd)
        && (forall j :: bi <= j < i ==> DeltaE76(m, p, cs[j]) >= bd))
  }

  /** The nearest index is the FIRST index of minimal distance (ties go to
      the earlier centre); when no centre is closer than 1e9 it stays 0. */
  ghost predicate IsFirstNearest(m: Numerics, p: Lab, cs: seq<Lab>, r: nat) {
    && r < |cs|
    && ((forall j :: 0 <= j < |cs| ==> DeltaE76(m, p, cs[j]) >= NoDistance) ==> r == 0)
    && ((exists j :: 0 <= j < |cs| && DeltaE76(m, p, cs[j]) < NoDistance) ==>
          && DeltaE76(m, p, cs[r]) < NoDistance
          && (forall j :: 0 <= j < r ==> DeltaE76(m, p, cs[j]) > DeltaE76(m, p, cs[r]))
          && (forall j :: r <= j < |cs| ==> DeltaE76(m, p, cs[j]) >= DeltaE76(m, p, cs[r])))
  }

  /** One more centre looked at: a strictly closer one takes over, any
      other leaves the best so far in place. */
  lemma ScanStateStep(m: Numerics, p: Lab, cs: seq<Lab>, i: nat, bi: nat, bd: real)
    requires i < |cs| && ScanState(m, p, cs, i, bi, bd)
    ensures var d := DeltaE76(m, p, cs[i]);
      if d < bd then ScanState(m, p, cs, i + 1, i, d) else ScanState(m, p, cs, i + 1, bi, bd)
  {
  }

  /** Once every centre has been looked at, the best so far is the first nearest. */
  lemma ScanStateDone(m: Numerics, p: Lab, cs: seq<Lab>, bi: nat, bd: real)
    requires 0 < |cs| && ScanState(m, p, cs, |cs|, bi, bd)
    ensures IsFirstNearest(m, p, cs, bi)
  {
  }

  /** The scan keeps its invariant to the end. */
  lemma {:induction false} ScanKeepsState(m: Numerics, p: Lab, cs: seq<Lab>, i: nat, bi: nat, bd: real)
    requires i <= |cs| && ScanState(m, p, cs, i, bi, bd)
    ensures var r := Scan(m, p, cs, i, bi, bd); ScanState(m, p, cs, |cs|, r.0, r.1)
    decreases |cs| - i
  {
    if i < |cs| {
      var d := DeltaE76(m, p, cs[i]);
      ScanStateStep(m, p, cs, i, bi, bd);
      if d < bd {
        ScanKeepsState(m, p, cs, i + 1, i, d);
      } else {
        ScanKeepsState(m, p, cs, i + 1, bi, bd);
      }
    }
  }

  lemma NearestIsFirstNearest(m: Numerics, p: Lab, cs: seq<Lab>)
    requires |cs| > 0
    ensures IsFirstNearest(m, p, cs, Nearest(m, p, cs))
  {
    ScanKeepsState(m, p, cs, 0, 0, NoDistance);
    var r := Scan(m, p, cs, 0, 0, NoDistance);
    ScanStateDone(m, p, cs, r.0, r.1);
  }

  /** The nearest-centre loop as the source writes it. */
  method NearestIndex(m: Numerics, p: Lab, cs: seq<Lab>) returns (bi: nat)
    ensures bi == Nearest(m, p, cs)
    ensures |cs| > 0 ==> IsFirstNearest(m, p, cs, bi)
  {
    bi := 0;
    var bd := NoDistance;
    for i := 0 to |cs|
      invariant bi <= i
      invariant Scan(m, p, cs, i, bi, bd) == Scan(m, p, cs, 0, 0, NoDistance)
    {
      var d := DeltaE76(m, p, cs[i]);
      if d < bd {
        bd := d;
        bi := i;
      }
    }
    if |cs| > 0 {
      NearestIsFirstNearest(m, p, cs);
    }
  }
}
