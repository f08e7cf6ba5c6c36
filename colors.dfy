/** Clamping, rounding and the `#RRGGBB` text of a colour (the top of
    src/lib/colors.ts), plus the swatch-list helpers every palette producer
    shares. */
module Colors {
  import opened ArrayOps
  import opened Types

  /** `v` limited to the interval from `lo` to `hi`. */
  function Clamp(v: real, lo: real, hi: real): (r: real)
    ensures lo <= hi ==> lo <= r <= hi
    ensures lo <= v <= hi ==> r == v
    ensures v < lo ==> r == lo
    ensures lo <= hi < v ==> r == hi
    ensures r == lo || r == hi || r == v
  {
    var low := if v < hi then v else hi;
    if low > lo then low else lo
  }

  /** JavaScript's `Math.round`: the nearest integer, halves rounded up. */
  function Round(v: real): (n: int)
    ensures n as real - 0.5 <= v < n as real + 0.5
  {
    (v + 0.5).Floor
  }

  /** `clamp8`: `v` rounded, then clamped to [0,255]: the nearest 8-bit channel value. */
  function Clamp8(v: real): (r: Channel)
    ensures 0 <= Round(v) <= 255 ==> r == Round(v)
    ensures Round(v) < 0 ==> r == 0
    ensures Round(v) > 255 ==> r == 255
  {
    var c := Clamp(Round(v) as real, 0.0, 255.0);
    assert c == 0.0 || c == 255.0 || c == Round(v) as real;
    c.Floor
  }

  /** One lower-case hexadecimal digit, as `Number.prototype.toString(16)` writes it. */
  function LowerDigit(d: int): char
    requires 0 <= d < 16
  {
    if d < 10 then ('0' as int + d) as char else ('a' as int + d - 10) as char
  }

  /** One upper-case hexadecimal digit. */
  function UpperDigit(d: int): char
    requires 0 <= d < 16
  {
    if d < 10 then ('0' as int + d) as char else ('A' as int + d - 10) as char
  }

  predicate IsUpperHexDigit(ch: char) {
    '0' <= ch <= '9' || 'A' <= ch <= 'F'
  }

  /** `n.toString(16)` for a non-negative integer: no leading zeros. */
  function ToHexString(n: nat): (s: string)
    ensures |s| >= 1
  {
    if n < 16 then [LowerDigit(n)] else ToHexString(n / 16) + [LowerDigit(n % 16)]
  }

  function Pow16(k: nat): (p: nat)
    ensures p >= 1
  {
    if k == 0 then 1 else 16 * Pow16(k - 1)
  }

  /** The `width` lowest hexadecimal digits of `m`, most significant first. */
  function HexDigits(m: nat, width: nat): (s: string)
    ensures |s| == width
  {
    if width == 0 then "" else HexDigits(m / 16, width - 1) + [LowerDigit(m % 16)]
  }

  /** Adding 16^k before printing pins the width: the text is a marker
      digit '1' followed by exactly k digits of m, leading zeros included. */
  lemma {:induction false} MarkedHexString(k: nat, m: nat)
    requires m < Pow16(k)
    ensures ToHexString(Pow16(k) + m) == "1" + HexDigits(m, k)
  {
    if k > 0 {
      var p := Pow16(k - 1);
      var n := Pow16(k) + m;
      assert n == 16 * (p + m / 16) + m % 16;
      assert n / 16 == p + m / 16 && n % 16 == m % 16;
      assert m / 16 < p;
      MarkedHexString(k - 1, m / 16);
    }
  }

  /** Printing `a * 16^w + b` with `w + w2` digits prints `a` with `w2`
      digits and then `b` with `w`, for `b < 16^w`. */
  lemma {:induction false} HexDigitsSplit(a: nat, b: nat, w2: nat, w: nat)
    requires b < Pow16(w)
    ensures HexDigits(a * Pow16(w) + b, w2 + w) == HexDigits(a, w2) + HexDigits(b, w)
  {
    if w == 0 {
      assert b == 0;
    } else {
      var p := Pow16(w - 1);
      var n := a * Pow16(w) + b;
      assert a * (16 * p) == 16 * (a * p);
      assert n == 16 * (a * p + b / 16) + b % 16;
      assert n / 16 == a * p + b / 16 && n % 16 == b % 16;
      assert b / 16 < p;
      HexDigitsSplit(a, b / 16, w2, w - 1);
    }
  }

  lemma ByteHexDigits(x: Channel)
    ensures HexDigits(x, 2) == [LowerDigit(x / 16), LowerDigit(x % 16)]
  {
    assert x / 16 / 16 == 0;
  }

  /** `rgbToHex`: '#' followed by the base-16 text of 2^24 + r·2^16 + g·2^8 + b
      with its leading '1' dropped. The shifts cannot overflow for 8-bit
      channels, so they are multiplications. */
  function RgbToHex(c: RGB): string {
    "#" + ToHexString(0x1000000 + c.r * 0x10000 + c.g * 0x100 + c.b)[1..]
  }

  /** `rgbToHex` writes `#` and two lower-case digits per channel, R, G, B. */
  lemma RgbToHexDigits(c: RGB)
    ensures RgbToHex(c) == "#" + [LowerDigit(c.r / 16), LowerDigit(c.r % 16),
                                  LowerDigit(c.g / 16), LowerDigit(c.g % 16),
                                  LowerDigit(c.b / 16), LowerDigit(c.b % 16)]
  {
    RgbToHexLayout(c);
  }

  lemma RgbToHexLayout(c: RGB)
    ensures ToHexString(0x1000000 + c.r * 0x10000 + c.g * 0x100 + c.b)[1..]
         == [LowerDigit(c.r / 16), LowerDigit(c.r % 16),
             LowerDigit(c.g / 16), LowerDigit(c.g % 16),
             LowerDigit(c.b / 16), LowerDigit(c.b % 16)]
  {
    var m := (c.r * 0x100 + c.g) * 0x100 + c.b;
    assert Pow16(6) == 0x1000000;
    MarkedHexString(6, m);
    ChannelDigits(c);
  }

  /** The six digits of the packed colour are two per channel, R, G, B. */
  lemma ChannelDigits(c: RGB)
    ensures HexDigits((c.r * 0x100 + c.g) * 0x100 + c.b, 6)
         == [LowerDigit(c.r / 16), LowerDigit(c.r % 16),
             LowerDigit(c.g / 16), LowerDigit(c.g % 16),
             LowerDigit(c.b / 16), LowerDigit(c.b % 16)]
  {
    var rg := c.r * 0x100 + c.g;
    assert Pow16(2) == 0x100;
    HexDigitsSplit(rg, c.b, 4, 2);
    HexDigitsSplit(c.r, c.g, 2, 2);
    ByteHexDigits(c.r);
    ByteHexDigits(c.g);
    ByteHexDigits(c.b);
  }

  /** The ASCII part of `String.prototype.toUpperCase`. */
  function UpperChar(ch: char): char {
    if 'a' <= ch <= 'z' then (ch as int - 32) as char else ch
  }

  function ToUpper(s: string): (u: string)
    ensures |u| == |s|
  {
    seq(|s|, i requires 0 <= i < |s| => UpperChar(s[i]))
  }

  lemma UpperOfLower(d: int)
    requires 0 <= d < 16
    ensures UpperChar(LowerDigit(d)) == UpperDigit(d)
  {
  }

  /** `hexOf(rgb)`: the canonical `#RRGGBB` text of a colour, channel by
      channel in R, G, B order, two upper-case digits each. */
  function HexOf(c: RGB): (s: string)
    ensures s == "#" + [UpperDigit(c.r / 16), UpperDigit(c.r % 16),
                        UpperDigit(c.g / 16), UpperDigit(c.g % 16),
                        UpperDigit(c.b / 16), UpperDigit(c.b % 16)]
  {
    UpperOfLower(c.r / 16);
    UpperOfLower(c.r % 16);
    UpperOfLower(c.g / 16);
    UpperOfLower(c.g % 16);
    UpperOfLower(c.b / 16);
    UpperOfLower(c.b % 16);
    RgbToHexDigits(c);
    ToUpper(RgbToHex(c))
  }

  /** Every `hexOf` text matches `#[0-9A-F]{6}`. */
  lemma HexOfShape(c: RGB)
    ensures |HexOf(c)| == 7 && HexOf(c)[0] == '#'
    ensures forall i :: 1 <= i < 7 ==> IsUpperHexDigit(HexOf(c)[i])
  {
  }

  lemma UpperDigitInjective(x: int, y: int)
    requires 0 <= x < 16 && 0 <= y < 16
    ensures UpperDigit(x) == UpperDigit(y) ==> x == y
  {
  }

  /** Distinct colours have distinct hex texts. */
  lemma HexOfInjective(c: RGB, d: RGB)
    ensures HexOf(c) == HexOf(d) <==> c == d
  {
    if HexOf(c) == HexOf(d) {
      var h, e := HexOf(c), HexOf(d);
      assert h[1] == e[1] && h[2] == e[2] && h[3] == e[3];
      assert h[4] == e[4] && h[5] == e[5] && h[6] == e[6];
      UpperDigitInjective(c.r / 16, d.r / 16);
      UpperDigitInjective(c.r % 16, d.r % 16);
      UpperDigitInjective(c.g / 16, d.g / 16);
      UpperDigitInjective(c.g % 16, d.g % 16);
      UpperDigitInjective(c.b / 16, d.b / 16);
      UpperDigitInjective(c.b % 16, d.b % 16);
    }
  }

  /** The lower-case text `rgbToHex` gives and the canonical `hexOf` text
      agree exactly when none of the six digits is a letter. */
  lemma RgbToHexMatchesHexOfIffNoLetters(c: RGB)
    ensures RgbToHex(c) == HexOf(c) <==>
      (c.r / 16 < 10 && c.r % 16 < 10 && c.g / 16 < 10 && c.g % 16 < 10 && c.b / 16 < 10 && c.b % 16 < 10)
  {
    RgbToHexDigits(c);
    var l, u := RgbToHex(c), HexOf(c);
    if l == u {
      assert l[1] == u[1] && l[2] == u[2] && l[3] == u[3];
      assert l[4] == u[4] && l[5] == u[5] && l[6] == u[6];
    }
  }

  /** A swatch built from a colour, as every palette producer writes it:
      the colour together with its `hexOf` text. */
  function ToSwatch(c: RGB): (s: Swatch)
    ensures s.rgb == c && s.hex == HexOf(c)
  {
    Swatch(c, HexOf(c))
  }

  /** The invariant every swatch the engine produces keeps. */
  predicate Consistent(s: Swatch) {
    s.hex == HexOf(s.rgb)
  }

  predicate AllConsistent(p: seq<Swatch>) {
    forall i :: 0 <= i < |p| ==> Consistent(p[i])
  }

  predicate HasHex(p: seq<Swatch>, h: string) {
    exists i :: 0 <= i < |p| && p[i].hex == h
  }

  predicate NoDuplicateHex(p: seq<Swatch>) {
    forall i, j :: 0 <= i < j < |p| ==> p[i].hex != p[j].hex
  }

  /** Append `s` unless an entry with the same hex is already in the list. */
  function AddIfNewHex(list: seq<Swatch>, s: Swatch): seq<Swatch> {
    if HasHex(list, s.hex) then list else list + [s]
  }

  lemma AddIfNewHexKeeps(list: seq<Swatch>, s: Swatch)
    ensures HasHex(AddIfNewHex(list, s), s.hex)
    ensures forall h :: HasHex(list, h) ==> HasHex(AddIfNewHex(list, s), h)
  {
    var r := AddIfNewHex(list, s);
    if !HasHex(list, s.hex) {
      assert r[|list|] == s;
    }
    forall h | HasHex(list, h) ensures HasHex(r, h) {
      var i :| 0 <= i < |list| && list[i].hex == h;
      assert r[i] == list[i];
    }
  }

  /** Appending the swatches of `p` one by one, skipping those whose hex is
      already present. */
  function DedupByHex(p: seq<Swatch>): (r: seq<Swatch>)
    ensures |r| <= |p|
  {
    if p == [] then [] else AddIfNewHex(DedupByHex(p[..|p| - 1]), p[|p| - 1])
  }

  /** The de-duplicated list holds the first swatch of every hex of `p`:
      no hex twice, nothing that is not in `p`, and every hex of `p`. */
  lemma {:induction false} DedupByHexCorrect(p: seq<Swatch>)
    ensures var r := DedupByHex(p);
      && NoDuplicateHex(r)
      && (forall i :: 0 <= i < |r| ==> r[i] in p)
      && (forall i :: 0 <= i < |p| ==> HasHex(r, p[i].hex))
  {
    if p != [] {
      var init := p[..|p| - 1];
      DedupByHexCorrect(init);
      var prev := DedupByHex(init);
      assert forall i :: 0 <= i < |p| - 1 ==> p[i] == init[i];
      AddIfNewHexKeeps(prev, p[|p| - 1]);
      var r := DedupByHex(p);
      if !HasHex(prev, p[|p| - 1].hex) {
        assert r == prev + [p[|p| - 1]];
        forall i, j | 0 <= i < j < |r| ensures r[i].hex != r[j].hex {
          if j == |prev| {
            assert r[i] == prev[i];
          }
        }
      }
    }
  }

  /** Deduplicating one more swatch adds it exactly when its hex is new. */
  lemma DedupByHexSnoc(p: seq<Swatch>, s: Swatch)
    ensures DedupByHex(p + [s]) == AddIfNewHex(DedupByHex(p), s)
  {
    assert (p + [s])[..|p|] == p;
  }

  /** The first `n` swatches of the de-duplicated list: at most `n`, no more
      than the input has, no repeated hex, consistent when the input is, all
      taken from the input, and at least one when both exist. */
  lemma DedupSliceProperties(c: seq<Swatch>, n: int)
    ensures var r := SliceTo(DedupByHex(c), n);
      && |r| <= |c|
      && (n >= 0 ==> |r| <= n)
      && NoDuplicateHex(r)
      && (forall i :: 0 <= i < |r| ==> r[i] in c)
      && (AllConsistent(c) ==> AllConsistent(r))
      && (c != [] && n > 0 ==> |r| >= 1)
  {
    var d := DedupByHex(c);
    DedupByHexCorrect(c);
    var r := SliceTo(d, n);
    assert r == d[..|r|];
    forall i | 0 <= i < |r| ensures r[i] in c {
      assert r[i] == d[i];
    }
    if AllConsistent(c) {
      forall i | 0 <= i < |r| ensures Consistent(r[i]) {
        var k :| 0 <= k < |c| && c[k] == r[i];
      }
    }
    if c != [] && n > 0 {
      assert HasHex(d, c[0].hex);
    }
  }

  /** Deduplicating a prefix gives a prefix of the deduplicated whole: the
      list only ever grows at its end. */
  lemma {:induction false} DedupByHexPrefix(p: seq<Swatch>, n: nat)
    requires n <= |p|
    ensures |DedupByHex(p[..n])| <= |DedupByHex(p)|
    ensures DedupByHex(p[..n]) == DedupByHex(p)[..|DedupByHex(p[..n])|]
    decreases |p| - n
  {
    if n < |p| {
      DedupByHexPrefix(p, n + 1);
      assert p[..n + 1][..n] == p[..n];
      var a, b, c := DedupByHex(p[..n]), DedupByHex(p[..n + 1]), DedupByHex(p);
      assert b == AddIfNewHex(a, p[n]);
      assert a == b[..|a|];
      assert b == c[..|b|];
    } else {
      assert p[..n] == p;
    }
  }
}
