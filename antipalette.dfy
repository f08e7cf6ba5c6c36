/** The two counter-palettes of src/lib/colors.ts: `antiComplementary`
    (the Lab antipode, pushed further away while it is still too close) and
    `antiLowContrast` (a slightly shifted, desaturated neighbour that is
    never the source colour itself). Both map a palette swatch by swatch. */
module AntiPalette {
  import opened Types
  import opened Colors
  import opened ColorSpace
  import opened ArrayOps

  const MinDeltaE: real := 35.0
  const MaxTries: nat := 8

  /** `[100 - L, -a, -b]`: the opposite point of the Lab space. */
  function Antipode(p: Lab): Lab {
    Lab(100.0 - p.l, -p.a, -p.b)
  }

  /** The antipode is the reflection through mid-grey `(50, 0, 0)`: applied
      twice it gives the colour back, and mid-grey is halfway between the two. */
  lemma AntipodeReflects(p: Lab)
    ensures Antipode(Antipode(p)) == p
    ensures Midpoint(p, Antipode(p)) == Lab(50.0, 0.0, 0.0)
  {
  }

  /** One retry: L steps `L_STEP = 6` away from 50 (clamped to [0,100]) and
      the chroma grows by `SAT_SCALE = 1.2`. The two are written as literals
      so that the arithmetic stays linear. */
  function PushAway(c: Lab): Lab {
    Lab(Clamp(c.l + (if c.l > 50.0 then 6.0 else -6.0), 0.0, 100.0), c.a * 1.2, c.b * 1.2)
  }

  /** A retry never brings L closer to 50, keeps it on its side of 50 and
      inside [0,100], and moves it by exactly 6 unless the clamp stops it. */
  lemma PushAwayMovesFrom50(c: Lab)
    requires 0.0 <= c.l <= 100.0
    ensures var r := PushAway(c);
      && 0.0 <= r.l <= 100.0
      && (c.l > 50.0 ==> r.l > 50.0 && r.l - 50.0 >= c.l - 50.0)
      && (c.l <= 50.0 ==> r.l <= 50.0 && 50.0 - r.l >= 50.0 - c.l)
      && (6.0 <= c.l <= 94.0 ==> r.l == c.l + (if c.l > 50.0 then 6.0 else -6.0))
  {
  }

  /** After at least one retry, L lies in [0,100] whatever the start. */
  lemma PushAwayClampsL(c: Lab)
    ensures 0.0 <= PushAway(c).l <= 100.0
  {
  }

  /** `n` retries in a row. */
  function Pushed(c: Lab, n: nat): Lab
    decreases n
  {
    if n == 0 then c else Pushed(PushAway(c), n - 1)
  }

  /** The retry loop, which pushes the candidate away while it is closer
      than 35 to the source colour and fewer than 8 tries were made, run from
      `comp` after `tries` tries: the colour it ends on and the try count. */
  function Settle(m: Numerics, lab0: Lab, comp: Lab, tries: nat): (r: (Lab, nat))
    requires tries <= MaxTries
    ensures tries <= r.1 <= MaxTries
    ensures r.0 == Pushed(comp, r.1 - tries)
    ensures DeltaE76(m, lab0, r.0) >= MinDeltaE || r.1 == MaxTries
    ensures forall k :: 0 <= k < r.1 - tries ==> DeltaE76(m, lab0, Pushed(comp, k)) < MinDeltaE
    decreases MaxTries - tries
  {
    if DeltaE76(m, lab0, comp) < MinDeltaE && tries < MaxTries then
      Settle(m, lab0, PushAway(comp), tries + 1)
    else (comp, tries)
  }

  /** The swatch `antiComplementary` gives for one source swatch. */
  function ComplementSwatch(m: Numerics, c: Swatch): (s: Swatch)
    ensures Consistent(s)
  {
    var lab0 := RgbToLab(m, c.rgb);
    ToSwatch(LabToRgb(m, Settle(m, lab0, Antipode(lab0), 0).0))
  }

  /** The loop stops at the first try count that reaches distance 35, and
      after 8 tries at the latest; what it returns is the antipode pushed
      that many times. */
  lemma ComplementStopsAtFirstFarEnough(m: Numerics, c: Swatch)
    ensures var lab0 := RgbToLab(m, c.rgb);
            var (comp, tries) := Settle(m, lab0, Antipode(lab0), 0);
            && tries <= MaxTries
            && comp == Pushed(Antipode(lab0), tries)
            && (tries < MaxTries ==> DeltaE76(m, lab0, comp) >= MinDeltaE)
            && (forall k :: 0 <= k < tries ==> DeltaE76(m, lab0, Pushed(Antipode(lab0), k)) < MinDeltaE)
  {
  }

  /** The body of the `main.map` callback of `antiComplementary`. */
  method Complement(m: Numerics, c: Swatch) returns (s: Swatch)
    ensures s == ComplementSwatch(m, c)
  {
    var lab0 := RgbToLab(m, c.rgb);
    var comp := Antipode(lab0);
    var tries := 0;
    while DeltaE76(m, lab0, comp) < MinDeltaE && tries < MaxTries
      invariant tries <= MaxTries
      invariant Settle(m, lab0, comp, tries) == Settle(m, lab0, Antipode(lab0), 0)
      decreases MaxTries - tries
    {
      comp := PushAway(comp);
      tries := tries + 1;
    }
    var rgb := LabToRgb(m, comp);
    s := Swatch(rgb, HexOf(rgb));
  }

  /** The list `antiComplementary(main)` returns: the palette mapped swatch by swatch. */
  function ComplementAll(m: Numerics, main: seq<Swatch>): (out: seq<Swatch>)
    ensures |out| == |main|
    ensures AllConsistent(out)
  {
    Map((c: Swatch) => ComplementSwatch(m, c), main)
  }

  /** `antiComplementary(main)`. */
  method AntiComplementary(m: Numerics, main: seq<Swatch>) returns (out: seq<Swatch>)
    ensures out == ComplementAll(m, main)
  {
    out := [];
    for i := 0 to |main|
      invariant out == Map((c: Swatch) => ComplementSwatch(m, c), main[..i])
    {
      var s := Complement(m, main[i]);
      MapPrefixStep((c: Swatch) => ComplementSwatch(m, c), main, i);
      out := out + [s];
    }
    assert main[..|main|] == main;
  }

  /** A low-contrast candidate: L steps by `shift` toward 50 (then is
      clamped to [0,100]) and both chroma axes are scaled by `scale`. */
  function Candidate(lab: Lab, shift: real, scale: real): Lab {
    Lab(Clamp(lab.l + (if lab.l > 50.0 then -shift else shift), 0.0, 100.0), lab.a * scale, lab.b * scale)
  }

  /** `c` is `lab` with L moved toward 50 by at most `shift`, inside
      [0,100], and neither chroma axis grown. */
  ghost predicate Softened(lab: Lab, c: Lab, shift: real) {
    && 0.0 <= c.l <= 100.0
    && (lab.l > 50.0 ==> lab.l - shift <= c.l <= lab.l)
    && (lab.l <= 50.0 ==> lab.l <= c.l <= lab.l + shift)
    && (if c.a < 0.0 then -c.a else c.a) <= (if lab.a < 0.0 then -lab.a else lab.a)
    && (if c.b < 0.0 then -c.b else c.b) <= (if lab.b < 0.0 then -lab.b else lab.b)
  }

  /** Both candidates of `antiLowContrast` soften an in-gamut colour: the
      gentle one by 3 in L and to 88% chroma, the stronger one by 8 and to 80%. */
  lemma CandidatesSoften(lab: Lab)
    requires 0.0 <= lab.l <= 100.0
    ensures Softened(lab, Candidate(lab, 3.0, 0.88), 3.0)
    ensures Softened(lab, Candidate(lab, 8.0, 0.8), 8.0)
  {
  }

  /** One channel of the last-resort nudge: 12 down above 127, 12 up otherwise, then clamped. */
  function NudgeChannel(v: Channel): (r: Channel)
    ensures r == if v > 127 then v - 12 else v + 12
  {
    Clamp8((v + (if v > 127 then -12 else 12)) as real)
  }

  /** The last-resort RGB nudge: every channel moves by exactly 12, away
      from its own pole, and the clamp never cuts it short. */
  function Nudge(c: RGB): (r: RGB)
    ensures r.r != c.r && r.g != c.g && r.b != c.b
  {
    RGB(NudgeChannel(c.r), NudgeChannel(c.g), NudgeChannel(c.b))
  }

  /** The swatch `antiLowContrast` gives for one source swatch: the first of
      the gentle candidate, the stronger candidate and the nudged stronger
      candidate whose hex differs from the source's upper-cased hex. */
  function LowContrastSwatch(m: Numerics, c: Swatch): (s: Swatch)
    ensures Consistent(s)
    ensures s.hex != ToUpper(c.hex)
  {
    var lab := RgbToLab(m, c.rgb);
    var first := LabToRgb(m, Candidate(lab, 3.0, 0.88));
    if HexOf(first) != ToUpper(c.hex) then ToSwatch(first)
    else
      var second := LabToRgb(m, Candidate(lab, 8.0, 0.8));
      if HexOf(second) != ToUpper(c.hex) then ToSwatch(second)
      else
        HexOfInjective(Nudge(second), second);
        ToSwatch(Nudge(second))
  }

  /** The body of the `main.map` callback of `antiLowContrast`. */
  method LowContrast(m: Numerics, c: Swatch) returns (s: Swatch)
    ensures s == LowContrastSwatch(m, c)
  {
    var lab := RgbToLab(m, c.rgb);
    var candidate := Candidate(lab, 3.0, 0.88);
    var rgb := LabToRgb(m, candidate);
    var hex := HexOf(rgb);
    if hex == ToUpper(c.hex) {
      candidate := Candidate(lab, 8.0, 0.8);
      rgb := LabToRgb(m, candidate);
      hex := HexOf(rgb);
    }
    if hex == ToUpper(c.hex) {
      rgb := RGB(NudgeChannel(rgb.r), NudgeChannel(rgb.g), NudgeChannel(rgb.b));
      hex := HexOf(rgb);
    }
    s := Swatch(rgb, hex);
  }

  /** The list `antiLowContrast(main)` returns: the palette mapped swatch by swatch. */
  function LowContrastAll(m: Numerics, main: seq<Swatch>): (out: seq<Swatch>)
    ensures |out| == |main|
    ensures forall i :: 0 <= i < |main| ==> out[i].hex != ToUpper(main[i].hex)
    ensures AllConsistent(out)
  {
    Map((c: Swatch) => LowContrastSwatch(m, c), main)
  }

  /** `antiLowContrast(main)`. */
  method AntiLowContrast(m: Numerics, main: seq<Swatch>) returns (out: seq<Swatch>)
    ensures out == LowContrastAll(m, main)
  {
    out := [];
    for i := 0 to |main|
      invariant out == Map((c: Swatch) => LowContrastSwatch(m, c), main[..i])
    {
      var s := LowContrast(m, main[i]);
      MapPrefixStep((c: Swatch) => LowContrastSwatch(m, c), main, i);
      out := out + [s];
    }
    assert main[..|main|] == main;
  }
}
