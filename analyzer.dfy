/** Palette comparison from src/lib/colors.ts: `deltaPalette` (the mean
    nearest-neighbour Lab distance, taken both ways) and `analyze` (score,
    verdict text and bridge colours between two palettes). */
module Analyzer {
  import opened Types
  import opened Colors
  import opened ColorSpace
  import opened ArrayOps

  /** The Lab value of every swatch, in order. */
  function SwatchLabs(m: Numerics, p: seq<Swatch>): (r: seq<Lab>)
    ensures |r| == |p|
  {
    Map((s: Swatch) => RgbToLab(m, s.rgb), p)
  }

  /** The distance from `p` to its nearest neighbour in `qs`, folded from a
      start value of 1e9, so 1e9 when there is none. */
  function NNDist(m: Numerics, p: Lab, qs: seq<Lab>): (r: real)
    ensures r <= NoDistance
    ensures forall j :: 0 <= j < |qs| ==> r <= DeltaE76(m, p, qs[j])
    ensures r == NoDistance || exists j :: 0 <= j < |qs| && r == DeltaE76(m, p, qs[j])
  {
    if qs == [] then NoDistance
    else
      var prev := NNDist(m, p, qs[..|qs| - 1]);
      var d := DeltaE76(m, p, qs[|qs| - 1]);
      assert forall j :: 0 <= j < |qs| - 1 ==> qs[..|qs| - 1][j] == qs[j];
      if d < prev then d else prev
  }

  /** With a sound norm the nearest distance is never negative, and
      it is 0 when `p` itself is among the candidates. */
  lemma NNDistBounds(m: Numerics, p: Lab, qs: seq<Lab>)
    requires Sound(m)
    ensures NNDist(m, p, qs) >= 0.0
    ensures p in qs ==> NNDist(m, p, qs) == 0.0
  {
    var r := NNDist(m, p, qs);
    if r != NoDistance {
      var j :| 0 <= j < |qs| && r == DeltaE76(m, p, qs[j]);
      DeltaE76NonNegative(m, p, qs[j]);
    }
    if p in qs {
      var j :| 0 <= j < |qs| && qs[j] == p;
      DeltaE76SelfZero(m, p);
      assert r <= DeltaE76(m, p, qs[j]);
    }
  }

  /** The sum, over the points of the first palette, of their nearest-neighbour distances in the second. */
  function SumNN(m: Numerics, ps: seq<Lab>, qs: seq<Lab>): real {
    if ps == [] then 0.0 else SumNN(m, ps[..|ps| - 1], qs) + NNDist(m, ps[|ps| - 1], qs)
  }

  lemma {:induction false} SumNNBounds(m: Numerics, ps: seq<Lab>, qs: seq<Lab>)
    requires Sound(m)
    ensures SumNN(m, ps, qs) >= 0.0
    ensures (forall i :: 0 <= i < |ps| ==> ps[i] in qs) ==> SumNN(m, ps, qs) == 0.0
  {
    if ps != [] {
      var init := ps[..|ps| - 1];
      SumNNBounds(m, init, qs);
      NNDistBounds(m, ps[|ps| - 1], qs);
      assert forall i :: 0 <= i < |init| ==> init[i] == ps[i];
    }
  }

  /** `meanNN`: the sum divided by the size of the first palette; an empty one gives NaN, here `None`. */
  function MeanNN(m: Numerics, ps: seq<Lab>, qs: seq<Lab>): (r: Option<real>)
    ensures r.None? <==> ps == []
  {
    if |ps| == 0 then None else Some(SumNN(m, ps, qs) / |ps| as real)
  }

  /** The average of the two directed mean nearest-neighbour distances, on the Lab points. */
  function DeltaLabs(m: Numerics, la: seq<Lab>, lb: seq<Lab>): (d: Option<real>)
    ensures d.None? <==> (la == [] || lb == [])
  {
    match (MeanNN(m, la, lb), MeanNN(m, lb, la))
    case (Some(x), Some(y)) => Some((x + y) / 2.0)
    case _ => None
  }

  /** `deltaPalette`: the average of the two mean nearest-neighbour
      distances, NaN (`None`) exactly when either palette is empty. */
  function DeltaPalette(m: Numerics, a: seq<Swatch>, b: seq<Swatch>): (d: Option<real>)
    ensures d.None? <==> (a == [] || b == [])
  {
    DeltaLabs(m, SwatchLabs(m, a), SwatchLabs(m, b))
  }

  /** The distance does not depend on which palette comes first. */
  lemma DeltaPaletteSymmetric(m: Numerics, a: seq<Swatch>, b: seq<Swatch>)
    ensures DeltaPalette(m, a, b) == DeltaPalette(m, b, a)
  {
    DeltaLabsSymmetric(m, SwatchLabs(m, a), SwatchLabs(m, b));
  }

  lemma DeltaLabsSymmetric(m: Numerics, la: seq<Lab>, lb: seq<Lab>)
    ensures DeltaLabs(m, la, lb) == DeltaLabs(m, lb, la)
  {
  }

  /** With a sound norm the distance is never negative. */
  lemma DeltaPaletteNonNegative(m: Numerics, a: seq<Swatch>, b: seq<Swatch>)
    requires Sound(m)
    ensures DeltaPalette(m, a, b).Some? ==> DeltaPalette(m, a, b).value >= 0.0
  {
    DeltaLabsNonNegative(m, SwatchLabs(m, a), SwatchLabs(m, b));
  }

  lemma DeltaLabsNonNegative(m: Numerics, la: seq<Lab>, lb: seq<Lab>)
    requires Sound(m)
    ensures DeltaLabs(m, la, lb).Some? ==> DeltaLabs(m, la, lb).value >= 0.0
  {
    if la != [] && lb != [] {
      SumNNBounds(m, la, lb);
      SumNNBounds(m, lb, la);
      QuotientNonNegative(SumNN(m, la, lb), |la| as real);
      QuotientNonNegative(SumNN(m, lb, la), |lb| as real);
    }
  }

  lemma QuotientNonNegative(s: real, n: real)
    requires s >= 0.0 && n > 0.0
    ensures s / n >= 0.0
  {
  }

  /** A non-empty palette is at distance 0 from itself. */
  lemma DeltaPaletteSelfZero(m: Numerics, a: seq<Swatch>)
    requires Sound(m) && a != []
    ensures DeltaPalette(m, a, a) == Some(0.0)
  {
    DeltaLabsSelfZero(m, SwatchLabs(m, a));
  }

  lemma DeltaLabsSelfZero(m: Numerics, la: seq<Lab>)
    requires Sound(m) && la != []
    ensures DeltaLabs(m, la, la) == Some(0.0)
  {
    assert forall i :: 0 <= i < |la| ==> la[i] in la;
    SumNNBounds(m, la, la);
    var n := |la| as real;
    assert SumNN(m, la, la) / n == 0.0 / n == 0.0;
    assert MeanNN(m, la, la) == Some(0.0);
  }

  /** 100 minus the distance, rounded, then clamped to at most 100 and at least 0; NaN stays NaN. */
  function Score(d: Option<real>): (s: Option<int>)
    ensures s.None? <==> d.None?
    ensures s.Some? ==> 0 <= s.value <= 100
  {
    match d
    case None => None
    case Some(x) =>
      var r := Round(100.0 - x);
      var c := if r < 100 then r else 100;
      Some(if c > 0 then c else 0)
  }

  /** The score is the distance subtracted from 100 and rounded, as long as
      that lands in [0,100]; it is 100 at distance 0. */
  lemma ScoreInRange(x: real)
    requires 0.0 <= x <= 100.0
    ensures Score(Some(x)) == Some(Round(100.0 - x))
    ensures x == 0.0 ==> Score(Some(x)) == Some(100)
  {
  }

  /** A larger distance never gives a higher score. */
  lemma ScoreAntitone(x: real, y: real)
    requires x <= y
    ensures Score(Some(y)).value <= Score(Some(x)).value
  {
    assert (100.0 - y + 0.5).Floor <= (100.0 - x + 0.5).Floor by {
      FloorMonotone(100.0 - y + 0.5, 100.0 - x + 0.5);
    }
  }

  lemma FloorMonotone(u: real, v: real)
    requires u <= v
    ensures u.Floor <= v.Floor
  {
    assert u.Floor as real <= u;
    assert v < v.Floor as real + 1.0;
  }

  const Excellent: string := "Excellent Match!"
  const Good: string := "Good Harmony"
  const Decent: string := "Decent Pairing"

  /** The label: 80 and above is excellent, 60 and above good; a NaN score
      fails both comparisons and is only decent. */
  function Label(s: Option<int>): (t: string)
    ensures t == Excellent <==> s.Some? && s.value >= 80
    ensures t == Good <==> s.Some? && 60 <= s.value < 80
    ensures t == Decent <==> s.None? || s.value < 60
  {
    if s.Some? && s.value >= 80 then Excellent
    else if s.Some? && s.value >= 60 then Good
    else Decent
  }

  /** The description; it follows the same thresholds as the label. */
  function Description(s: Option<int>): (t: string)
    ensures Label(s) == Excellent ==> t == "These palettes are naturally complementary."
    ensures Label(s) == Good ==> t == "These work well together; consider bridge colors."
    ensures Label(s) == Decent ==> t == "There’s some tension—use bridge colors or adjust saturation/lightness."
  {
    if s.Some? && s.value >= 80 then "These palettes are naturally complementary."
    else if s.Some? && s.value >= 60 then "These work well together; consider bridge colors."
    else "There’s some tension—use bridge colors or adjust saturation/lightness."
  }

  /** One bridge candidate: the midpoint between `p` and its nearest
      neighbour in `lb`, as a swatch. */
  function BridgeFor(m: Numerics, p: Lab, lb: seq<Lab>): (s: Swatch)
    requires |lb| > 0
    ensures Consistent(s)
  {
    ToSwatch(LabToRgb(m, Midpoint(p, lb[Nearest(m, p, lb)])))
  }

  /** The candidates for the points of `ps`, in order. */
  function Bridges(m: Numerics, ps: seq<Lab>, lb: seq<Lab>): (r: seq<Swatch>)
    requires ps == [] || |lb| > 0
    ensures |r| == |ps|
    ensures forall i :: 0 <= i < |ps| ==> r[i] == BridgeFor(m, ps[i], lb)
  {
    if ps == [] then [] else Map((p: Lab) => BridgeFor(m, p, lb), ps)
  }

  function MinLength(a: seq<Swatch>, b: seq<Swatch>): nat {
    if |a| < |b| then |a| else |b|
  }

  /** The bridge candidates of `analyze`, before deduplication: one for each
      of the first `min(a.length, b.length)` swatches of `a`. */
  function BridgeCandidates(m: Numerics, a: seq<Swatch>, b: seq<Swatch>): (r: seq<Swatch>)
    ensures |r| == MinLength(a, b)
    ensures AllConsistent(r)
  {
    var n := MinLength(a, b);
    var rs := Bridges(m, SwatchLabs(m, a)[..n], SwatchLabs(m, b));
    assert forall i :: 0 <= i < |rs| ==> Consistent(rs[i]);
    rs
  }

  /** At most the first five bridges left by the de-duplicating loop. */
  function BridgeColors(m: Numerics, a: seq<Swatch>, b: seq<Swatch>): seq<Swatch> {
    SliceTo(DedupByHex(BridgeCandidates(m, a, b)), 5)
  }

  /** At most five bridges, no more than the shorter palette has swatches,
      no two with the same hex, each one a candidate midpoint; and there is
      at least one whenever both palettes are non-empty. */
  lemma BridgeColorsProperties(m: Numerics, a: seq<Swatch>, b: seq<Swatch>)
    ensures var r := BridgeColors(m, a, b);
      && |r| <= 5
      && |r| <= MinLength(a, b)
      && NoDuplicateHex(r)
      && AllConsistent(r)
      && (forall i :: 0 <= i < |r| ==> r[i] in BridgeCandidates(m, a, b))
      && (a != [] && b != [] ==> |r| >= 1)
  {
    DedupSliceProperties(BridgeCandidates(m, a, b), 5);
  }

  /** Growing the point list by one point adds that point's candidate. */
  lemma BridgesStep(m: Numerics, ps: seq<Lab>, lb: seq<Lab>, i: nat)
    requires i < |ps| && |lb| > 0
    ensures Bridges(m, ps[..i + 1], lb) == Bridges(m, ps[..i], lb) + [BridgeFor(m, ps[i], lb)]
  {
    var longer, shorter := Bridges(m, ps[..i + 1], lb), Bridges(m, ps[..i], lb) + [BridgeFor(m, ps[i], lb)];
    forall k | 0 <= k < |longer| ensures longer[k] == shorter[k] {
      if k < i {
        assert ps[..i + 1][k] == ps[..i][k];
      }
    }
  }

  /** One round of the bridge loop keeps it equal to the de-duplicated
      candidates seen so far. */
  lemma CollectStep(m: Numerics, la: seq<Lab>, lb: seq<Lab>, i: nat, bridges: seq<Swatch>)
    requires i < |la| && |lb| > 0
    requires bridges == DedupByHex(Bridges(m, la[..i], lb))
    ensures AddIfNewHex(bridges, BridgeFor(m, la[i], lb)) == DedupByHex(Bridges(m, la[..i + 1], lb))
  {
    BridgesStep(m, la, lb, i);
    DedupByHexSnoc(Bridges(m, la[..i], lb), BridgeFor(m, la[i], lb));
  }

  /** `i % n` for `i < n`: JavaScript and Dafny agree on non-negative operands. */
  lemma ModSmall(i: nat, n: nat)
    requires i < n
    ensures i % n == i
  {
  }

  /** The bridge loop of `analyze`, over the first `n` points of `la`. */
  method CollectBridges(m: Numerics, la: seq<Lab>, lb: seq<Lab>, n: nat) returns (bridges: seq<Swatch>)
    requires n <= |la| && n <= |lb|
    ensures bridges == DedupByHex(Bridges(m, la[..n], lb))
  {
    bridges := [];
    for i := 0 to n
      invariant bridges == DedupByHex(Bridges(m, la[..i], lb))
    {
      ModSmall(i, |la|);
      var p := la[i % |la|];
      var bi := NearestIndex(m, p, lb);
      var mid := Midpoint(p, lb[bi]);
      var rgb := LabToRgb(m, mid);
      var hex := HexOf(rgb);
      assert Swatch(rgb, hex) == BridgeFor(m, la[i], lb);
      CollectStep(m, la, lb, i, bridges);
      if !HasHex(bridges, hex) {
        bridges := bridges + [Swatch(rgb, hex)];
      }
    }
  }

  /** `analyze(a, b)`. */
  method Analyze(m: Numerics, a: seq<Swatch>, b: seq<Swatch>) returns (r: Analysis)
    ensures r.score == Score(DeltaPalette(m, a, b))
    ensures r.labelText == Label(r.score)
    ensures r.description == Description(r.score)
    ensures r.bridgeColors == BridgeColors(m, a, b)
  {
    var d := DeltaPalette(m, a, b);
    var score := Score(d);
    var labelText := Label(score);
    var description := Description(score);
    var la, lb := SwatchLabs(m, a), SwatchLabs(m, b);
    var n := if |a| < |b| then |a| else |b|;
    var bridges := CollectBridges(m, la, lb, n);
    r := Analysis(score, labelText, description, SliceTo(bridges, 5));
  }

  /** Two copies of the same non-empty palette score 100, an excellent match. */
  lemma AnalyzeSelf(m: Numerics, a: seq<Swatch>)
    requires Sound(m) && a != []
    ensures Score(DeltaPalette(m, a, a)) == Some(100)
    ensures Label(Score(DeltaPalette(m, a, a))) == Excellent
  {
    DeltaPaletteSelfZero(m, a);
  }
}
