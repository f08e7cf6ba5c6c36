/** `kMeansLab` (src/lib/colors.ts): k-means++ seeding, ten rounds of
    nearest-centre assignment and mean update in L*a*b*, conversion of the
    centres back to swatches and a stable sort by hue, then saturation
    descending, then value descending. The `Math.random()` draws are an
    explicit sequence `draws`, consumed in order, each in [0,1). */
module KMeans {
  import opened Types
  import opened Colors
  import opened ColorSpace
  import opened Hsv
  import opened ArrayOps

  ghost predicate ValidDraws(draws: seq<real>) {
    forall i :: 0 <= i < |draws| ==> 0.0 <= draws[i] < 1.0
  }

  /** The first seed's index, the draw scaled by `n` and rounded down: a draw below 1 always names a sample. */
  function FirstPick(n: nat, u: real): (i: nat)
    requires n > 0 && 0.0 <= u < 1.0
    ensures i < n
  {
    assert u * n as real < n as real by {
      assert (1.0 - u) * n as real > 0.0;
    }
    (u * n as real).Floor
  }

  /** The least distance from `p` to a centre of the non-empty `cs`. */
  function MinDist(m: Numerics, p: Lab, cs: seq<Lab>): real
    requires |cs| > 0
  {
    if |cs| == 1 then DeltaE76(m, p, cs[0])
    else
      var rest := MinDist(m, p, cs[..|cs| - 1]);
      var last := DeltaE76(m, p, cs[|cs| - 1]);
      if last < rest then last else rest
  }

  /** The minimum is at most the distance to every centre. */
  lemma {:induction false} MinDistLower(m: Numerics, p: Lab, cs: seq<Lab>, i: nat)
    requires i < |cs|
    ensures MinDist(m, p, cs) <= DeltaE76(m, p, cs[i])
  {
    if |cs| > 1 && i < |cs| - 1 {
      MinDistLower(m, p, cs[..|cs| - 1], i);
      assert cs[..|cs| - 1][i] == cs[i];
    }
  }

  /** The minimum is one of the distances. */
  lemma {:induction false} MinDistAttained(m: Numerics, p: Lab, cs: seq<Lab>)
    requires |cs| > 0
    ensures exists i :: 0 <= i < |cs| && MinDist(m, p, cs) == DeltaE76(m, p, cs[i])
  {
    if |cs| == 1 {
      assert MinDist(m, p, cs) == DeltaE76(m, p, cs[0]);
    } else {
      var init := cs[..|cs| - 1];
      var rest, last := MinDist(m, p, init), DeltaE76(m, p, cs[|cs| - 1]);
      assert MinDist(m, p, cs) == if last < rest then last else rest;
      if last < rest {
        assert MinDist(m, p, cs) == DeltaE76(m, p, cs[|cs| - 1]);
      } else {
        MinDistAttained(m, p, init);
        var i :| 0 <= i < |init| && rest == DeltaE76(m, p, init[i]);
        assert init[i] == cs[i];
      }
    }
  }

  /** The seeding weight of every sample: its distance to the nearest centre chosen so far. */
  function Weights(m: Numerics, labs: seq<Lab>, cs: seq<Lab>): (ws: seq<real>)
    requires |cs| > 0
    ensures |ws| == |labs|
  {
    seq(|labs|, i requires 0 <= i < |labs| => MinDist(m, labs[i], cs))
  }

  /** The sum of the weights, added from the left. */
  function Total(ws: seq<real>): real {
    if ws == [] then 0.0 else Total(ws[..|ws| - 1]) + ws[|ws| - 1]
  }

  /** The running total up to and including `ws[j]`. */
  function RunningTotal(ws: seq<real>, j: nat): real
    requires j < |ws|
  {
    Total(ws[..j + 1])
  }

  /** The total, with a zero total replaced by 1. */
  function TotalOrOne(ws: seq<real>): real {
    if Total(ws) == 0.0 then 1.0 else Total(ws)
  }

  /** The draw `u` scaled by the total: where on the roulette wheel it lands. */
  function Target(u: real, ws: seq<real>): real {
    u * TotalOrOne(ws)
  }

  /** The roulette scan from position `i`: subtract each weight from the
      target and stop at the first index where it is no longer positive;
      0 when that never happens. */
  function PickFrom(ws: seq<real>, r: real, i: nat): (idx: nat)
    requires i <= |ws|
    ensures |ws| > 0 ==> idx < |ws|
    decreases |ws| - i
  {
    if i == |ws| then 0
    else if r - ws[i] <= 0.0 then i
    else PickFrom(ws, r - ws[i], i + 1)
  }

  /** The roulette picks the FIRST index at which the running total of the
      weights reaches the target, or 0 when the total never does. */
  lemma {:induction false} PickFromFirstReach(ws: seq<real>, t: real, i: nat)
    requires i <= |ws|
    requires forall j :: 0 <= j < i ==> RunningTotal(ws, j) < t
    ensures var p := PickFrom(ws, t - Total(ws[..i]), i);
      || (p < |ws| && RunningTotal(ws, p) >= t && forall j :: 0 <= j < p ==> RunningTotal(ws, j) < t)
      || (p == 0 && forall j :: 0 <= j < |ws| ==> RunningTotal(ws, j) < t)
    decreases |ws| - i
  {
    if i < |ws| {
      assert ws[..i + 1][..i] == ws[..i];
      assert RunningTotal(ws, i) == Total(ws[..i]) + ws[i];
      if t - Total(ws[..i]) - ws[i] > 0.0 {
        PickFromFirstReach(ws, t, i + 1);
      }
    }
  }

  lemma ScaledInside(u: real, w: real)
    requires 0.0 < u < 1.0 && w > 0.0
    ensures 0.0 < u * w < w
  {
    assert (1.0 - u) * w > 0.0;
  }

  /** A draw in (0,1) on a wheel of positive total lands strictly inside it. */
  lemma TargetInside(u: real, ws: seq<real>)
    requires 0.0 < u < 1.0 && Total(ws) > 0.0
    ensures 0.0 < Target(u, ws) < Total(ws)
  {
    ScaledInside(u, Total(ws));
    calc {
      Target(u, ws);
    ==
      u * Total(ws);
    < { ScaledInside(u, Total(ws)); }
      Total(ws);
    }
  }

  lemma RunningTotalStep(ws: seq<real>, p: nat)
    requires 0 < p < |ws|
    ensures RunningTotal(ws, p) == RunningTotal(ws, p - 1) + ws[p]
  {
    assert ws[..p + 1][..p] == ws[..p];
  }

  lemma RunningTotalLast(ws: seq<real>)
    requires |ws| > 0
    ensures RunningTotal(ws, |ws| - 1) == Total(ws)
  {
    assert ws[..|ws|] == ws;
  }

  /** A target strictly inside (0, total) of non-negative weights always
      lands on a sample of positive weight. */
  lemma PickHasPositiveWeight(ws: seq<real>, u: real)
    requires forall i :: 0 <= i < |ws| ==> ws[i] >= 0.0
    requires Total(ws) > 0.0 && 0.0 < u < 1.0
    ensures |ws| > 0 && ws[PickFrom(ws, Target(u, ws), 0)] > 0.0
  {
    var w := Total(ws);
    var t := Target(u, ws);
    TargetInside(u, ws);
    assert ws != [];
    assert Total(ws[..0]) == 0.0;
    PickFromFirstReach(ws, t, 0);
    assert t - Total(ws[..0]) == t;
    var p := PickFrom(ws, t, 0);
    RunningTotalLast(ws);
    assert RunningTotal(ws, |ws| - 1) == w;
    assert p < |ws| && RunningTotal(ws, p) >= t && forall j :: 0 <= j < p ==> RunningTotal(ws, j) < t;
    if p > 0 {
      RunningTotalStep(ws, p);
      assert RunningTotal(ws, p - 1) < t;
    } else {
      assert RunningTotal(ws, 0) == ws[0] by { assert ws[..1][..0] == []; }
    }
    assert ws[p] > 0.0;
  }

  /** The centres `kMeansLab` has seeded after `j` draws. */
  function Seeds(m: Numerics, labs: seq<Lab>, draws: seq<real>, j: nat): (cs: seq<Lab>)
    requires |labs| > 0 && 1 <= j <= |draws| && ValidDraws(draws)
    ensures |cs| == j
    ensures forall i :: 0 <= i < j ==> cs[i] in labs
  {
    if j == 1 then [labs[FirstPick(|labs|, draws[0])]]
    else NextSeeds(m, labs, Seeds(m, labs, draws, j - 1), draws[j - 1])
  }

  /** One round of the seeding loop with the draw `u`: weigh every sample by
      its distance to the centres so far, spin the wheel and push the sample
      it lands on. */
  function NextSeeds(m: Numerics, labs: seq<Lab>, centers: seq<Lab>, u: real): seq<Lab>
    requires |labs| > 0 && |centers| > 0
  {
    var ws := Weights(m, labs, centers);
    centers + [labs[PickFrom(ws, Target(u, ws), 0)]]
  }

  /** The next seed is the sample the wheel lands on for the next draw. */
  lemma SeedsStep(m: Numerics, labs: seq<Lab>, draws: seq<real>, j: nat)
    requires |labs| > 0 && 1 <= j < |draws| && ValidDraws(draws)
    ensures Seeds(m, labs, draws, j + 1) == NextSeeds(m, labs, Seeds(m, labs, draws, j), draws[j])
  {
  }

  /** Every seeding weight is a distance, so never negative. */
  lemma WeightsNonNegative(m: Numerics, labs: seq<Lab>, cs: seq<Lab>)
    requires Sound(m) && |cs| > 0
    ensures forall i :: 0 <= i < |labs| ==> Weights(m, labs, cs)[i] >= 0.0
  {
    var ws := Weights(m, labs, cs);
    forall i | 0 <= i < |labs| ensures ws[i] >= 0.0 {
      assert ws[i] == MinDist(m, labs[i], cs);
      MinDistAttained(m, labs[i], cs);
      var w :| 0 <= w < |cs| && ws[i] == DeltaE76(m, labs[i], cs[w]);
      DeltaE76NonNegative(m, labs[i], cs[w]);
    }
  }

  /** A sample that already is a centre weighs nothing. */
  lemma WeightOfCentre(m: Numerics, labs: seq<Lab>, cs: seq<Lab>, i: nat, c: nat)
    requires Sound(m) && i < |labs| && c < |cs| && labs[i] == cs[c]
    ensures Weights(m, labs, cs)[i] <= 0.0
  {
    assert Weights(m, labs, cs)[i] == MinDist(m, labs[i], cs);
    MinDistLower(m, labs[i], cs, c);
    DeltaE76SelfZero(m, cs[c]);
  }

  /** With a positive draw, a new seed is never one of the centres already
      chosen (unless every sample already sits on one): the weight of a
      chosen centre is zero. */
  lemma NewSeedIsFresh(m: Numerics, labs: seq<Lab>, draws: seq<real>, j: nat)
    requires Sound(m)
    requires |labs| > 0 && 2 <= j <= |draws| && ValidDraws(draws)
    requires draws[j - 1] > 0.0
    requires Total(Weights(m, labs, Seeds(m, labs, draws, j - 1))) > 0.0
    ensures forall i :: 0 <= i < j - 1 ==> Seeds(m, labs, draws, j)[j - 1] != Seeds(m, labs, draws, j)[i]
  {
    var prev := Seeds(m, labs, draws, j - 1);
    var ws := Weights(m, labs, prev);
    WeightsNonNegative(m, labs, prev);
    PickHasPositiveWeight(ws, draws[j - 1]);
    var idx := PickFrom(ws, Target(draws[j - 1], ws), 0);
    var next := Seeds(m, labs, draws, j);
    assert next == prev + [labs[idx]];
    forall i | 0 <= i < j - 1 ensures next[j - 1] != next[i] {
      if labs[idx] == prev[i] {
        WeightOfCentre(m, labs, prev, idx, i);
      }
    }
  }

  /** The inner roulette loop of the seeding. */
  method PickIndex(ws: seq<real>, target: real) returns (idx: nat)
    ensures idx == PickFrom(ws, target, 0)
  {
    var r := target;
    idx := 0;
    for i := 0 to |ws|
      invariant PickFrom(ws, r, i) == PickFrom(ws, target, 0)
    {
      r := r - ws[i];
      if r <= 0.0 {
        idx := i;
        break;
      }
    }
  }

  /** A seeding round keeps the centres so far and appends one sample. */
  lemma NextSeedsAppendsSample(m: Numerics, labs: seq<Lab>, centers: seq<Lab>, u: real)
    requires |labs| > 0 && |centers| > 0
    ensures var next := NextSeeds(m, labs, centers, u);
      |next| == |centers| + 1 && next[..|centers|] == centers && next[|centers|] in labs
  {
    var next := NextSeeds(m, labs, centers, u);
    assert next[..|centers|] == centers;
  }

  /** The body of the seeding loop. */
  method PushSeed(m: Numerics, labs: seq<Lab>, centers: seq<Lab>, u: real) returns (next: seq<Lab>)
    requires |labs| > 0 && |centers| > 0
    ensures next == NextSeeds(m, labs, centers, u)
  {
    var dists := Weights(m, labs, centers);
    var r := Target(u, dists);
    var idx := PickIndex(dists, r);
    next := centers + [labs[idx]];
  }

  /** Seeding: push centres until there are `k` of them. */
  method SeedCenters(m: Numerics, labs: seq<Lab>, k: nat, draws: seq<real>) returns (centers: seq<Lab>)
    requires |labs| > 0 && 1 <= k <= |draws| && ValidDraws(draws)
    ensures centers == Seeds(m, labs, draws, k)
    ensures |centers| == k
  {
    centers := [labs[FirstPick(|labs|, draws[0])]];
    ghost var j: nat := 1;
    while |centers| < k
      invariant 1 <= j <= k && |centers| == j
      invariant centers == Seeds(m, labs, draws, j)
      decreases k - j
    {
      SeedsStep(m, labs, draws, j);
      centers := PushSeed(m, labs, centers, draws[|centers|]);
      j := j + 1;
    }
  }

  /* --- one refinement round --- */

  /** The samples the assignment loop pushes onto `clusters[i]`, in order. */
  function Members(m: Numerics, labs: seq<Lab>, cs: seq<Lab>, i: nat): seq<Lab> {
    if labs == [] then []
    else
      var p := labs[|labs| - 1];
      Members(m, labs[..|labs| - 1], cs, i) + (if Nearest(m, p, cs) == i then [p] else [])
  }

  /** `clusters` after the assignment loop: one list per centre. */
  function Clusters(m: Numerics, labs: seq<Lab>, cs: seq<Lab>): (cl: seq<seq<Lab>>)
    ensures |cl| == |cs|
  {
    seq(|cs|, i requires 0 <= i < |cs| => Members(m, labs, cs, i))
  }

  /** The sizes of the first `n` clusters, added up. */
  function SizeOfFirst(m: Numerics, labs: seq<Lab>, cs: seq<Lab>, n: nat): nat {
    if n == 0 then 0 else SizeOfFirst(m, labs, cs, n - 1) + |Members(m, labs, cs, n - 1)|
  }

  lemma {:induction false} SizeOfFirstStep(m: Numerics, labs: seq<Lab>, cs: seq<Lab>, p: Lab, n: nat)
    ensures SizeOfFirst(m, labs + [p], cs, n)
         == SizeOfFirst(m, labs, cs, n) + (if Nearest(m, p, cs) < n then 1 else 0)
  {
    assert (labs + [p])[..|labs|] == labs;
    if n > 0 {
      SizeOfFirstStep(m, labs, cs, p, n - 1);
    }
  }

  /** Every sample lands in exactly one cluster: the cluster sizes add up
      to the number of samples. */
  lemma {:induction false} ClustersPartitionSamples(m: Numerics, labs: seq<Lab>, cs: seq<Lab>)
    requires |cs| > 0
    ensures SizeOfFirst(m, labs, cs, |cs|) == |labs|
  {
    if labs != [] {
      var init := labs[..|labs| - 1];
      var p := labs[|labs| - 1];
      assert labs == init + [p];
      ClustersPartitionSamples(m, init, cs);
      SizeOfFirstStep(m, init, cs, p, |cs|);
      NearestIsFirstNearest(m, p, cs);
    } else {
      NoSamplesNoSizes(m, cs, |cs|);
    }
  }

  /** With no samples every cluster is empty. */
  lemma {:induction false} NoSamplesNoSizes(m: Numerics, cs: seq<Lab>, n: nat)
    ensures SizeOfFirst(m, [], cs, n) == 0
  {
    if n > 0 {
      NoSamplesNoSizes(m, cs, n - 1);
    }
  }

  /** A sample joins cluster `i` exactly when `i` is its nearest centre. */
  lemma MembersOfLast(m: Numerics, labs: seq<Lab>, p: Lab, cs: seq<Lab>, i: nat)
    ensures Members(m, labs + [p], cs, i)
         == Members(m, labs, cs, i) + (if Nearest(m, p, cs) == i then [p] else [])
  {
    assert (labs + [p])[..|labs|] == labs;
  }

  /** One coordinate of a Lab colour: 0 is L, 1 is a, 2 is b. */
  function Coord(p: Lab, axis: nat): real {
    if axis == 0 then p.l else if axis == 1 then p.a else p.b
  }

  /** The sum of one coordinate over the members of a cluster. */
  function SumCoord(c: seq<Lab>, axis: nat): real {
    if c == [] then 0.0 else SumCoord(c[..|c| - 1], axis) + Coord(c[|c| - 1], axis)
  }

  /** The component-wise mean of a non-empty cluster. */
  function Mean(c: seq<Lab>): Lab
    requires |c| > 0
  {
    var n := |c| as real;
    Lab(SumCoord(c, 0) / n, SumCoord(c, 1) / n, SumCoord(c, 2) / n)
  }

  lemma {:induction false} SumCoordBounds(c: seq<Lab>, axis: nat, lo: real, hi: real)
    requires forall i :: 0 <= i < |c| ==> lo <= Coord(c[i], axis) <= hi
    ensures |c| as real * lo <= SumCoord(c, axis) <= |c| as real * hi
  {
    if c != [] {
      var init := c[..|c| - 1];
      assert forall i :: 0 <= i < |init| ==> init[i] == c[i];
      SumCoordBounds(init, axis, lo, hi);
      assert |c| as real * lo == |init| as real * lo + lo;
      assert |c| as real * hi == |init| as real * hi + hi;
    }
  }

  lemma DivideBounds(s: real, n: real, lo: real, hi: real)
    requires n > 0.0 && n * lo <= s <= n * hi
    ensures lo <= s / n <= hi
  {
    assert s / n * n == s;
  }

  /** The mean of a cluster lies inside the box spanned by its members:
      if every member has a coordinate in [lo, hi], so does the mean. */
  lemma MeanWithinBounds(c: seq<Lab>, axis: nat, lo: real, hi: real)
    requires |c| > 0 && axis < 3
    requires forall i :: 0 <= i < |c| ==> lo <= Coord(c[i], axis) <= hi
    ensures lo <= Coord(Mean(c), axis) <= hi
  {
    SumCoordBounds(c, axis, lo, hi);
    DivideBounds(SumCoord(c, axis), |c| as real, lo, hi);
  }

  /** The mean update: a centre moves to the mean of its cluster, and a
      centre whose cluster is empty keeps its position. */
  function Update(cs: seq<Lab>, cl: seq<seq<Lab>>): (next: seq<Lab>)
    requires |cl| == |cs|
    ensures |next| == |cs|
    ensures forall i :: 0 <= i < |cs| && cl[i] == [] ==> next[i] == cs[i]
    ensures forall i :: 0 <= i < |cs| && cl[i] != [] ==> next[i] == Mean(cl[i])
  {
    seq(|cs|, i requires 0 <= i < |cs| => if |cl[i]| > 0 then Mean(cl[i]) else cs[i])
  }

  /** One of the ten rounds: assign every sample, then move the centres. */
  function Step(m: Numerics, labs: seq<Lab>, cs: seq<Lab>): (next: seq<Lab>)
    ensures |next| == |cs|
  {
    Update(cs, Clusters(m, labs, cs))
  }

  /** `n` rounds. */
  function Refine(m: Numerics, labs: seq<Lab>, cs: seq<Lab>, n: nat): (r: seq<Lab>)
    ensures |r| == |cs|
  {
    if n == 0 then cs else Step(m, labs, Refine(m, labs, cs, n - 1))
  }

  /** The assignment loop of one round. */
  method AssignClusters(m: Numerics, labs: seq<Lab>, cs: seq<Lab>) returns (clusters: seq<seq<Lab>>)
    requires |cs| > 0
    ensures clusters == Clusters(m, labs, cs)
  {
    clusters := seq(|cs|, _ => []);
    for j := 0 to |labs|
      invariant |clusters| == |cs|
      invariant forall i :: 0 <= i < |cs| ==> clusters[i] == Members(m, labs[..j], cs, i)
    {
      var p := labs[j];
      var bi := NearestIndex(m, p, cs);
      assert labs[..j + 1] == labs[..j] + [p];
      forall i | 0 <= i < |cs| {
        MembersOfLast(m, labs[..j], p, cs, i);
      }
      clusters := clusters[bi := clusters[bi] + [p]];
    }
    assert labs[..|labs|] == labs;
  }

  /** The centre-update loop of one round. */
  method UpdateCenters(cs: seq<Lab>, clusters: seq<seq<Lab>>) returns (centers: seq<Lab>)
    requires |clusters| == |cs|
    ensures centers == Update(cs, clusters)
  {
    centers := cs;
    for i := 0 to |cs|
      invariant |centers| == |cs|
      invariant forall j :: 0 <= j < i ==> centers[j] == Update(cs, clusters)[j]
      invariant forall j :: i <= j < |cs| ==> centers[j] == cs[j]
    {
      var c := clusters[i];
      if |c| > 0 {
        centers := centers[i := Mean(c)];
      }
    }
  }

  /* --- the whole of kMeansLab --- */

  /** Every pixel converted to Lab, in order. */
  function ToLabs(m: Numerics, pixels: seq<RGB>): (labs: seq<Lab>)
    ensures |labs| == |pixels|
  {
    seq(|pixels|, i requires 0 <= i < |pixels| => RgbToLab(m, pixels[i]))
  }

  /** The ordering key: hue ascending, then saturation and value descending
      (`ha - hb || sb - sa || vb - va`). */
  function HsvKey(s: Swatch): Key {
    var h := RgbToHsv(s.rgb);
    Key(h.h as real, -h.s, -h.v)
  }

  /** The final centres: seeds refined ten times. */
  function FinalCenters(m: Numerics, pixels: seq<RGB>, k: nat, draws: seq<real>): (cs: seq<Lab>)
    requires |pixels| > 0 && 1 <= k <= |draws| && ValidDraws(draws)
    ensures |cs| == k
  {
    var labs := ToLabs(m, pixels);
    Refine(m, labs, Seeds(m, labs, draws, k), 10)
  }

  /** Every centre converted back to RGB and made a swatch, in order. */
  function CenterSwatches(m: Numerics, cs: seq<Lab>): (out: seq<Swatch>)
    ensures |out| == |cs| && AllConsistent(out)
  {
    seq(|cs|, i requires 0 <= i < |cs| => ToSwatch(LabToRgb(m, cs[i])))
  }

  /** What `kMeansLab(pixels, k)` returns for the given random draws. */
  function KMeansResult(m: Numerics, pixels: seq<RGB>, k: int, draws: seq<real>): seq<Swatch>
    requires k <= |draws| && ValidDraws(draws)
  {
    if |pixels| == 0 || k <= 0 then []
    else SortBy(CenterSwatches(m, FinalCenters(m, pixels, k, draws)), HsvKey)
  }

  /** No pixels or no clusters give an empty palette; otherwise exactly k
      swatches (colours may repeat), each with `hex == hexOf(rgb)`. */
  lemma KMeansResultSize(m: Numerics, pixels: seq<RGB>, k: int, draws: seq<real>)
    requires k <= |draws| && ValidDraws(draws)
    ensures |KMeansResult(m, pixels, k, draws)| == if |pixels| == 0 || k <= 0 then 0 else k
    ensures AllConsistent(KMeansResult(m, pixels, k, draws))
  {
    if |pixels| > 0 && k > 0 {
      var out := CenterSwatches(m, FinalCenters(m, pixels, k, draws));
      var sorted := SortBy(out, HsvKey);
      forall i | 0 <= i < |sorted| ensures Consistent(sorted[i]) {
        assert sorted[i] in multiset(out);
      }
    }
  }

  /** The palette is the converted centres, reordered: a permutation of
      them, sorted by the HSV key, and stable (centres with equal keys keep
      their centre order). */
  lemma KMeansResultIsSortedCenters(m: Numerics, pixels: seq<RGB>, k: int, draws: seq<real>)
    requires |pixels| > 0 && 1 <= k <= |draws| && ValidDraws(draws)
    ensures var centers := CenterSwatches(m, FinalCenters(m, pixels, k, draws));
            var out := KMeansResult(m, pixels, k, draws);
            && multiset(out) == multiset(centers)
            && SortedBy(out, HsvKey)
            && forall kv :: WithKey(out, HsvKey, kv) == WithKey(centers, HsvKey, kv)
  {
    SortByIsStableSort(CenterSwatches(m, FinalCenters(m, pixels, k, draws)), HsvKey);
  }

  /** The ten refinement rounds: assign, then move every centre to its mean. */
  method RefineRounds(m: Numerics, labs: seq<Lab>, seeds: seq<Lab>) returns (centers: seq<Lab>)
    requires |seeds| > 0
    ensures centers == Refine(m, labs, seeds, 10)
  {
    centers := seeds;
    for it := 0 to 10
      invariant centers == Refine(m, labs, seeds, it)
    {
      var clusters := AssignClusters(m, labs, centers);
      centers := UpdateCenters(centers, clusters);
    }
  }

  /** `kMeansLab` as the source writes it. */
  method KMeansLab(m: Numerics, pixels: seq<RGB>, k: int, draws: seq<real>) returns (out: seq<Swatch>)
    requires k <= |draws| && ValidDraws(draws)
    ensures out == KMeansResult(m, pixels, k, draws)
  {
    if |pixels| == 0 || k <= 0 {
      return [];
    }
    var labs := ToLabs(m, pixels);
    var centers := SeedCenters(m, labs, k, draws);
    centers := RefineRounds(m, labs, centers);
    assert centers == FinalCenters(m, pixels, k, draws);
    out := CenterSwatches(m, centers);
    out := SortBy(out, HsvKey);
  }
}
