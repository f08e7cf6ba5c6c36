/** The stand-alone sampler of src/components/SimpleTest.tsx: an upper-case
    `rgbToHex` of its own and `simpleExtractColors`, which reads every
    fourth pixel, keeps the first swatch of each hex and stops early once
    it has twice as many as it was asked for. */
module SimpleTest {
  import opened Types
  import opened Colors
  import opened ArrayOps

  /** The local `rgbToHex` of the test component: the same layout as the
      shared one, upper-cased; the shifts cannot overflow for channels in
      [0,255]. */
  function SimpleRgbToHex(c: RGB): (s: string)
    ensures s == HexOf(c)
  {
    RgbToHexLayout(c);
    var digits := ToHexString(0x1000000 + c.r * 0x10000 + c.g * 0x100 + c.b)[1..];
    var s := "#" + ToUpper(digits);
    assert s == ToUpper("#" + digits) by {
      assert forall i :: 0 <= i < |s| ==> s[i] == ToUpper("#" + digits)[i];
    }
    s
  }

  /** A pixel with alpha above 200 whose channel sum lies strictly between 30 and 720. */
  predicate SimpleAccepts(r: Channel, g: Channel, b: Channel, a: Channel) {
    a > 200 && 30 < r as int + g + b < 720
  }

  /** The number of sample positions `i = 0, 16, 32, ... < data.length`. */
  function PositionCount(data: seq<Channel>): nat {
    (|data| + 15) / 16
  }

  lemma PositionFits(data: seq<Channel>, j: nat)
    requires |data| % 4 == 0
    ensures j < PositionCount(data) <==> 16 * j < |data|
    ensures j < PositionCount(data) ==> 16 * j + 4 <= |data|
  {
  }

  /** What the sample at position `j` contributes: its swatch when the
      filter accepts it (its hex is `hexOf`, which `SimpleRgbToHex` equals). */
  function CandidateAt(data: seq<Channel>, j: nat): (r: Option<Swatch>)
    requires 16 * j + 4 <= |data|
    ensures r.Some? <==> SimpleAccepts(data[16 * j], data[16 * j + 1], data[16 * j + 2], data[16 * j + 3])
    ensures r.Some? ==> r.value.rgb == RGB(data[16 * j], data[16 * j + 1], data[16 * j + 2])
    ensures r.Some? ==> Consistent(r.value)
  {
    var i := 16 * j;
    var c := RGB(data[i], data[i + 1], data[i + 2]);
    if SimpleAccepts(data[i], data[i + 1], data[i + 2], data[i + 3]) then Some(Swatch(c, HexOf(c))) else None
  }

  /** The candidates of the first `n` positions, in scan order. */
  function Positions(data: seq<Channel>, n: nat): (os: seq<Option<Swatch>>)
    requires |data| % 4 == 0 && n <= PositionCount(data)
    ensures |os| == n
  {
    if n == 0 then []
    else
      PositionFits(data, n - 1);
      Positions(data, n - 1) + [CandidateAt(data, n - 1)]
  }

  /** Entry `j` of the list is the candidate at position `j`. */
  lemma {:induction false} PositionsAt(data: seq<Channel>, n: nat, j: nat)
    requires |data| % 4 == 0 && j < n <= PositionCount(data)
    ensures 16 * j + 4 <= |data| && Positions(data, n)[j] == CandidateAt(data, j)
  {
    PositionFits(data, j);
    if j < n - 1 {
      PositionsAt(data, n - 1, j);
    }
  }

  /** The swatches of the accepted samples among the first `n` positions,
      in scan order, before de-duplication. */
  function Candidates(data: seq<Channel>, n: nat): seq<Swatch>
    requires |data| % 4 == 0 && n <= PositionCount(data)
  {
    Flatten(Positions(data, n))
  }

  /** Every candidate is an accepted sample at an offset that is a multiple of 16. */
  lemma CandidatesFromOffsets(data: seq<Channel>, n: nat)
    requires |data| % 4 == 0 && n <= PositionCount(data)
    ensures forall s :: s in Candidates(data, n) ==>
      exists j :: 0 <= j < n && 16 * j + 4 <= |data| && CandidateAt(data, j) == Some(s)
  {
    var os := Positions(data, n);
    FlattenHas(os);
    forall s | s in Candidates(data, n)
      ensures exists j :: 0 <= j < n && 16 * j + 4 <= |data| && CandidateAt(data, j) == Some(s)
    {
      var j :| 0 <= j < |os| && os[j] == Some(s);
      PositionsAt(data, n, j);
    }
  }

  /** At most one candidate per position, each one consistent. */
  lemma CandidatesShape(data: seq<Channel>, n: nat)
    requires |data| % 4 == 0 && n <= PositionCount(data)
    ensures |Candidates(data, n)| <= n
    ensures AllConsistent(Candidates(data, n))
  {
    var cs := Candidates(data, n);
    FlattenLength(Positions(data, n));
    CandidatesFromOffsets(data, n);
    forall q | 0 <= q < |cs| ensures Consistent(cs[q]) {
      assert cs[q] in cs;
    }
  }

  /** Scanning more positions only appends candidates. */
  lemma CandidatesPrefix(data: seq<Channel>, n: nat, m: nat)
    requires |data| % 4 == 0 && n <= m <= PositionCount(data)
    ensures |Candidates(data, n)| <= |Candidates(data, m)|
    ensures Candidates(data, n) == Candidates(data, m)[..|Candidates(data, n)|]
  {
    var os := Positions(data, m);
    forall j | 0 <= j < n ensures Positions(data, n)[j] == os[j] {
      PositionsAt(data, n, j);
      PositionsAt(data, m, j);
    }
    assert Positions(data, n) == os[..n];
    FlattenPrefix(os, n);
  }

  /** What the loop body does with the candidate of one position: add it
      when its hex is new. */
  function Collect(list: seq<Swatch>, o: Option<Swatch>): (r: seq<Swatch>)
    ensures |r| <= |list| + 1
  {
    match o {
      case Some(s) => AddIfNewHex(list, s)
      case None => list
    }
  }

  /** The list the loop has built after `n` positions. */
  function Collected(data: seq<Channel>, n: nat): seq<Swatch>
    requires |data| % 4 == 0 && n <= PositionCount(data)
  {
    if n == 0 then []
    else
      PositionFits(data, n - 1);
      Collect(Collected(data, n - 1), CandidateAt(data, n - 1))
  }

  /** The loop's list is the candidates de-duplicated by hex, the first
      swatch of each hex kept. */
  lemma {:induction false} CollectedIsDedup(data: seq<Channel>, n: nat)
    requires |data| % 4 == 0 && n <= PositionCount(data)
    ensures Collected(data, n) == DedupByHex(Candidates(data, n))
  {
    if n > 0 {
      CollectedIsDedup(data, n - 1);
      PositionFits(data, n - 1);
      var os, o := Positions(data, n - 1), CandidateAt(data, n - 1);
      assert Positions(data, n) == os + [o];
      FlattenSnoc(os, o);
      var a := Flatten(os);
      match o {
        case Some(s) => DedupByHexSnoc(a, s);
        case None => assert a + [] == a;
      }
    }
  }

  /** The length of the list after each number of positions, `0` to the last. */
  function Sizes(data: seq<Channel>): (z: seq<nat>)
    requires |data| % 4 == 0
    ensures |z| == PositionCount(data) + 1
  {
    seq(PositionCount(data) + 1, q requires 0 <= q <= PositionCount(data) => |Collected(data, q)|)
  }

  lemma SizesAt(data: seq<Channel>, q: nat)
    requires |data| % 4 == 0 && q <= PositionCount(data)
    ensures Sizes(data)[q] == |Collected(data, q)|
  {
  }

  /** The number of positions the loop reads, starting from position `n`,
      given the list length after each position: it stops after the first
      position at which the list holds `count * 2` swatches, or at the end
      of the buffer. */
  function StopFrom(sizes: seq<nat>, count: int, n: nat): (r: nat)
    requires n < |sizes|
    ensures n <= r < |sizes|
    decreases |sizes| - n
  {
    if n == |sizes| - 1 then n
    else if sizes[n + 1] >= count * 2 then n + 1
    else StopFrom(sizes, count, n + 1)
  }

  function StopAt(data: seq<Channel>, count: int): nat
    requires |data| % 4 == 0
  {
    StopFrom(Sizes(data), count, 0)
  }

  /** `simpleExtractColors(img, count)` on the RGBA bytes of the canvas. */
  function SimpleExtract(data: seq<Channel>, count: int): seq<Swatch>
    requires |data| % 4 == 0
  {
    SliceTo(Collected(data, StopAt(data, count)), count)
  }

  lemma SizesStep(data: seq<Channel>, q: nat)
    requires |data| % 4 == 0 && q < PositionCount(data)
    ensures Sizes(data)[q + 1] <= Sizes(data)[q] + 1
  {
    SizesAt(data, q);
    SizesAt(data, q + 1);
  }

  /** The list starts empty and grows by at most one swatch per position. */
  lemma SizesGrowByOne(data: seq<Channel>)
    requires |data| % 4 == 0
    ensures Sizes(data)[0] == 0
    ensures forall q :: 0 <= q < PositionCount(data) ==> Sizes(data)[q + 1] <= Sizes(data)[q] + 1
  {
    forall q | 0 <= q < PositionCount(data)
      ensures Sizes(data)[q + 1] <= Sizes(data)[q] + 1
    {
      SizesStep(data, q);
    }
  }

  /** Where lengths start at 0 and grow by at most one per position, the
      stop rule never lets them pass `count * 2` when `count >= 1` (and
      never past one when `count <= 0`). */
  lemma {:induction false} StopFromBound(sizes: seq<nat>, count: int, n: nat)
    requires n < |sizes| && sizes[0] == 0
    requires forall q :: 0 <= q < |sizes| - 1 ==> sizes[q + 1] <= sizes[q] + 1
    requires n == 0 || sizes[n] < count * 2
    ensures count >= 1 ==> sizes[StopFrom(sizes, count, n)] <= count * 2
    ensures count <= 0 ==> sizes[StopFrom(sizes, count, n)] <= 1
    decreases |sizes| - n
  {
    if n < |sizes| - 1 && sizes[n + 1] < count * 2 {
      StopFromBound(sizes, count, n + 1);
    }
  }

  /** The loop never collects more than `count * 2` swatches when `count >= 1`
      (and at most one when `count <= 0`). */
  lemma CollectedBound(data: seq<Channel>, count: int)
    requires |data| % 4 == 0
    ensures count >= 1 ==> |Collected(data, StopAt(data, count))| <= count * 2
    ensures count <= 0 ==> |Collected(data, StopAt(data, count))| <= 1
  {
    SizesGrowByOne(data);
    StopFromBound(Sizes(data), count, 0);
  }

  /** The de-duplicated candidates of the whole buffer. */
  function AllDistinct(data: seq<Channel>): seq<Swatch>
    requires |data| % 4 == 0
  {
    DedupByHex(Candidates(data, PositionCount(data)))
  }

  /** Cutting a prefix of a list at `count` gives the list's own first
      `count` when the prefix is long enough or the whole list. */
  lemma SlicePrefix<T>(a: seq<T>, b: seq<T>, count: int)
    requires count > 0 && |a| <= |b| && a == b[..|a|]
    requires |a| >= count || |a| == |b|
    ensures SliceTo(a, count) == SliceTo(b, count)
  {
    if |a| == |b| {
      assert a == b;
    }
  }

  /** The list the loop stops with is a prefix of the de-duplicated
      candidates of the whole buffer. */
  lemma CollectedIsPrefix(data: seq<Channel>, n: nat)
    requires |data| % 4 == 0 && n <= PositionCount(data)
    ensures |Collected(data, n)| <= |AllDistinct(data)|
    ensures Collected(data, n) == AllDistinct(data)[..|Collected(data, n)|]
    ensures n == PositionCount(data) ==> Collected(data, n) == AllDistinct(data)
  {
    var all := Candidates(data, PositionCount(data));
    var part := Candidates(data, n);
    CollectedIsDedup(data, n);
    CollectedIsDedup(data, PositionCount(data));
    CandidatesPrefix(data, n, PositionCount(data));
    DedupByHexPrefix(all, |part|);
  }

  /** The result is the first `min(count, D)` distinct accepted colours in
      scan order, `D` being how many there are; `count <= 0` gives []. */
  lemma SimpleExtractIsFirstDistinct(data: seq<Channel>, count: int)
    requires |data| % 4 == 0
    ensures count <= 0 ==> SimpleExtract(data, count) == []
    ensures count > 0 ==> SimpleExtract(data, count) == SliceTo(AllDistinct(data), count)
  {
    var stop := StopAt(data, count);
    CollectedBound(data, count);
    if count > 0 {
      CollectedIsPrefix(data, stop);
      if stop < PositionCount(data) {
        StopReached(Sizes(data), count, 0);
        SizesAt(data, stop);
      }
      SlicePrefix(Collected(data, stop), AllDistinct(data), count);
    }
  }

  /** Stopping before the end means the length reached `count * 2`. */
  lemma {:induction false} StopReached(sizes: seq<nat>, count: int, n: nat)
    requires n < |sizes| && StopFrom(sizes, count, n) < |sizes| - 1
    ensures sizes[StopFrom(sizes, count, n)] >= count * 2
    decreases |sizes| - n
  {
    if n < |sizes| - 1 && sizes[n + 1] < count * 2 {
      StopReached(sizes, count, n + 1);
    }
  }

  /** No two returned swatches share a hex, and each one's hex is `hexOf(rgb)`. */
  lemma SimpleExtractDistinct(data: seq<Channel>, count: int)
    requires |data| % 4 == 0
    ensures NoDuplicateHex(SimpleExtract(data, count))
    ensures AllConsistent(SimpleExtract(data, count))
  {
    var stop := StopAt(data, count);
    CandidatesShape(data, stop);
    CollectedIsDedup(data, stop);
    DedupSliceProperties(Candidates(data, stop), count);
  }

  /** The loop body: read the pixel at position `j` (byte offset `i`) and add
      it when it passes the filter and its hex is new. */
  method SamplePixel(data: seq<Channel>, ghost j: nat, i: nat, colors: seq<Swatch>) returns (next: seq<Swatch>)
    requires i == 16 * j && i + 4 <= |data|
    ensures next == Collect(colors, CandidateAt(data, j))
  {
    next := colors;
    var r, g, b, a := data[i], data[i + 1], data[i + 2], data[i + 3];
    if a > 200 && r as int + g + b > 30 && r as int + g + b < 720 {
      var hex := SimpleRgbToHex(RGB(r, g, b));
      if !HasHex(next, hex) {
        next := next + [Swatch(RGB(r, g, b), hex)];
      }
    }
  }

  /** The stop rule settles on the first position after `n` at which the
      length reaches `count * 2`, or on the last one. */
  lemma {:induction false} StopFromFirst(sizes: seq<nat>, count: int, n: nat, j: nat)
    requires n <= j < |sizes|
    requires forall q :: n < q < j ==> sizes[q] < count * 2
    requires j == |sizes| - 1 || (n < j && sizes[j] >= count * 2)
    ensures StopFrom(sizes, count, n) == j
    decreases j - n
  {
    if n < j && sizes[n + 1] < count * 2 {
      StopFromFirst(sizes, count, n + 1, j);
    }
  }

  /** One iteration of the loop body at position `j` (byte offset `i`):
      the list after it, whose length is the next entry of `Sizes`. */
  method Advance(data: seq<Channel>, ghost j: nat, i: nat, colors: seq<Swatch>) returns (next: seq<Swatch>, ghost j': nat)
    requires |data| % 4 == 0 && i == 16 * j && i < |data| && j <= PositionCount(data)
    requires colors == Collected(data, j)
    ensures j' == j + 1 && j' <= PositionCount(data)
    ensures next == Collected(data, j')
    ensures |next| == Sizes(data)[j']
  {
    j' := j + 1;
    PositionFits(data, j);
    SizesAt(data, j');
    next := SamplePixel(data, j, i, colors);
  }

  /** `simpleExtractColors(img, count)`. */
  method SimpleExtractColors(data: seq<Channel>, count: int) returns (out: seq<Swatch>)
    requires |data| % 4 == 0
    ensures out == SimpleExtract(data, count)
  {
    var colors: seq<Swatch> := [];
    var i: nat := 0;
    ghost var j: nat := 0;
    ghost var sizes := Sizes(data);
    while i < |data|
      invariant i == 16 * j && j < |sizes|
      invariant colors == Collected(data, j)
      invariant forall q :: 0 < q <= j ==> sizes[q] < count * 2
      decreases |data| - i
    {
      colors, j := Advance(data, j, i, colors);
      if |colors| >= count * 2 {
        break;
      }
      i := i + 16;
    }
    PositionFits(data, j);
    StopFromFirst(sizes, count, 0, j);
    out := SliceTo(colors, count);
  }
}
