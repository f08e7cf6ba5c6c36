/** `extractColorsFromImage` of src/lib/extract.ts with the canvas stripped
    away: a scan of the RGBA bytes that reads every other pixel, a histogram
    of quantised colours in first-seen order, the most frequent `4k`
    colours, sorted by hue, of which the first `k` are kept. */
module Extract {
  import opened Types
  import opened Colors
  import opened Hsv
  import opened ArrayOps

  /** The channel rounded down to a multiple of 4. */
  function Quantize(v: Channel): (q: Channel)
    ensures q % 4 == 0 && q <= 252
    ensures q <= v < q + 4
  {
    (v / 4) * 4
  }

  /** An opaque enough pixel (alpha at least 200) that is neither near black nor near white (channel sum strictly between 15 and 750). */
  predicate Accepts(r: Channel, g: Channel, b: Channel, a: Channel) {
    a >= 200 && 15 < r as int + g + b < 750
  }

  /** The number of sample positions `i = 0, 8, 16, ... < data.length`. */
  function SampleCount(data: seq<Channel>): nat {
    (|data| + 7) / 8
  }

  /** Position `j` starts at byte `8j`, and the whole pixel is in the buffer. */
  lemma SamplePosition(data: seq<Channel>, j: nat)
    requires |data| % 4 == 0
    ensures j < SampleCount(data) <==> 8 * j < |data|
    ensures j < SampleCount(data) ==> 8 * j + 4 <= |data|
  {
  }

  /** What the sample at position `j` contributes: its quantised colour when
      the filter accepts it. */
  function SampleAt(data: seq<Channel>, j: nat): (r: Option<RGB>)
    requires 8 * j + 4 <= |data|
    ensures r.Some? <==> Accepts(data[8 * j], data[8 * j + 1], data[8 * j + 2], data[8 * j + 3])
    ensures r.Some? ==> r.value == RGB(Quantize(data[8 * j]), Quantize(data[8 * j + 1]), Quantize(data[8 * j + 2]))
  {
    var i := 8 * j;
    var r, g, b, a := data[i], data[i + 1], data[i + 2], data[i + 3];
    if a >= 200 && r as int + g + b > 15 && r as int + g + b < 750 then
      Some(RGB(Quantize(r), Quantize(g), Quantize(b)))
    else None
  }

  /** The samples of the first `n` positions, in scan order. */
  function Samples(data: seq<Channel>, n: nat): (os: seq<Option<RGB>>)
    requires |data| % 4 == 0 && n <= SampleCount(data)
    ensures |os| == n
    ensures forall j :: 0 <= j < n ==> 8 * j + 4 <= |data| && os[j] == SampleAt(data, j)
  {
    if n == 0 then []
    else
      SamplePosition(data, n - 1);
      Samples(data, n - 1) + [SampleAt(data, n - 1)]
  }

  /** The accepted, quantised colours of the first `n` positions, in scan order. */
  function Accepted(data: seq<Channel>, n: nat): seq<RGB>
    requires |data| % 4 == 0 && n <= SampleCount(data)
  {
    Flatten(Samples(data, n))
  }

  /** Every collected colour comes from an accepted sample at an offset
      `8j`, and every accepted sample is collected. */
  lemma AcceptedSamples(data: seq<Channel>, n: nat)
    requires |data| % 4 == 0 && n <= SampleCount(data)
    ensures forall c :: c in Accepted(data, n) <==>
      exists j :: 0 <= j < n && 8 * j + 4 <= |data| && SampleAt(data, j) == Some(c)
  {
    var os := Samples(data, n);
    FlattenHas(os);
    forall c ensures c in Accepted(data, n) <==>
      exists j :: 0 <= j < n && 8 * j + 4 <= |data| && SampleAt(data, j) == Some(c)
    {
      if c in Accepted(data, n) {
        var j :| 0 <= j < |os| && os[j] == Some(c);
        assert SampleAt(data, j) == Some(c);
      }
    }
  }

  /** One histogram entry: `{ count, rgb }` under the key `rr,gg,bb`. */
  datatype Bucket = Bucket(rgb: RGB, count: nat)

  predicate HasKey(bs: seq<Bucket>, c: RGB) {
    exists i :: 0 <= i < |bs| && bs[i].rgb == c
  }

  predicate DistinctKeys(bs: seq<Bucket>) {
    forall i, j :: 0 <= i < j < |bs| ==> bs[i].rgb != bs[j].rgb
  }

  /** The position of key `c`, or `|bs|` when it is absent. */
  function IndexOf(bs: seq<Bucket>, c: RGB): (r: nat)
    ensures r <= |bs|
    ensures r < |bs| ==> bs[r].rgb == c
    ensures r == |bs| <==> !HasKey(bs, c)
  {
    if bs == [] then 0
    else if bs[0].rgb == c then 0
    else
      var r := 1 + IndexOf(bs[1..], c);
      assert HasKey(bs, c) ==> HasKey(bs[1..], c) by {
        if HasKey(bs, c) {
          var i :| 0 <= i < |bs| && bs[i].rgb == c;
          assert bs[1..][i - 1] == bs[i];
        }
      }
      r
  }

  /** Count one sample: the bucket with its key gains one, or a new bucket with count 1 is appended. */
  function Tally(bs: seq<Bucket>, c: RGB): seq<Bucket> {
    var i := IndexOf(bs, c);
    if i < |bs| then bs[i := Bucket(c, bs[i].count + 1)] else bs + [Bucket(c, 1)]
  }

  /** The histogram of a sample list, built by tallying the samples in order. */
  function Histogram(s: seq<RGB>): seq<Bucket> {
    if s == [] then [] else Tally(Histogram(s[..|s| - 1]), s[|s| - 1])
  }

  /** Tallying a colour keeps the keys distinct, bumps that colour's count
      (adding it at the end with count 1 when new) and leaves every other
      bucket alone. */
  lemma TallyCorrect(bs: seq<Bucket>, c: RGB)
    requires DistinctKeys(bs)
    ensures var r := Tally(bs, c);
      && DistinctKeys(r)
      && (forall x :: HasKey(r, x) <==> HasKey(bs, x) || x == c)
      && (forall q :: 0 <= q < |r| && r[q].rgb != c ==> q < |bs| && r[q] == bs[q])
      && (forall q :: 0 <= q < |r| && r[q].rgb == c ==>
            r[q].count == 1 + (if HasKey(bs, c) then bs[IndexOf(bs, c)].count else 0))
  {
    var r := Tally(bs, c);
    var i := IndexOf(bs, c);
    forall x ensures HasKey(r, x) <==> HasKey(bs, x) || x == c {
      if HasKey(bs, x) {
        var q :| 0 <= q < |bs| && bs[q].rgb == x;
        assert r[q].rgb == x;
      }
      if x == c {
        if i < |bs| { assert r[i].rgb == c; } else { assert r[|bs|].rgb == c; }
      }
      if HasKey(r, x) && x != c {
        var q :| 0 <= q < |r| && r[q].rgb == x;
        assert q < |bs| && bs[q].rgb == x;
      }
    }
  }

  /** One bucket per distinct sample colour, keys distinct, and each count
      is the number of samples of that colour. */
  lemma {:induction false} HistogramCorrect(s: seq<RGB>)
    ensures var bs := Histogram(s);
      && DistinctKeys(bs)
      && (forall i :: 0 <= i < |bs| ==> bs[i].count == multiset(s)[bs[i].rgb])
      && (forall c :: HasKey(bs, c) <==> c in s)
  {
    if s != [] {
      var init, c := s[..|s| - 1], s[|s| - 1];
      assert s == init + [c];
      HistogramCorrect(init);
      var prev := Histogram(init);
      TallyCorrect(prev, c);
      var r := Histogram(s);
      forall q | 0 <= q < |r| ensures r[q].count == multiset(s)[r[q].rgb] {
        if r[q].rgb == c && HasKey(prev, c) {
          assert prev[IndexOf(prev, c)].rgb == c;
        } else if r[q].rgb == c {
          assert c !in init;
        }
      }
    }
  }

  /** Tallying one more sample updates the histogram of the samples so far. */
  lemma HistogramSnoc(s: seq<RGB>, c: RGB)
    ensures Histogram(s + [c]) == Tally(Histogram(s), c)
  {
    assert (s + [c])[..|s|] == s;
  }

  /** The sum of the counts. */
  function TotalCount(bs: seq<Bucket>): nat {
    if bs == [] then 0 else TotalCount(bs[..|bs| - 1]) + bs[|bs| - 1].count
  }

  lemma {:induction false} TotalCountUpdate(bs: seq<Bucket>, i: nat, b: Bucket)
    requires i < |bs|
    ensures TotalCount(bs[i := b]) + bs[i].count == TotalCount(bs) + b.count
    decreases |bs|
  {
    var last := |bs| - 1;
    if i < last {
      TotalCountUpdate(bs[..last], i, b);
      assert bs[i := b][..last] == bs[..last][i := b];
    } else {
      assert bs[i := b][..last] == bs[..last];
    }
  }

  /** The counts add up to the number of accepted samples. */
  lemma {:induction false} HistogramTotal(s: seq<RGB>)
    ensures TotalCount(Histogram(s)) == |s|
  {
    if s != [] {
      var init, c := s[..|s| - 1], s[|s| - 1];
      HistogramTotal(init);
      var prev := Histogram(init);
      var i := IndexOf(prev, c);
      assert Histogram(s) == Tally(prev, c);
      if i < |prev| {
        TotalCountUpdate(prev, i, Bucket(c, prev[i].count + 1));
      } else {
        assert (prev + [Bucket(c, 1)])[..|prev|] == prev;
      }
    }
  }

  /** The sort key of the count sort: most frequent first. */
  function CountKey(b: Bucket): Key {
    Key(-(b.count as real), 0.0, 0.0)
  }

  /** The sort key of the hue sort: ascending hue. */
  function HueKey(s: Swatch): Key {
    Key(RgbToHsv(s.rgb).h as real, 0.0, 0.0)
  }

  /** The swatch of a bucket's colour, with the lower-case `rgbToHex` text. */
  function HexSwatch(b: Bucket): (s: Swatch)
    ensures s.rgb == b.rgb
  {
    Swatch(b.rgb, RgbToHex(b.rgb))
  }

  /** The histogram of the whole buffer. */
  function BufferHistogram(data: seq<Channel>): seq<Bucket>
    requires |data| % 4 == 0
  {
    Histogram(Accepted(data, SampleCount(data)))
  }

  /** For the whole buffer: one bucket per distinct accepted colour, each
      count the number of accepted samples of that colour, the counts adding
      up to the number of accepted samples. */
  lemma BufferHistogramCorrect(data: seq<Channel>)
    requires |data| % 4 == 0
    ensures var s, bs := Accepted(data, SampleCount(data)), BufferHistogram(data);
      && DistinctKeys(bs)
      && (forall i :: 0 <= i < |bs| ==> bs[i].count == multiset(s)[bs[i].rgb])
      && (forall c :: HasKey(bs, c) <==> c in s)
      && TotalCount(bs) == |s|
  {
    HistogramCorrect(Accepted(data, SampleCount(data)));
    HistogramTotal(Accepted(data, SampleCount(data)));
  }

  /** The `4k` most frequent colours, most frequent first. */
  function TopColors(data: seq<Channel>, k: int): seq<Bucket>
    requires |data| % 4 == 0
  {
    SliceTo(SortBy(BufferHistogram(data), CountKey), k * 4)
  }

  /** `extractColorsFromImage(img, k)` on the pixel buffer of `img`. */
  function ExtractColors(data: seq<Channel>, k: int): seq<Swatch>
    requires |data| % 4 == 0
  {
    SliceTo(SortBy(TopSwatches(data, k), HueKey), k)
  }

  /** After the count sort the counts never increase, buckets with equal
      counts keep their first-seen order, and at most `4k` are kept. */
  lemma TopColorsOrder(data: seq<Channel>, k: int)
    requires |data| % 4 == 0
    ensures var sorted, top := SortBy(BufferHistogram(data), CountKey), TopColors(data, k);
      && (forall i, j :: 0 <= i < j < |top| ==> top[i].count >= top[j].count)
      && (forall kv :: WithKey(sorted, CountKey, kv) == WithKey(BufferHistogram(data), CountKey, kv))
      && top == sorted[..|top|]
      && (k >= 0 ==> |top| <= 4 * k)
      && |top| <= |BufferHistogram(data)|
  {
    var sorted := SortBy(BufferHistogram(data), CountKey);
    SortByIsStableSort(BufferHistogram(data), CountKey);
    var top := TopColors(data, k);
    forall i, j | 0 <= i < j < |top| ensures top[i].count >= top[j].count {
      assert top[i] == sorted[i] && top[j] == sorted[j];
      assert KeyLe(CountKey(sorted[i]), CountKey(sorted[j]));
    }
  }

  /** The swatches before the hue sort: one per top bucket, same colour. */
  function TopSwatches(data: seq<Channel>, k: int): seq<Swatch>
    requires |data| % 4 == 0
  {
    Map(HexSwatch, TopColors(data, k))
  }

  /** No two output swatches share a colour: the histogram keys are
      distinct, and sorting and slicing keep them so. */
  lemma ExtractColorsDistinct(data: seq<Channel>, k: int)
    requires |data| % 4 == 0
    ensures DistinctBy(ExtractColors(data, k), (s: Swatch) => s.rgb)
  {
    var h := BufferHistogram(data);
    var sortedH := SortBy(h, CountKey);
    var top := TopColors(data, k);
    var sw := TopSwatches(data, k);
    var rgbOf := (s: Swatch) => s.rgb;
    HistogramCorrect(Accepted(data, SampleCount(data)));
    assert DistinctBy(h, (b: Bucket) => b.rgb);
    SortByDistinctBy(h, CountKey, (b: Bucket) => b.rgb);
    assert top == sortedH[..|top|];
    assert DistinctBy(sw, rgbOf) by {
      forall i, j | 0 <= i < j < |sw| ensures sw[i].rgb != sw[j].rgb {
        assert sw[i].rgb == top[i].rgb == sortedH[i].rgb;
        assert sw[j].rgb == top[j].rgb == sortedH[j].rgb;
      }
    }
    SortByDistinctBy(sw, HueKey, rgbOf);
    var sorted := SortBy(sw, HueKey);
    var out := ExtractColors(data, k);
    assert out == sorted[..|out|];
  }

  /** At most `k` swatches, each one of the top-`4k` buckets as a swatch. */
  lemma ExtractColorsProvenance(data: seq<Channel>, k: int)
    requires |data| % 4 == 0
    ensures var out := ExtractColors(data, k);
      && (k >= 0 ==> |out| <= k)
      && (forall i :: 0 <= i < |out| ==> out[i] in TopSwatches(data, k))
  {
    var sw := TopSwatches(data, k);
    assert ExtractColors(data, k) == SliceTo(SortBy(sw, HueKey), k);
    SortedPrefixFrom(sw, HueKey, k);
  }

  /** Every top swatch is a top-`4k` bucket with its lower-case `rgbToHex` text. */
  lemma TopSwatchesFromBuckets(data: seq<Channel>, k: int)
    requires |data| % 4 == 0
    ensures var top := TopColors(data, k);
      forall s :: s in TopSwatches(data, k) ==> exists b :: b in top && s == HexSwatch(b)
  {
    var top := TopColors(data, k);
    var sw := TopSwatches(data, k);
    forall s | s in sw ensures exists b :: b in top && s == HexSwatch(b) {
      var q :| 0 <= q < |sw| && sw[q] == s;
      assert top[q] in top;
    }
  }

  /** Every output hex is the lower-case `rgbToHex` text of the swatch's
      own colour, so it agrees with `hexOf` only when no digit is a letter. */
  lemma ExtractColorsLowerHex(data: seq<Channel>, k: int)
    requires |data| % 4 == 0
    ensures var out := ExtractColors(data, k);
      forall i :: 0 <= i < |out| ==> out[i].hex == RgbToHex(out[i].rgb)
  {
    var out, top := ExtractColors(data, k), TopColors(data, k);
    ExtractColorsProvenance(data, k);
    TopSwatchesFromBuckets(data, k);
    forall i | 0 <= i < |out| ensures out[i].hex == RgbToHex(out[i].rgb) {
      assert out[i] in TopSwatches(data, k);
      var b :| b in top && out[i] == HexSwatch(b);
    }
  }

  /** The output is in ascending hue order. */
  lemma ExtractColorsHueOrder(data: seq<Channel>, k: int)
    requires |data| % 4 == 0
    ensures var out := ExtractColors(data, k);
      forall i, j :: 0 <= i < j < |out| ==> HueKey(out[i]).k1 <= HueKey(out[j]).k1
  {
    var sw := TopSwatches(data, k);
    var sorted := SortBy(sw, HueKey);
    var out := ExtractColors(data, k);
    assert out == sorted[..|out|];
    SortByIsStableSort(sw, HueKey);
    forall i, j | 0 <= i < j < |out| ensures HueKey(out[i]).k1 <= HueKey(out[j]).k1 {
      assert out[i] == sorted[i] && out[j] == sorted[j];
      assert KeyLe(HueKey(sorted[i]), HueKey(sorted[j]));
    }
  }

  /** What one position does to the histogram: count its colour, if any. */
  function CountSample(bs: seq<Bucket>, sample: Option<RGB>): seq<Bucket> {
    match sample {
      case Some(c) => Tally(bs, c)
      case None => bs
    }
  }

  /** The histogram the scan loop holds after counting some samples. */
  function CountAll(os: seq<Option<RGB>>): seq<Bucket> {
    if os == [] then [] else CountSample(CountAll(os[..|os| - 1]), os[|os| - 1])
  }

  lemma CountAllSnoc(os: seq<Option<RGB>>, o: Option<RGB>)
    ensures CountAll(os + [o]) == CountSample(CountAll(os), o)
  {
    assert (os + [o])[..|os|] == os;
  }

  /** Counting sample by sample builds the histogram of the accepted colours. */
  lemma {:induction false} CountAllIsHistogram(os: seq<Option<RGB>>)
    ensures CountAll(os) == Histogram(Flatten(os))
  {
    if os != [] {
      var init, o := os[..|os| - 1], os[|os| - 1];
      CountAllIsHistogram(init);
      HistogramFound(Flatten(init), o);
    }
  }

  /** Adding what one position found to the samples counts it in the histogram. */
  lemma HistogramFound(a: seq<RGB>, o: Option<RGB>)
    ensures Histogram(a + Found(o)) == CountSample(Histogram(a), o)
  {
    match o {
      case Some(c) => HistogramSnoc(a, c);
      case None => assert a + [] == a;
    }
  }

  /** Whole pixel `j` fits: offsets are multiples of 4 in a buffer whose length is one. */
  lemma PixelFits(i: nat, n: nat)
    requires i % 8 == 0 && n % 4 == 0 && i < n
    ensures i + 4 <= n
  {
  }

  /** One round of the scan loop: read the pixel at byte `i`, filter it and
      count its quantised colour in the histogram. */
  method CountPixel(data: seq<Channel>, ghost j: nat, i: nat, colorMap: seq<Bucket>) returns (next: seq<Bucket>)
    requires i == 8 * j && i + 4 <= |data|
    ensures next == CountSample(colorMap, SampleAt(data, j))
  {
    next := colorMap;
    var r, g, b, a := data[i], data[i + 1], data[i + 2], data[i + 3];
    if a >= 200 {
      var brightness := r as int + g + b;
      if brightness > 15 && brightness < 750 {
        var rr, gg, bb := Quantize(r), Quantize(g), Quantize(b);
        var key := RGB(rr, gg, bb);
        next := Tally(next, key);
      }
    }
  }

  /** One iteration of the scan loop at position `j` (byte offset `i`):
      the histogram after it. */
  method ScanPosition(data: seq<Channel>, ghost j: nat, i: nat, colorMap: seq<Bucket>) returns (next: seq<Bucket>, ghost j': nat)
    requires |data| % 4 == 0 && i == 8 * j && i < |data| && j <= SampleCount(data)
    requires colorMap == CountAll(Samples(data, j))
    ensures j' == j + 1 && j' <= SampleCount(data)
    ensures next == CountAll(Samples(data, j'))
  {
    j' := j + 1;
    PixelFits(i, |data|);
    SamplePosition(data, j);
    CountAllSnoc(Samples(data, j), SampleAt(data, j));
    next := CountPixel(data, j, i, colorMap);
  }

  /** `extractColorsFromImage(img, k)` on the RGBA bytes of the drawn canvas. */
  method ExtractColorsFromImage(data: seq<Channel>, k: int) returns (out: seq<Swatch>)
    requires |data| % 4 == 0
    ensures out == ExtractColors(data, k)
  {
    var colorMap: seq<Bucket> := [];
    var i: nat := 0;
    ghost var j: nat := 0;
    while i < |data|
      invariant i == 8 * j && j <= SampleCount(data)
      invariant colorMap == CountAll(Samples(data, j))
      decreases |data| - i
    {
      colorMap, j := ScanPosition(data, j, i, colorMap);
      i := i + 8;
    }
    SamplePosition(data, j);
    CountAllIsHistogram(Samples(data, j));
    assert colorMap == BufferHistogram(data);
    var sortedColors := SliceTo(SortBy(colorMap, CountKey), k * 4);
    var swatches := Map(HexSwatch, sortedColors);
    swatches := SortBy(swatches, HueKey);
    out := SliceTo(swatches, k);
  }
}
