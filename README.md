# Palette engine of an image colour-palette tool

This project models, in Dafny, the computational core of a small web tool
that extracts a colour palette from an image, derives "anti-palettes" from
it, compares two palettes and exports a palette as CSS or JSON:

- `src/lib/colors.ts`: clamping, hex encoding, the sRGB / CIE L\*a\*b\*
  conversions and CIE76 distance, k-means++ clustering in Lab
  (`kMeansLab`), the HSV sort key (`rgbToHsv`), the two anti-palettes
  (`antiComplementary`, `antiLowContrast`) and palette comparison
  (`deltaPalette`, `analyze`).
- `src/lib/extract.ts`: `extractColorsFromImage`, a quantised colour
  histogram over an RGBA byte buffer.
- `src/components/SimpleTest.tsx`: its own upper-case `rgbToHex` and
  `simpleExtractColors`, a first-seen distinct-colour sampler with an
  early stop.
- `src/lib/download.ts`: the CSS text built by `downloadCSS` and the data
  object built by `downloadJSON`.

Modules, one per concern:

- `Types`: `RGB`, `Swatch`, `Analysis`, `Option`. These mirror `src/types.ts`.
- `Colors`: clamping, rounding, both hex encodings, upper-casing and
  de-duplication by hex.
- `ArrayOps`: the JavaScript array operations the source relies on:
  - a stable sort by a lexicographic key (`Array.prototype.sort` with a comparator);
  - `slice(0, n)`, including negative `n`;
  - `map`;
  - flattening a scan's optional results.
- `ColorSpace`: the Lab conversions, `deltaE76` and the first-minimum
  nearest-centre scan. Four floating-point primitives are parameters of
  this module, bundled in a `Numerics` value: `x ** y`, `Math.cbrt`, the cube
  `t * t * t` of the inverse companding, and the norm
  `Math.sqrt(dL * dL + da * da + db * db)` of `deltaE76`.
- `Hsv`: `rgbToHsv` over exact rationals, with JavaScript's truncating `%`.
- `KMeans`: seeding, assignment, update, the ten rounds and the final sort.
- `AntiPalette`: `antiComplementary` and `antiLowContrast`.
- `Analyzer`: `deltaPalette` and `analyze`.
- `Extract`: `extractColorsFromImage` over the pixel buffer.
- `SimpleTest`: `simpleExtractColors` over the pixel buffer.
- `Download`: the CSS serialiser, a parser that inverts it, and the JSON data shape.

The source's loops are modelled as methods:
- the seeding `while`, the assignment and update loops and the ten rounds of `kMeansLab`;
- the retry `while` of `antiComplementary`;
- the candidate reassignments of `antiLowContrast`;
- the bridge loop of `analyze`;
- the stride-8 histogram loop;
- the stride-16 loop with its `break`.

The modelling method is the same for each of them. The method is proved
equal to a recursive specification function of its inputs. The
properties the source promises are then proved as lemmas about that
function. Pixel buffers are sequences of channel values in [0,255]
whose length is a multiple of 4, as `getImageData` delivers them. The
random draws of the seeding are a sequence of reals in [0,1), one per
seed.

## Model

| member | source | states |
|---|---|---|
| Colors.Clamp | src/lib/colors.ts:3 | The result lies in [lo,hi] when lo ≤ hi. It is v itself inside the range, lo below it and hi above it. |
| Colors.Round | src/lib/colors.ts:4 | `Math.round`: the nearest integer, with halves rounded up (n − ½ ≤ v < n + ½). |
| Colors.Clamp8 | src/lib/colors.ts:4 | The result is a channel in [0,255]. It equals the rounded value when that is in range, 0 below the range and 255 above it. |
| Colors.MarkedHexString | src/lib/colors.ts:7 | `toString(16)` of 16^k + m is "1" followed by the k base-16 digits of m, so `.slice(1)` leaves exactly those digits. |
| Colors.HexDigitsSplit | src/lib/colors.ts:7 | The fixed-width digits of a·16^w + b are the digits of a followed by the w digits of b. This is why the shifted channels do not interfere. |
| Colors.RgbToHexDigits | src/lib/colors.ts:6-8 | `RgbToHex`: `rgbToHex` is "#" followed by two lower-case hex digits each for R, G and B, high nibble first. |
| Colors.ChannelDigits | src/lib/colors.ts:7 | The six digits of (r·256 + g)·256 + b are the nibbles of r, g and b in order. |
| Colors.RgbToHexLayout | src/lib/colors.ts:7 | Dropping the leading "1" of `toString(16)` of 2^24 + (r<<16) + (g<<8) + b leaves the six channel nibbles. |
| Colors.ToUpper | src/lib/colors.ts:9 | Upper-casing keeps the length of the string. |
| Colors.HexOf | src/lib/colors.ts:9 | `hexOf` is "#" followed by two upper-case hex digits for each of R, G and B in order. |
| Colors.HexOfShape | src/lib/colors.ts:9 | `hexOf` has 7 characters: '#' followed by six upper-case hex digits. |
| Colors.HexOfInjective | src/lib/colors.ts:9 | Two colours have the same `hexOf` if and only if they are equal. |
| Colors.RgbToHexMatchesHexOfIffNoLetters | src/lib/colors.ts:6-9 | The lower-case `rgbToHex` equals `hexOf` exactly when no nibble is 10 or more, that is, when no letter digit occurs. |
| Colors.ToSwatch | src/lib/colors.ts:88 | A swatch built as `{ rgb, hex: hexOf(rgb) }` carries that rgb and its `hexOf`. |
| Colors.AddIfNewHexKeeps | src/lib/colors.ts:169 | `AddIfNewHex`: after "push unless `find` matches the hex", the new hex is present and every hex present before is still present. |
| Colors.DedupByHex | src/lib/colors.ts:169 | First-occurrence de-duplication by hex never lengthens the list. |
| Colors.DedupByHexCorrect | src/lib/colors.ts:169 | The de-duplicated list has no repeated hex. Each entry comes from the input. Every input hex is represented. |
| Colors.DedupByHexSnoc | src/lib/colors.ts:169 | De-duplicating one more element is the push-unless-found step applied to the de-duplication so far. |
| Colors.DedupByHexPrefix | src/lib/colors.ts:169 | De-duplicating a prefix gives a prefix of the de-duplicated whole (first-occurrence order). |
| Colors.DedupSliceProperties | src/lib/colors.ts:169-171 | After de-duplication and `slice(0, n)`: at most n entries and at most the input length, no repeated hex, entries drawn from the input, consistency kept, and at least one entry for a non-empty input with n > 0. |
| ArrayOps.Insert | src/lib/colors.ts:91-94 | Inserting into a sorted list adds exactly one element and keeps the rest (multiset). |
| ArrayOps.SortBy | src/lib/colors.ts:91-94 | The sort keeps the length and the multiset of elements. |
| ArrayOps.InsertSorted | src/lib/colors.ts:91-94 | Insertion keeps the list sorted by the key. |
| ArrayOps.InsertWithKey | src/lib/colors.ts:91-94 | Insertion keeps the relative order of the elements of every key class. |
| ArrayOps.SortByIsStableSort | src/lib/colors.ts:91-94 | The result is sorted by the key, and the elements of each key class keep their input order (stability). |
| ArrayOps.SortByElements | src/lib/colors.ts:91-94 | The sorted list holds exactly the elements of its input. |
| ArrayOps.SliceTo | src/lib/colors.ts:171 | `slice(0, end)` is a prefix. Its length is min(end, n) for end ≥ 0 and max(n + end, 0) for end < 0. |
| ArrayOps.Map | src/lib/colors.ts:112 | `map` keeps the length and applies the callback at every index. |
| ArrayOps.SortedPrefixFrom | src/lib/extract.ts:53-59 | Every element of a prefix of a sorted list is an element of the unsorted input. |
| ArrayOps.MapPrefixStep | src/lib/colors.ts:112 | Mapping one more element appends its image. |
| ArrayOps.FlattenSnoc | src/lib/extract.ts:17-21 | Collecting one more optional result appends it when present. |
| ArrayOps.FlattenHas | src/lib/extract.ts:17-26 | A value is collected if and only if some position of the scan produced it. |
| ArrayOps.FlattenLength | src/lib/extract.ts:17-26 | A scan collects at most one value per position. |
| ArrayOps.FlattenPrefix | src/components/SimpleTest.tsx:30-44 | Stopping a scan early collects a prefix of what the full scan collects. |
| ArrayOps.InsertDistinctBy | src/lib/extract.ts:53-57 | Insertion keeps a list free of repeated f-values when the new element's f-value is new. |
| ArrayOps.SortByDistinctBy | src/lib/extract.ts:53-57 | Sorting keeps a list free of repeated f-values. |
| ColorSpace.RgbToXyzGrey | src/lib/colors.ts:19-27 | `RgbToXyz`: a grey's Y is its linearised channel, because the luminance weights add up to 1. |
| ColorSpace.RgbToXyzBlack | src/lib/colors.ts:19-27 | `RgbToXyz` maps black to the origin of XYZ. |
| ColorSpace.XyzToLabAxes | src/lib/colors.ts:28-33 | `XyzToLab`: a\* is 0 when X and Y stand in the white point's proportion, b\* is 0 when Z and Y do, and the XYZ origin has L\* = 0. |
| ColorSpace.RgbToLabBlack | src/lib/colors.ts:34 | `RgbToLab` maps black to L\*a\*b\* (0, 0, 0). |
| ColorSpace.EncodeAsWrittenAtMostOne | src/lib/colors.ts:46-49 | `EncodeAsWritten`, the channel as the code writes it: never above 1, since the gamma value in [0,1] reaches `clamp8` unscaled (see Findings). |
| ColorSpace.LabToRgbAsWrittenIsDark | src/lib/colors.ts:35-51 | `LabToRgbAsWritten`, `lab2rgb` as written: every channel is 0 or 1 for every Lab input, white included, so every colour is between #000000 and #010101. |
| ColorSpace.Encode | src/lib/colors.ts:46-49 | The corrected channel, scaled by 255 before `clamp8`: a linear channel at or below 0 encodes to 0, and the result is always in [0,255]. |
| ColorSpace.EncodeFullScale | src/lib/colors.ts:46-49 | Corrected `Encode`: a linear channel at or above full intensity encodes to 255. |
| ColorSpace.LabToRgbFullScale | src/lib/colors.ts:35-51 | Corrected `LabToRgb`: a Lab colour whose three linear channels are at full intensity comes back as (255, 255, 255). |
| ColorSpace.DeltaE76Symmetric | src/lib/colors.ts:52-55 | `DeltaE76`: the CIE76 distance is symmetric whenever the norm does not see the signs of its arguments (`Even`), as a sum of squares does not. The sign-invariance of the norm is assumed, not derived; what is proved is that the difference vectors of (p, q) and (q, p) differ only in sign. |
| ColorSpace.DeltaE76NonNegative | src/lib/colors.ts:52-55 | `DeltaE76`: the distance is never negative when the norm never is (`Sound`). |
| ColorSpace.DeltaE76SelfZero | src/lib/colors.ts:52-55 | `DeltaE76`: the distance from a colour to itself is 0 when the norm of the zero vector is 0 (`Sound`). |
| ColorSpace.Midpoint | src/lib/colors.ts:167 | The bridge midpoint is equidistant from both ends on each Lab axis. |
| ColorSpace.Scan | src/lib/colors.ts:72-73 | The scan ends with either its initial best index or an index it has looked at. |
| ColorSpace.Nearest | src/lib/colors.ts:72-73 | The nearest index lies inside the centre list when the list is non-empty. |
| ColorSpace.ScanStateStep | src/lib/colors.ts:73 | One step of the `d < bd` scan keeps the scan's invariant: the best index is the first index of minimal distance so far. |
| ColorSpace.ScanStateDone | src/lib/colors.ts:72-73 | At the end of the scan the invariant says the best index is the first nearest centre. |
| ColorSpace.ScanKeepsState | src/lib/colors.ts:72-73 | From any state satisfying the invariant, the scan ends in a state that still satisfies it, over the whole centre list. |
| ColorSpace.NearestIsFirstNearest | src/lib/colors.ts:72-73 | `bi` is the first index of minimal distance: every earlier centre is strictly farther and no later one is closer. It stays 0 when no centre is closer than 1e9. |
| ColorSpace.NearestIndex | src/lib/colors.ts:72-73 | The nested loop computes the nearest index, which is the first nearest centre. |
| Hsv.Max3 | src/lib/colors.ts:101 | `Math.max` of three values is one of them and at least each of them. |
| Hsv.Min3 | src/lib/colors.ts:101 | `Math.min` of three values is one of them and at most each of them. |
| Hsv.Trunc | src/lib/colors.ts:102 | Truncation toward zero, the rounding JavaScript's `%` uses. |
| Hsv.JsRemainderSmall | src/lib/colors.ts:102 | `x % 6` is x itself for −6 < x < 6. |
| Hsv.HueSectorRange | src/lib/colors.ts:102-103 | After adding 6 to a negative sector, the hue sector lies in [0,6). |
| Hsv.RgbToHsvRange | src/lib/colors.ts:99-107 | `RgbToHsv`: the hue is an integer in [0,360], and saturation and value lie in [0,1]. |
| Hsv.HsvOfRange | src/lib/colors.ts:100-106 | `HsvOf`, the formula on channels already scaled to [0,1]: the hue is an integer in [0,360], and saturation and value lie in [0,1]. |
| Hsv.RgbToHsvGrey | src/lib/colors.ts:99-107 | `RgbToHsv` of a grey has hue 0 and saturation 0, and its value is the channel over 255. |
| Hsv.RgbToHsvPrimaries | src/lib/colors.ts:99-107 | `RgbToHsv` puts pure red, green and blue at hues 0, 120 and 240, with saturation and value 1. |
| Hsv.HueCanBe360 | src/lib/colors.ts:103 | Rounding can take the hue to 360: `rgbToHsv([255,0,1])` has hue 360. |
| KMeans.FirstPick | src/lib/colors.ts:61 | `Math.floor(u · n)` is a valid index for u in [0,1). |
| KMeans.MinDistLower | src/lib/colors.ts:63 | `MinDist`, that is `Math.min(...dists)`, is at most the distance to every centre. |
| KMeans.MinDistAttained | src/lib/colors.ts:63 | `MinDist`: that minimum is the distance to some centre. |
| KMeans.Weights | src/lib/colors.ts:63 | There is one seeding weight per sample. |
| KMeans.PickFrom | src/lib/colors.ts:65-66 | The roulette pick is always a valid index, because `idx` defaults to 0. |
| KMeans.PickFromFirstReach | src/lib/colors.ts:66 | The roulette stops at the first index whose running total reaches the target, and stays at 0 when none does. |
| KMeans.TargetInside | src/lib/colors.ts:64-65 | With positive total weight, the target `Math.random() * sum` lies strictly inside (0, sum). |
| KMeans.PickHasPositiveWeight | src/lib/colors.ts:63-66 | With positive total weight and a positive draw, the sample picked has positive weight. |
| KMeans.Seeds | src/lib/colors.ts:61-68 | After j seeds there are j centres, and each of them is a sample. |
| KMeans.SeedsStep | src/lib/colors.ts:62-67 | The seeds after j + 1 draws are one seeding round, with draw j, applied to the seeds after j draws. |
| KMeans.WeightsNonNegative | src/lib/colors.ts:63 | Every seeding weight is non-negative (when the norm is `Sound`). |
| KMeans.WeightOfCentre | src/lib/colors.ts:63 | A sample that is already a centre has weight 0. |
| KMeans.NewSeedIsFresh | src/lib/colors.ts:63-67 | With a positive draw and positive total weight, the new seed differs from every earlier seed. |
| KMeans.PickIndex | src/lib/colors.ts:65-66 | The `r -= dists[i]; if (r <= 0) break` loop computes the roulette pick. |
| KMeans.NextSeedsAppendsSample | src/lib/colors.ts:63-67 | `NextSeeds`, one seeding round: it keeps every earlier centre and appends exactly one centre, which is a sample. |
| KMeans.PushSeed | src/lib/colors.ts:63-67 | The seeding body appends the sample the roulette lands on, as `NextSeeds` defines it. |
| KMeans.SeedCenters | src/lib/colors.ts:61-68 | The seeding loop ends with exactly k centres, namely the seeds for the given draws. |
| KMeans.Clusters | src/lib/colors.ts:70-75 | There is one cluster per centre. |
| KMeans.SizeOfFirstStep | src/lib/colors.ts:71-74 | One more sample adds one to the total size of the clusters before its nearest centre, and only to those. |
| KMeans.ClustersPartitionSamples | src/lib/colors.ts:70-75 | The cluster sizes add up to the number of samples: each sample is pushed into exactly one cluster. |
| KMeans.NoSamplesNoSizes | src/lib/colors.ts:70-71 | With no samples yet, every cluster is empty. |
| KMeans.MembersOfLast | src/lib/colors.ts:74 | One more sample is appended to the cluster of its nearest centre and to no other. |
| KMeans.SumCoordBounds | src/lib/colors.ts:79-81 | A coordinate sum lies between n·lo and n·hi when every term lies in [lo,hi]. |
| KMeans.MeanWithinBounds | src/lib/colors.ts:79-81 | `Mean`: each coordinate of a cluster mean lies within the bounds of that coordinate over the members. |
| KMeans.Update | src/lib/colors.ts:76-84 | A centre with an empty cluster keeps its value. Every other centre becomes the mean of its cluster. |
| KMeans.Step | src/lib/colors.ts:70-84 | One round keeps the number of centres. |
| KMeans.Refine | src/lib/colors.ts:69-85 | Any number of rounds keeps the number of centres. |
| KMeans.AssignClusters | src/lib/colors.ts:70-75 | The assignment loop builds the clusters of the nearest-centre assignment. |
| KMeans.UpdateCenters | src/lib/colors.ts:76-84 | The update loop overwrites exactly the centres with non-empty clusters, with their means. |
| KMeans.RefineRounds | src/lib/colors.ts:69-85 | The ten-round loop computes ten refinement rounds. |
| KMeans.ToLabs | src/lib/colors.ts:60 | There is one Lab value per pixel. |
| KMeans.FinalCenters | src/lib/colors.ts:61-85 | Seeding and refinement end with exactly k centres. |
| KMeans.CenterSwatches | src/lib/colors.ts:86-89 | There is one swatch per centre, each with `hex == hexOf(rgb)`. The centres are converted with the corrected `LabToRgb` (see Findings); as written, `lab2rgb` makes every swatch one of #000000 to #010101. |
| KMeans.KMeansResultSize | src/lib/colors.ts:59-89 | `KMeansResult`: there is no output for no pixels or k ≤ 0, and exactly k swatches otherwise, all with `hex == hexOf(rgb)`. |
| KMeans.KMeansResultIsSortedCenters | src/lib/colors.ts:86-95 | `KMeansResult`: the output is a permutation of the converted centres, sorted by `HsvKey` (hue ascending, saturation descending, value descending), with ties in centre order. |
| KMeans.KMeansLab | src/lib/colors.ts:58-96 | `kMeansLab` computes exactly the result specified by seeding, ten rounds, conversion with the corrected `LabToRgb` (see Findings) and the stable HSV sort. |
| AntiPalette.AntipodeReflects | src/lib/colors.ts:113 | `Antipode` is the reflection through mid-grey (50, 0, 0): applied twice it gives the colour back, and mid-grey is halfway between a colour and its antipode. |
| AntiPalette.PushAwayMovesFrom50 | src/lib/colors.ts:117 | `PushAway`, one retry, keeps L in [0,100] and on its side of 50. It never brings L nearer to 50, and moves it by exactly 6 when the clamp does not bite. |
| AntiPalette.PushAwayClampsL | src/lib/colors.ts:117 | `PushAway`: after one retry, L lies in [0,100] whatever it was before. |
| AntiPalette.Settle | src/lib/colors.ts:116-119 | The retry loop ends after at most 8 tries, with the start pushed that many times. Either the distance reached 35 or all 8 tries were made, and every earlier try was still too close. |
| AntiPalette.ComplementSwatch | src/lib/colors.ts:113-121 | The complementary swatch has `hex == hexOf(rgb)`. |
| AntiPalette.ComplementStopsAtFirstFarEnough | src/lib/colors.ts:114-119 | From the Lab antipode, the loop stops at the first try count that is far enough (at least 35), and after 8 tries at the latest. |
| AntiPalette.Complement | src/lib/colors.ts:113-121 | The `while` loop computes the complementary swatch. |
| AntiPalette.ComplementAll | src/lib/colors.ts:110-123 | There is one complementary swatch per input, in order, each consistent. |
| AntiPalette.AntiComplementary | src/lib/colors.ts:110-123 | `antiComplementary` maps the palette swatch by swatch. |
| AntiPalette.CandidatesSoften | src/lib/colors.ts:128-132 | `Candidate`: for a colour with L in [0,100], the first candidate moves L toward 50 by at most 3 and the second by at most 8, both staying in [0,100], and neither grows \|a\| or \|b\|. |
| AntiPalette.NudgeChannel | src/lib/colors.ts:137 | The nudge moves a channel by exactly 12, downward above 127 and upward otherwise. The clamp never cuts it short. |
| AntiPalette.Nudge | src/lib/colors.ts:137 | The nudged colour differs from the original in every channel. |
| AntiPalette.LowContrastSwatch | src/lib/colors.ts:126-140 | The low-contrast swatch has `hex == hexOf(rgb)`, and its hex never equals the source swatch's upper-cased hex. |
| AntiPalette.LowContrast | src/lib/colors.ts:126-140 | The reassigning callback computes the low-contrast swatch. |
| AntiPalette.LowContrastAll | src/lib/colors.ts:125-142 | There is one swatch per input, in order. Each is consistent, and none has the hex of its source. |
| AntiPalette.AntiLowContrast | src/lib/colors.ts:125-142 | `antiLowContrast` maps the palette swatch by swatch. |
| Analyzer.SwatchLabs | src/lib/colors.ts:146 | There is one Lab value per swatch. |
| Analyzer.NNDist | src/lib/colors.ts:148 | The inner reduce is at most 1e9 and at most the distance to every q. It is either 1e9 or one of those distances. |
| Analyzer.NNDistBounds | src/lib/colors.ts:148 | The nearest-neighbour distance is non-negative, and 0 for a point of the other palette. |
| Analyzer.SumNNBounds | src/lib/colors.ts:148 | The outer sum is non-negative, and 0 when every point lies in the other palette. |
| Analyzer.MeanNN | src/lib/colors.ts:147-148 | The mean is undefined (NaN in the source) exactly when the first palette is empty. |
| Analyzer.DeltaLabs | src/lib/colors.ts:149 | The palette distance is undefined exactly when either palette is empty. |
| Analyzer.DeltaPalette | src/lib/colors.ts:145-150 | `deltaPalette` is undefined exactly when either palette is empty. |
| Analyzer.DeltaPaletteSymmetric | src/lib/colors.ts:145-150 | `deltaPalette(a, b) == deltaPalette(b, a)`. |
| Analyzer.DeltaLabsSymmetric | src/lib/colors.ts:149 | The Lab-level distance is symmetric. |
| Analyzer.DeltaPaletteNonNegative | src/lib/colors.ts:145-150 | A defined palette distance is non-negative. |
| Analyzer.DeltaLabsNonNegative | src/lib/colors.ts:147-149 | A defined Lab-level distance is non-negative. |
| Analyzer.DeltaPaletteSelfZero | src/lib/colors.ts:145-150 | A non-empty palette is at distance 0 from itself. |
| Analyzer.DeltaLabsSelfZero | src/lib/colors.ts:147-149 | A non-empty Lab list is at distance 0 from itself. |
| Analyzer.Score | src/lib/colors.ts:154 | The score is undefined exactly when the distance is. Otherwise it lies in [0,100]. |
| Analyzer.ScoreInRange | src/lib/colors.ts:154 | For a distance in [0,100], the score is `round(100 − d)`. Distance 0 scores 100. |
| Analyzer.ScoreAntitone | src/lib/colors.ts:154 | A larger distance never gives a larger score. |
| Analyzer.Label | src/lib/colors.ts:155 | "Excellent Match!" if and only if score ≥ 80, "Good Harmony" if and only if 60 ≤ score < 80, and "Decent Pairing" otherwise, including an undefined score. |
| Analyzer.Description | src/lib/colors.ts:156-159 | Each label comes with its fixed description sentence. |
| Analyzer.BridgeFor | src/lib/colors.ts:165-168 | A bridge swatch has `hex == hexOf(rgb)`. |
| Analyzer.Bridges | src/lib/colors.ts:163-168 | There is one candidate bridge per loop index: the midpoint to that colour's first nearest colour of the other palette. |
| Analyzer.BridgeCandidates | src/lib/colors.ts:163-168 | There are min(\|a\|, \|b\|) candidates, each consistent. |
| Analyzer.BridgeColorsProperties | src/lib/colors.ts:162-171 | The bridges number at most 5 and at most min(\|a\|, \|b\|). None has a repeated hex, each is consistent and each is one of the candidates. There is at least one when both palettes are non-empty. |
| Analyzer.BridgesStep | src/lib/colors.ts:163-168 | One more loop index appends its candidate. |
| Analyzer.CollectStep | src/lib/colors.ts:169 | One pass of the loop body extends the de-duplicated candidate list. |
| Analyzer.ModSmall | src/lib/colors.ts:164 | `i % la.length == i` for every index of the loop. |
| Analyzer.CollectBridges | src/lib/colors.ts:162-170 | The bridge loop collects the candidates of its first n indices, de-duplicated by hex in first-occurrence order. |
| Analyzer.Analyze | src/lib/colors.ts:152-172 | `analyze` returns the score, label, description and the first 5 de-duplicated bridges as specified. Only the bridges are built by a loop (`CollectBridges`); score, label and description are the functions `Score`, `Label` and `Description`, whose properties are their own rows. |
| Analyzer.AnalyzeSelf | src/lib/colors.ts:152-155 | A non-empty palette compared with itself scores 100 and is labelled "Excellent Match!". |
| Extract.Quantize | src/lib/extract.ts:28-30 | A stored channel is a multiple of 4 in [0,252], with stored ≤ v < stored + 4. |
| Extract.SamplePosition | src/lib/extract.ts:17-21 | Sample j exists if and only if byte 8j is inside the buffer. Its four channels are then inside too: every other pixel is read. |
| Extract.SampleAt | src/lib/extract.ts:18-31 | A sample counts if and only if a ≥ 200 and 15 < r+g+b < 750. It is then the quantised colour. |
| Extract.Samples | src/lib/extract.ts:17-21 | The scan's j-th result is the sample at byte offset 8j. |
| Extract.AcceptedSamples | src/lib/extract.ts:17-31 | A colour is accepted if and only if some offset 8j yields it. |
| Extract.IndexOf | src/lib/extract.ts:33 | The lookup finds a bucket with that key, or reports the key absent. |
| Extract.TallyCorrect | src/lib/extract.ts:33-37 | `Tally`: counting one colour keeps keys distinct and adds its key if new. It increments that key's count or sets it to 1, and leaves every other bucket in place. |
| Extract.HistogramCorrect | src/lib/extract.ts:33-37 | `Histogram`: keys are distinct and occur exactly for the accepted colours. Each count is the number of accepted samples with that key. |
| Extract.HistogramSnoc | src/lib/extract.ts:33-37 | The histogram of one more sample is one counting step on the histogram so far. |
| Extract.TotalCountUpdate | src/lib/extract.ts:34 | Replacing a bucket changes the total by the change in its count. |
| Extract.HistogramTotal | src/lib/extract.ts:33-37 | The counts sum to the number of accepted samples. |
| Extract.HexSwatch | src/lib/extract.ts:47-50 | A histogram swatch keeps its bucket's colour. |
| Extract.BufferHistogramCorrect | src/lib/extract.ts:17-37 | `BufferHistogram`: over the whole buffer: keys are distinct and are exactly the accepted colours. Each count is that colour's multiplicity, and the counts sum to the number of accepted samples. |
| Extract.TopColorsOrder | src/lib/extract.ts:43-45 | `TopColors`: after the sort by `CountKey`, counts do not increase. Equal counts keep first-seen order. At most 4k entries are kept, taken as a prefix of the sorted histogram. |
| Extract.ExtractColorsDistinct | src/lib/extract.ts:47-59 | `ExtractColors`: no two output swatches have the same rgb. |
| Extract.ExtractColorsProvenance | src/lib/extract.ts:47-59 | `ExtractColors`: there are at most k output swatches, and each comes from the top-4k list. |
| Extract.TopSwatchesFromBuckets | src/lib/extract.ts:47-50 | Each top swatch is the swatch of one of the top-4k buckets. |
| Extract.ExtractColorsLowerHex | src/lib/extract.ts:49 | `ExtractColors`: every output hex is the lower-case `rgbToHex` of its rgb, not `hexOf`. |
| Extract.ExtractColorsHueOrder | src/lib/extract.ts:53-59 | `ExtractColors`: the output is in ascending order of `HueKey`, the hue. |
| Extract.CountAllSnoc | src/lib/extract.ts:33-37 | Counting one more scan result applies one counting step. |
| Extract.CountAllIsHistogram | src/lib/extract.ts:17-37 | Counting scan results one by one gives the histogram of the accepted colours. |
| Extract.HistogramFound | src/lib/extract.ts:24-37 | A rejected sample leaves the histogram unchanged. An accepted one is counted once. |
| Extract.CountPixel | src/lib/extract.ts:18-37 | The loop body counts the sample at offset i into the map. |
| Extract.ScanPosition | src/lib/extract.ts:17-37 | One iteration extends the counted prefix of the scan by one sample. |
| Extract.ExtractColorsFromImage | src/lib/extract.ts:14-59 | `extractColorsFromImage` computes the specified palette of the buffer. |
| SimpleTest.SimpleRgbToHex | src/components/SimpleTest.tsx:4-6 | The component's `rgbToHex` equals `hexOf` from colors.ts: '#' and six upper-case digits. |
| SimpleTest.PositionFits | src/components/SimpleTest.tsx:30-34 | Position j exists if and only if byte 16j is inside the buffer (every 4th pixel). Its four channels are then inside too. |
| SimpleTest.CandidateAt | src/components/SimpleTest.tsx:31-40 | A pixel is a candidate if and only if a > 200 and 30 < r+g+b < 720. It is then that exact colour with `hexOf`. |
| SimpleTest.Positions | src/components/SimpleTest.tsx:30 | There is one scan result per visited position. |
| SimpleTest.PositionsAt | src/components/SimpleTest.tsx:30-37 | The j-th scan result is the candidate at byte 16j. |
| SimpleTest.CandidatesFromOffsets | src/components/SimpleTest.tsx:30-37 | Every candidate comes from some offset 16j. |
| SimpleTest.CandidatesShape | src/components/SimpleTest.tsx:30-40 | There is at most one candidate per position, each consistent. |
| SimpleTest.CandidatesPrefix | src/components/SimpleTest.tsx:30-44 | A shorter scan yields a prefix of the candidates of a longer one. |
| SimpleTest.Collect | src/components/SimpleTest.tsx:37-41 | One pass of the body adds at most one colour. |
| SimpleTest.CollectedIsDedup | src/components/SimpleTest.tsx:30-41 | `Collected`: after n positions, `colors` is the candidates de-duplicated by hex in first-seen order. |
| SimpleTest.Sizes | src/components/SimpleTest.tsx:44 | There is one list length per scan prefix. |
| SimpleTest.SizesAt | src/components/SimpleTest.tsx:44 | Each entry is the length of `colors` after that many positions. |
| SimpleTest.StopFrom | src/components/SimpleTest.tsx:44 | The stopping position never lies before the start or after the end. |
| SimpleTest.SizesStep | src/components/SimpleTest.tsx:39-41 | An iteration grows the list by at most one. |
| SimpleTest.SizesGrowByOne | src/components/SimpleTest.tsx:29-41 | The list starts empty and grows by at most one per iteration. |
| SimpleTest.StopFromBound | src/components/SimpleTest.tsx:44 | The `break` leaves at most count·2 entries for count ≥ 1, and at most 1 otherwise. |
| SimpleTest.CollectedBound | src/components/SimpleTest.tsx:44 | For count ≥ 1, at most 2·count colours are ever collected. |
| SimpleTest.SlicePrefix | src/components/SimpleTest.tsx:48 | `slice(0, count)` of a prefix that is long enough, or whole, agrees with `slice(0, count)` of the whole. |
| SimpleTest.CollectedIsPrefix | src/components/SimpleTest.tsx:30-44 | What the scan holds when it stops is a prefix of all distinct candidates, and all of them when it does not stop early. |
| SimpleTest.SimpleExtractIsFirstDistinct | src/components/SimpleTest.tsx:30-48 | `SimpleExtract`: count ≤ 0 gives []. Otherwise the result is the first min(count, D) distinct accepted colours in scan order. |
| SimpleTest.StopReached | src/components/SimpleTest.tsx:44 | Stopping before the end means the list reached count·2 entries. |
| SimpleTest.SimpleExtractDistinct | src/components/SimpleTest.tsx:38-48 | The result never holds two entries with the same hex, and each is consistent. |
| SimpleTest.SamplePixel | src/components/SimpleTest.tsx:31-42 | The loop body reads the pixel at offset i and pushes it unless its hex is present. |
| SimpleTest.StopFromFirst | src/components/SimpleTest.tsx:44 | The stop is the first position at which the list has count·2 entries, or the end. |
| SimpleTest.Advance | src/components/SimpleTest.tsx:30-44 | One iteration extends the scanned prefix by one position and records the new length. |
| SimpleTest.SimpleExtractColors | src/components/SimpleTest.tsx:13-49 | `simpleExtractColors` computes the specified result of the buffer. |
| Download.DecimalString | src/lib/download.ts:16 | `${i + 1}` is a non-empty run of decimal digits, with no leading zero except for 0. |
| Download.DecimalRoundTrip | src/lib/download.ts:16 | Reading the decimal digits back gives the number. |
| Download.Numbered | src/lib/download.ts:16 | There is one line per swatch. |
| Download.NumberedAt | src/lib/download.ts:16 | From a given start number, line i is `  --palette-<from+i>: <hex>;`. |
| Download.CssLinesAt | src/lib/download.ts:16 | Line i is `  --palette-<i+1>: <hex>;`: numbered from 1, with the hex copied verbatim. |
| Download.SplitLines | src/lib/download.ts:16-17 | Splitting at '\n' yields at least one piece. |
| Download.SplitNoNewline | src/lib/download.ts:16-17 | A string without '\n' is one line. |
| Download.SplitAfterPiece | src/lib/download.ts:16-17 | Splitting "a\nb" gives a followed by the lines of b. |
| Download.SplitJoined | src/lib/download.ts:16-17 | Splitting lines joined by '\n' and followed by more text gives those lines back, then the rest. |
| Download.JoinCons | src/lib/download.ts:16 | `Join`, that is `join('\n')`, of two or more lines is the first line, a newline and the join of the rest. |
| Download.CssLineNoNewline | src/lib/download.ts:16 | A variable line contains no newline when its hex contains none. |
| Download.CssTextEmpty | src/lib/download.ts:16-17 | An empty palette gives `:root{\n\n}\n`. |
| Download.LinesOnOneLine | src/lib/download.ts:16 | No variable line contains a newline. |
| Download.SplitClosing | src/lib/download.ts:17 | The closing `}\n` is the line "}" followed by an empty last line. |
| Download.CssTextLines | src/lib/download.ts:16-17 | `CssText`: the text's lines are ":root{", one variable line per swatch in palette order, then "}". An empty palette has an empty line where the variables would be. |
| Download.DigitRun | src/lib/download.ts:16 | The leading digit run stays within the string and holds only digits. |
| Download.DigitRunOf | src/lib/download.ts:16 | The digit run of digits followed by a non-digit is exactly those digits. |
| Download.CssLineRoundTrip | src/lib/download.ts:16 | `CssLine`: a variable line parses back to its number and its hex. |
| Download.Hexes | src/lib/download.ts:16 | There is one hex per swatch. |
| Download.HexesAt | src/lib/download.ts:16 | The i-th hex is the i-th swatch's hex. |
| Download.ParseCssLinesRoundTrip | src/lib/download.ts:16 | Numbered lines parse back, numbers checked, to the palette's hexes. |
| Download.CssTextRoundTrip | src/lib/download.ts:16-17 | `CssText`: the whole CSS text parses back to the palette's hexes in order. |
| Download.JoinSplit | src/lib/download.ts:16 | `Join` followed by splitting at '\n' is the identity on newline-free lines. |
| Download.JsonDataCopies | src/lib/download.ts:4-8 | `JsonData`: `mainColors` and `antiColors` keep the length and order of their inputs and copy exactly hex and rgb. The timestamp is the one given. |
| Download.JsonDataRoundTrip | src/lib/download.ts:5-6 | `JsonData`: reading the entries back as swatches gives the input palettes. |

## Left out

- Floating point: every computation is over exact reals.
  - `Math.round` is written out as the floor of v + ½.
  - JavaScript's `%` is written out as a truncating remainder.
  - Rounding errors of IEEE doubles are not modelled.
- `x ** y`, `Math.cbrt`, the cube `t * t * t`, the norm
  `Math.sqrt(dL * dL + da * da + db * db)` and `Math.random` are not computed:
  - the first four are fields of a `Numerics` parameter. The cube and the
    norm are kept abstract so that every formula the model states is linear
    over the reals;
  - `Math.random` is a sequence of draws in [0,1), one per seed.

  The distance lemmas assume of the norm only what its IEEE evaluation
  satisfies: `Sound` (0 at the origin, never negative) and, for symmetry,
  `Even` (the signs of its arguments do not matter). The gamma lemmas
  assume of `x ** (1 / 2.4)` only `PowUnit`: 1 maps to 1 and no point of
  [0,1] maps above 1.
- NaN: the source divides by the palette length in `deltaPalette`. The
  model returns `None` for an empty palette instead of NaN. `analyze`
  then gives a `None` score and the "Decent Pairing" label, which is what
  `Math.max(0, Math.min(100, NaN))` followed by the thresholds does.
- `textColorFor` (src/lib/colors.ts:11-16) is not part of this model. It is
  a luminance threshold over `**`, and none of the modelled operations uses it.
- ColorSpace.LabToRgb: the RGB→Lab→RGB round trip is not stated. `x ** y`,
  `Math.cbrt` and the cube are parameters, and nothing in the code makes it
  hold exactly. The model's `LabToRgb` is the corrected one of the Findings
  below; `LabToRgbAsWritten` is the code as written.
- KMeans.SeedCenters: `k` is taken to be an integer. For a fractional `k`
  the seeding `while` (src/lib/colors.ts:62) adds ⌈k⌉ centres while
  `Array.from({ length: k })` (src/lib/colors.ts:70) makes ⌊k⌋ clusters, and
  the push into the missing cluster throws.
- The canvas is not modelled: `document.createElement`, `drawImage`,
  `getImageData` and the scaling to 300 or 100 pixels. The samplers take
  the RGBA buffer as their input.
- Export I/O is not modelled: `Blob`, `URL.createObjectURL`, the anchor
  click and `JSON.stringify` formatting. The `Date` timestamp of
  `downloadJSON` is a parameter.
- `Colors.ToUpper` upper-cases ASCII letters only. The strings involved
  are hex strings.
- `Extract.ExtractColorsFromImage`: the `Map` is keyed by the string
  `${rr},${gg},${bb}`, which the model keys by the quantised RGB triple
  instead. Both are injective on quantised colours. The map's insertion
  order is kept as a sequence of buckets.
- src/lib/extract.ts uses `rgbToHex`, `rgbToHsv` and `Swatch` without
  importing them (line 1). It calls `rgbToHsv(...a.rgb)` with spread
  arguments where `rgbToHsv` takes one tuple (line 54). The model takes
  the evidently intended reading: the colours.ts functions, and the hue
  of the swatch's own colour as the sort key.
- The in-place sorts (`out.sort`, `swatches.sort`, `Array.from(...).sort`)
  are modelled on values, as a stable insertion sort producing a new
  sequence. Aliasing of the sorted arrays is not modelled. `kMeansLab`'s
  `centers[i] = …` is a sequence update.
- Hsv.RgbToHsvRange: the hue lies in [0,360], not [0,360). Rounding the
  hue times 60 can give 360, as `Hsv.HueCanBe360` shows. The model follows
  the code.
- AntiPalette.Complement: the try count the loop ends with is not
  returned, since the source discards it. `AntiPalette.Settle` states it.
- Download.CssTextLines and Download.CssTextRoundTrip require that no hex
  contains a newline. Swatch hexes produced by `hexOf` never do. A
  caller-supplied hex with a newline would split a line.

## Findings

| source | as written | input that shows it | evidently intended | confidence | as-written member | corrected member |
|---|---|---|---|---|---|---|
| src/lib/colors.ts:46-49 | `lab2rgb` passes the gamma-encoded channel, a value in [0,1], straight to `clamp8`, so every channel rounds to 0 or 1 | `lab2rgb([100, 0, 0])` (white) gives at most (1, 1, 1), that is #010101, instead of #FFFFFF; every swatch of `kMeansLab` (src/lib/colors.ts:87), of both anti-palettes and of the bridges of `analyze` is one of #000000 to #010101, and the HSV sort of `kMeansLab` runs on channels that are 0 or 1 | `clamp8(255 * …)` for each channel | not executed | ColorSpace.LabToRgbAsWrittenIsDark | ColorSpace.LabToRgbFullScale |

`ColorSpace.LabToRgbAsWritten` (with `EncodeAsWritten`) is the code as
written, and `ColorSpace.LabToRgbAsWrittenIsDark` proves that no channel it
produces exceeds 1. `ColorSpace.LabToRgb` (with `Encode`) scales by 255
first, and `ColorSpace.EncodeFullScale` and `ColorSpace.LabToRgbFullScale`
prove that full intensity gives 255. `lab2rgb` is called by `kMeansLab`
(src/lib/colors.ts:87), `antiComplementary` (line 120), `antiLowContrast`
(lines 130, 134) and `analyze` (line 168). The model's
`KMeans.CenterSwatches`, `AntiPalette.ComplementSwatch`,
`AntiPalette.LowContrastSwatch` and `Analyzer.BridgeFor` all use the
corrected `LabToRgb`. Written as the source has it, the main palette, both
anti-palettes and every bridge would consist of #000000 to #010101 swatches.
