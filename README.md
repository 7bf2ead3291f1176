# auto-palette core, modelled in Dafny

This project models the core of auto-palette, a TypeScript library that
extracts a colour palette from an image. Five pieces are modelled:

- the two K-means centroid initialisers (uniform random and K-means++);
- the HSL colour space: the hue, saturation and lightness clamps, the
  six-sector encoder and the max/min/delta decoder;
- the `Color` value type: its validating constructor, the light/dark
  predicates, `luminance`, `clone`, `differenceTo` and the `parse` dispatch;
- the KD-tree `Node` record, as its tests pin it down;
- the query contract of `Palette` (`getDominantSwatch`, `findSwatches`), as
  its tests pin it down.

Files and modules:

| file | module | models |
|---|---|---|
| `js.dfy` | `Js` | JavaScript numbers (finite, NaN, ±Infinity), `TypeError`/`RangeError`, `undefined`, `%`, `Math.round`, `clamp` |
| `initializer.dfy` | `Initializer` | `RandomInitializer`, `KmeansPlusPlusInitializer`, the index `Map` |
| `hsl.dfy` | `Hsl` | `clampH`, `clampS`, `clampL`, `HSLColorSpace.encode/decode` |
| `color.dfy` | `Colors` | `Color` |
| `kdnode.dfy` | `KdTree` | `Node` |
| `palette.dfy` | `Palettes` | `Swatch`, `Palette` |

Modelling choices:

- Numbers are exact reals. A JavaScript number is `Js.Number`, so that
  `Number.isFinite` and `Number.isInteger` checks have something to reject.
  JavaScript's `%` keeps the sign of the dividend and is written out as
  `Js.Rem`. `Math.round(x)` is `floor(x + 0.5)`.
- `Math.random` is an explicit oracle, `Initializer.Random`. It holds a
  stream of draws and a read position, and every call that draws threads it
  through. The rejection loops (`do … while (selected.has(index))` and the
  `while` loop of `RandomInitializer`) only stop with probability 1. The
  model asks that the stream be `Fair`: from any position, every index is
  drawn again. That gives each loop a termination measure.
  `Initializer.CycleIsFair` shows that such a stream exists.
- The distance function of the K-means++ initialiser can be any function
  into the non-negative reals.
- A JavaScript `Map<number, P>` becomes the class `Initializer.IndexMap`.
  Its keys are kept in insertion order, because `Array.from(map.values())`
  returns the centroids in that order.
- The `Float32Array` cache is an `array<real>`.
- Two steps of the source are their own methods, so that each is proved
  on its own: the `while` loop of `RandomInitializer.initialize` is
  `Initializer.Collect`, and the branch of `selectRecursively` that picks
  `selectRandomly` or `selectBest` is
  `Initializer.KmeansPlusPlusInitializer.SelectNext`.
- The CIELab clamps (`clampL`, `clampA`, `clampB`) and the chain that turns
  a hex string into CIELab are not part of this model. They are the fields of
  `Colors.LabSpace`, handed to every operation that uses them.
- `RGBColorSpace.encode/decode` (packing a triple into one number) is not part
  of this model. `Hsl.Encode` returns the rounded triple that would be
  packed, and `Hsl.Decode` starts from the unpacked triple.
- The implementations of `Node` and `Palette` are not part of this model.
  They are modelled from what their tests assert. For `findSwatches` the
  model picks one explicit ranking: descending population, with ties kept in
  list order.

Behaviour of the source worth knowing, kept as written:

- `clampH` shifts a negative hue up by 360 only once. So a hue below -360
  that is not a whole number of turns stays negative (`clampH(-400) == -40`,
  `Hsl.ClampHBelowMinusTurnExample`). The encoder then matches none of its
  six sectors and returns a grey (`Hsl.EncodeNegativeHueIsGrey`). A whole
  number of turns lands on 0 (`clampH(-720) == 0`,
  `Hsl.ClampHWholeTurnsExample`), so such a hue encodes like a hue of 0.
- In `RandomInitializer` the `if (!point) continue` guard can never fire:
  the drawn index is always in range (`Initializer.DrawIndexInRange`), and a
  point array is never falsy. The model omits the guard.
- With exact arithmetic, the fallback of `selectBest` to `selectRandomly`
  happens exactly when the total distance is 0, for example when every
  unselected point coincides with a centroid
  (`Initializer.FallbackIffNoDistance`).

## Model

| member | source | states |
|---|---|---|
| `Initializer.RandomInitializer.Initialize` | src/extractor/kmeans/initializer.ts:23-46 | `TypeError` exactly when `count` is not a positive integer; all points, unchanged and in order, with the random source untouched, when there are no more than `count`; otherwise exactly `count` points taken from pairwise distinct in-range indices, each the point at its index; the indices are those `Collected` from the draws (a draw of an index already present is skipped), and the loop stops at the draw that completes `count` |
| `Initializer.KmeansPlusPlusInitializer.Initialize` | src/extractor/kmeans/initializer.ts:57-69 | the same error and short-cut cases as the random initialiser; otherwise exactly `count` points at distinct in-range indices, the first being the index of the first free draw and the chain of chosen indices being `PlusPlusSteps`: each later index the outcome of a `selectBest` step on those chosen before; the random source keeps its stream |
| `Initializer.Collect` | src/extractor/kmeans/initializer.ts:32-43 | the loop of the random initialiser, on a new `Map`: ends with exactly `k` distinct in-range entries, each the point at its index; the keys are those `Collected` from the draws used, and the draw before the last still left fewer than `k` |
| `Initializer.KmeansPlusPlusInitializer.SelectNext` | src/extractor/kmeans/initializer.ts:76-80 | one `PlusPlusStep` from the old selection: `selectRandomly` on an empty selection, whose single entry is then the index of the first draw, and `selectBest` otherwise |
| `Initializer.KmeansPlusPlusInitializer.SelectRecursively` | src/extractor/kmeans/initializer.ts:71-82 | keeps the earlier selections and adds entries until there are exactly `k`, all distinct and in range; the keys go from the old selection to the new one through `PlusPlusSteps`: `selectRandomly` on an empty selection, `selectBest` (`BestStep`) otherwise |
| `Initializer.KmeansPlusPlusInitializer.SelectBest` | src/extractor/kmeans/initializer.ts:84-117 | adds exactly the index `BestStep` describes: the roulette pick over the cumulative cache, or the first free random draw when none qualifies |
| `Initializer.KmeansPlusPlusInitializer.FillCache` | src/extractor/kmeans/initializer.ts:85-97 | the cache holds the running total of nearest distances at each unselected index and 0 at selected ones, and the total is the sum of all weights |
| `Initializer.KmeansPlusPlusInitializer.ComputeNearestDistance` | src/extractor/kmeans/initializer.ts:119-128 | the loop's result equals `NearestDistance` of the point and the selected values |
| `Initializer.KmeansPlusPlusInitializer.SelectRandomly` | src/extractor/kmeans/initializer.ts:130-136 | draws until an unselected index comes up; every earlier draw hit a selected index; appends exactly that index |
| `Initializer.IndexMap.Set` | src/extractor/kmeans/initializer.ts:43 | `Map.set`: a new key is appended with its value; an existing key keeps its place and gets the new value; keys stay distinct |
| `Initializer.NearestDistanceIsMinimum` | src/extractor/kmeans/initializer.ts:119-128 | at most `MAX_VALUE`, at most the distance to every selected point, and either `MAX_VALUE` or one of those distances: the minimum, or `MAX_VALUE` when nothing is selected |
| `Initializer.FindIndex` | src/extractor/kmeans/initializer.ts:100-110 | `findIndex`: the result is `-1` or an unselected index whose nonzero cached value exceeds the target, and no earlier index qualifies |
| `Initializer.CacheMonotone` | src/extractor/kmeans/initializer.ts:86-97 | the cache is non-decreasing along unselected indices and 0 at every selected one |
| `Initializer.FallbackIffNoDistance` | src/extractor/kmeans/initializer.ts:99-115 | the roulette finds no index if and only if the total distance is 0 |
| `Initializer.RouletteInterval` | src/extractor/kmeans/initializer.ts:99-116 | a roulette pick is unselected, has positive weight, and the target lies in its slice of the running total |
| `Initializer.BestStepOutcome` | src/extractor/kmeans/initializer.ts:84-117 | one `selectBest` step adds exactly one new index, keeps the earlier ones, uses the roulette pick when the total is positive and the random fallback only when it is 0 |
| `Initializer.CollectedShape` | src/extractor/kmeans/initializer.ts:33-44 | the indices the random initialiser's loop collects are distinct, below `n`, and each is the index of some draw in the range used |
| `Initializer.StepAppendsFresh` | src/extractor/kmeans/initializer.ts:71-82 | one step of `selectRecursively` appends exactly one index that was not selected before |
| `Initializer.PlusPlusStepsDistinct` | src/extractor/kmeans/initializer.ts:71-82 | a chain of `selectRecursively` steps extends its starting selection and keeps the indices distinct |
| `Initializer.DrawIndexInRange` | src/extractor/kmeans/initializer.ts:34 | `Math.floor(Math.random() * n)` is an index in [0, n) |
| `Initializer.NextFreeDraw` | src/extractor/kmeans/initializer.ts:132-134 | on a fair source, while an index is still free, a later draw picks a free index, so the rejection loop ends |
| `Initializer.Missing` | src/extractor/kmeans/initializer.ts:33 | fewer than `n` distinct indices below `n` leave some index free |
| `Initializer.CycleIsFair` | src/extractor/kmeans/initializer.ts:34 | a random source meeting the initialisers' demands exists: a cycling stream is in [0, 1) and fair |
| `Js.Rem` | src/color/space/hsl.ts:27 | JavaScript `%`: the result has the sign of the dividend, is smaller than the divisor in magnitude, and leaves values within one divisor unchanged |
| `Js.RemIsRemainder` | src/color/space/hsl.ts:27 | the result of JavaScript `%` differs from the dividend by a whole multiple of the divisor |
| `Js.Round` | src/color/space/hsl.ts:102-104 | `Math.round`: the integer within one half below and strictly less than one half above |
| `Js.Clamp` | src/color/space/hsl.ts:46 | `clamp`: in range; values already in range are unchanged; values out of range go to the nearer bound |
| `Hsl.ClampH` | src/color/space/hsl.ts:18-28 | non-finite maps to 0; finite input ≥ -360 maps into [0, 360); input below -360 stays in (-360, 0]; [0, 360) is unchanged; [-360, 0) is shifted by 360 |
| `Hsl.ClampS` | src/color/space/hsl.ts:42-47 | the result is in [0, 1]; non-finite maps to 0; values in [0, 1] are unchanged |
| `Hsl.ClampL` | src/color/space/hsl.ts:61-66 | the result is in [0, 1]; non-finite maps to 0; values in [0, 1] are unchanged |
| `Hsl.ClampHPeriodic` | src/color/space/hsl.ts:18-28 | adding a whole turn to a non-negative hue does not change its clamped value |
| `Hsl.ClampHBelowMinusTurnExample` | src/color/space/hsl.ts:23-27 | `clampH(-400)` is -40: a hue below -360 is shifted only once |
| `Hsl.ClampHWholeTurnsExample` | src/color/space/hsl.ts:23-27 | `clampH(-720)` is 0: after the single shift, `%` of a whole number of turns gives 0 |
| `Hsl.Encode` | src/color/space/hsl.ts:72-107 | every input, finite or not, yields three channels in [0, 255], and the opacity passes through unchanged |
| `Hsl.EncodeChannelsInUnit` | src/color/space/hsl.ts:77-104 | every channel before rounding lies in [0, 1] |
| `Hsl.EncodeSectorShares` | src/color/space/hsl.ts:77-100 | for a hue in [0, 360) and any `c`, `x` and `m`, one channel gets `c`, one gets `x` and one gets 0, and then every channel gets `m` |
| `Hsl.EncodeGrey` | src/color/space/hsl.ts:77-104 | a saturation of 0 encodes to a grey whose channels are the rounded lightness |
| `Hsl.EncodeNegativeHueIsGrey` | src/color/space/hsl.ts:82-100 | a hue left negative by `clampH` matches no sector and encodes to a grey of the offset `m` |
| `Hsl.Decode` | src/color/space/hsl.ts:108-142 | h is in [0, 360), s and l are in [0, 1]; l is (max + min) / 2; a grey yields h = 0 and s = 0; the opacity passes through unchanged |
| `Hsl.HueAboveMinusTurn` | src/color/space/hsl.ts:118-127 | the raw hue of the decoder is never below -360, so `clampH` puts it in [0, 360) |
| `Hsl.HueTieBreakAgrees` | src/color/space/hsl.ts:121-127 | when channels tie for the maximum, the tied hue branches give the same clamped hue, so the priority r, then g, then b only picks among equal answers |
| `Hsl.SaturationRecoversSpread` | src/color/space/hsl.ts:129-134 | the decoder's saturation is in [0, 1], and the encoder's chroma formula turns it back into the channel spread |
| `Hsl.EncodeDecode` | src/color/space/hsl.ts:72-142 | decoding an 8-bit RGB triple and encoding the result gives the same triple back |
| `Colors.NewColor` | src/color/index.ts:22-33 | `TypeError` exactly when l, a or b is non-finite; otherwise the stored components are the inputs passed through `clampL`/`clampA`/`clampB` |
| `Colors.LightDarkSplit` | src/color/index.ts:41-53 | for the predicates `Colors.IsLight` (l > 50) and `Colors.IsDark` (its negation): `isDark` holds iff l ≤ 50, and exactly one of the two holds |
| `Colors.Luminance` | src/color/index.ts:60-62 | `luminance` is above 50 exactly when the colour is light, being the stored l |
| `Colors.Clone` | src/color/index.ts:69-71 | `clone` never throws and gives the stored components passed through the clamps again |
| `Colors.CloneIsIdentity` | src/color/index.ts:69-71 | with idempotent clamps, cloning a constructed colour gives that colour |
| `Colors.Parse` | src/color/index.ts:139-154 | a `Color` is cloned; a string starting with `#` that the hex chain accepts goes to the constructor with the chain's components (so non-finite ones give a `TypeError`); one the chain rejects is an error; a value that is neither a `Color` nor a string starting with `#` is a `TypeError` |
| `Colors.ParseColorIsIdentity` | src/color/index.ts:139-142 | with idempotent clamps, parsing a constructed colour returns that colour |
| `Colors.ParseHexClamped` | src/color/index.ts:144-150 | a successfully parsed hex string is the constructor applied to the components the chain produced |
| `Colors.DifferenceTo` | src/color/index.ts:98-100 | the formula gets this colour's components first and the other's second; without a formula, `cie76` is used |
| `Colors.DifferenceSwapped` | src/color/index.ts:98-100 | swapping the colours swaps the formula's arguments, so a symmetric formula gives a symmetric difference |
| `KdTree.NewNode` | src/math/neighbors/kdtree/node.test.ts:7-59 | `RangeError` exactly when the index or the axis is negative; otherwise a node holding exactly the given index, axis and children |
| `KdTree.NewNodeLeaf` | src/math/neighbors/kdtree/node.test.ts:62-91 | for the predicate `KdTree.IsLeaf` (`isLeaf`): a constructed node is a leaf iff it was given neither child |
| `KdTree.NodeExamples` | src/math/neighbors/kdtree/node.test.ts:5-92 | the test cases: the stored fields, the two `RangeError`s and the three `isLeaf` answers |
| `Palettes.Dominant` | src/palette.test.ts:38-48 | the result is one of the swatches and no swatch has a larger population |
| `Palettes.GetDominantSwatch` | src/palette.test.ts:38-48 | none exactly for an empty palette; otherwise a swatch of the palette, unchanged, whose population no other swatch exceeds |
| `Palettes.Insert` | src/palette.test.ts:66-79 | inserting into a list sorted by descending population keeps it sorted and adds exactly that swatch |
| `Palettes.Ranked` | src/palette.test.ts:66-79 | the ranking is sorted by descending population and is a permutation of the swatches |
| `Palettes.FindSwatches` | src/palette.test.ts:66-88 | `TypeError` exactly when `limit` ≤ 0; otherwise `min(limit, size)` swatches of the palette, most populous first |
| `Palettes.FindSwatchesKeepsMostPopulous` | src/palette.test.ts:66-71 | every swatch of the palette that `findSwatches` leaves out (counted as a multiset) is no more populous than any swatch it returns |
| `Palettes.RankedHeadIsDominant` | src/palette.test.ts:38-48 | the first swatch of the ranking is the dominant swatch |
| `Palettes.FindSwatchesStartsWithDominant` | src/palette.test.ts:38-71 | with a positive limit, the first swatch found is the dominant one |
| `Palettes.PaletteExamples` | src/palette.test.ts:9-88 | on the test's three swatches: the dominant is the one of population 128 with its position unchanged; the `findSwatches` cases, which the tests run on a six-swatch palette extracted from an image, are adapted to these three swatches: a limit of 0 is a `TypeError`, limits of 1024 and 2 give 3 and 2 swatches |

## Left out

- Float32 and float64 rounding: numbers are exact reals. The `Float32Array`
  cache's precision loss, which the fallback of `selectBest` exists for, is
  not modelled.
- `Math.random` is an oracle parameter. The model does not state the
  probability with which an index is chosen; it states which draw picks which
  index.
- Termination of the rejection loops is proved only for a fair source
  (`Initializer.Fair`). The source loops stop only with probability 1.
- `Initializer.RandomInitializer.Initialize`: the `if (!point) continue`
  guard is not modelled, since it cannot fire for an in-range index.
- `[...point]` copies: points are values (`seq<real>`), so a copy and the
  original cannot be told apart. Aliasing is not modelled.
- `kmeansPlusPlus()` and `random()` factories and the `euclidean()` default
  distance: the distance is a parameter.
- `Colors.Clone`, `Colors.CloneIsIdentity`, `Colors.ParseColorIsIdentity`:
  that cloning gives the same colour holds only if the CIELab clamps are
  idempotent. The clamps are not part of this model, so this is an
  assumption (`Colors.IdempotentClamps`).
- `Color` internals: `chroma`, `hue`, `toRGB`, `toHSL`, `toHexString` and the
  CIELab/XYZ/RGB conversions. They are floating-point numerics in code that
  is not part of this model. The `cie76` formula is a parameter.
- `Palettes.FindSwatches`: the deduplication by colour distance and the
  default limit of `findSwatches()` are not modelled. The implementation is
  not part of this model and the tests do not pin them down.
- `Palettes.GetDominantSwatch`: the error kind for an empty palette is not
  specified by the tests; the model returns none.
- `Palette.extract` and its tests: they load images from files and URLs.
- `RGBColorSpace` packing, the worker and message-passing plumbing, the UI,
  the extractor factories and the theme filter.
- DBSCAN, HDBSCAN and the K-means iteration, KD-tree queries, CIEDE2000:
  their code is not part of this model.
