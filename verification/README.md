# Integer pixel pipeline of the image denoiser, in Dafny

The denoiser turns an RGB image into a luminance raster. It runs that raster
through a 3×3 edge (Laplace) kernel and a 3×3 blur kernel, and blends the
results back:

    out = (l·o + (255 − l)·b) / 255

where `o` is the luminance, `l` the edge response and `b` the blur response.
It does this in three tiers:

- **accurate** (`denoise`): each convolution is computed separately and rounded; the blend is rounded.
- **integer** (`denoise_integer`): both convolutions are done in one sweep and truncated; the blend is truncated.
- **vector** (`denoise_simd`): the image is padded into a zero-bordered 16-bit buffer. Eight-lane convolution steps are followed by a scalar remainder. The blend shifts right by 8 in its vector lanes and divides by 255 in its scalar remainder.

This project models these stages, from the luminance raster to the output:

- `grayscale_integer`;
- `convolution`, `convolution_1pass`, `pad_image_simd`, `convolution_simd` and `blur_2_1d`;
- `combine` and `combine_simd`;
- the three pipelines of `denoise.c`.

## How it is modelled

- A raster is `Raster.Image`: width, height and a row-major `seq<int>` of samples. A padded 16-bit buffer is `ConvolutionSimd.Padded`.
- Integer types are unbounded. Every C conversion that matters is written out:
  - `U8` (mod 2^8) and `U16` (mod 2^16);
  - `uint32_t` wrap in grayscale;
  - `size_t` wrap of the vector loop bound;
  - signed saturation of `_mm_packus_epi16`.
- `round(n / (double)d)` becomes `Raster.RoundDiv`, characterised by its contract. The double quotient is exact for d = 4 and 16, and at least 1/510 away from a half for d = 255, so no float rounding is involved.
- A vector lane is the stencil it computes at one padded position; SSE registers are not modelled.
- The loops with interesting bounds are methods with loop invariants:
  - the padding copy;
  - the two-phase loop of `convolution_simd`;
  - the in-place blends.
- The in-place buffer reuse of `denoise.c` is modelled directly. `CombineInPlace` and `CombineSimd` read each sample from the same buffer they overwrite. They are proved equal to the out-of-place definitions.

Proved facts include:

- the accumulators never wrap and every cast is exact;
- truncation stays within one of rounding;
- skipping an out-of-bounds tap equals a zero tap, so the vector tier equals the one-pass tier at every pixel, border ring included;
- the separable blur equals the one-pass blur;
- the blend lies between the luminance and the blur, keeps the blur when l = 0 and the luminance when l = 255;
- the vector blend lane (`s >> 8`) is at most one below the remainder's `s / 255`;
- the vector pipeline equals the integer pipeline outside the vector columns and is at most one lower inside them.

Three exact values at the edges of the tiers, each with its lemma:

- The integer grayscale weights are truncated. With the default coefficients 0.2126, 0.7152 and 0.0722 (`main.c:72`) they become 217, 732 and 73. These sum to 1022, so a white pixel comes out as 254 (`Grayscale.WhitePixelDefaultWeights`).
- On a constant luminance k ≥ 1 the accurate and integer pipelines return k on interior pixels. The vector lanes of `combine_simd` return k − 1 (`Denoise.ConstantLuminance`, `Denoise.ConstantLaneDarkens`). This stays inside the ±2 tolerance that `denoise.h:36` states for `denoise_simd`.
- The vector convolution equals `convolution_1pass` at every pixel, the border ring included. Zero padding gives exactly the skipped-tap sums (`ConvolutionSimd.SimdMatchesOnePassAt`).

## Model

| member | source | states |
|---|---|---|
| Raster.RoundDiv | Implementierung/src/convolution.c:5-6 | `round(n/d)`: the result r is within half a step of n/d (−d ≤ 2n − 2dr ≤ d), and an exact half goes away from zero |
| Raster.TruncWithinOneOfRound | Implementierung/src/combine.c:5-6 | for a non-negative numerator, the truncated quotient is at most the rounded one and at most one below it |
| Convolution.SkipSumBounds | Implementierung/src/convolution.c:17-24 | for any kernel, every partial accumulator of the tap loop lies between −255·(negative mass seen) and 255·(positive mass seen) |
| Convolution.SkipSum | Implementierung/src/convolution.c:17-24 | the accumulator of the tap loop, with out-of-bounds taps skipped; with a kernel of non-negative entries it is never negative |
| Convolution.StepTerm | Implementierung/src/convolution.c:20-23 | step t of the tap loop, taken in the source's order (i outer, j inner), adds the zero-extended sample at offset (i, j) = (t / 3 − 1, t mod 3 − 1) times kernel entry (i+1)+(j+1)·3; a tap outside the image adds 0, as the `continue` does |
| Convolution.SourceKernelMasses | Implementierung/src/convolution.c:8-9 | the blur kernel's entries sum to 16 and are all non-negative; the Laplace kernel's sum to 0, with positive and negative masses of at most 4 at every step |
| Convolution.AccumulatorFitsInt16 | Implementierung/src/convolution.c:17-24 | at every step the `int16_t` accumulators stay in [−1020, 1020] (edge) and [0, 4080] (blur), so they never wrap |
| Convolution.SkipSumIsZeroPadded | Implementierung/src/convolution.c:18-24 | skipping out-of-bounds taps gives the full nine-tap weighted sum over the zero-extended image, entry (i+1)+(j+1)·3 pairing with offset (i, j) |
| Convolution.SourceKernelStencils | Implementierung/src/convolution.c:8-9 | with the two source kernels, the skipped sum is N+W−4C+E+S (edge) and the 1-2-1 weighted 3×3 sum (blur), both over the zero-extended image |
| Convolution.Convolution | Implementierung/src/convolution.c:12-29 | `convolution` returns a raster of the input's shape |
| Convolution.ConvolutionAt | Implementierung/src/convolution.c:14-26 | the sample at offset y·w + x is the skipped-tap sum at (x, y): its magnitude divided by 4 for the edge flag, the sum divided by 16 otherwise, rounded and cast to `uint8_t` |
| Convolution.ConvolveAt | Implementierung/src/convolution.c:17-26 | one `convolution` sample is a byte; with the Laplace kernel and flag it is round(\|N + W − 4C + E + S\| / 4), with the blur kernel round(1-2-1 weighted 3×3 sum / 16), neighbours outside the image counting as zero |
| Convolution.ConvolveAtNoWrap | Implementierung/src/convolution.c:5-6 | for the source kernel and flag pairs the rounded quotient is in [0, 255], so the `(uint8_t)` conversion is exact |
| Convolution.ConvolutionFitsByte | Implementierung/src/convolution.c:26 | both rasters of the accurate tier hold only bytes |
| Convolution.Convolution1Pass | Implementierung/src/convolution.c:32-51 | `convolution_1pass` returns an edge and a blur raster, both of the input's shape |
| Convolution.Convolution1PassAt | Implementierung/src/convolution.c:36-48 | the samples at y·w + x are the truncated edge response abs(s) / 4 and the truncated blur response s/16 of the same skipped-tap set |
| Convolution.OnePassNoWrap | Implementierung/src/convolution.c:47-48 | the `(uint8_t)` casts of the one-pass tier never wrap: the outputs are the plain truncated quotients, at most 255 |
| Convolution.LaplaceTrunc | Implementierung/src/convolution.c:48 | the one-pass edge output is \|N + W − 4C + E + S\| / 4 over the zero-extended image, at most 255, so the `(uint8_t)` cast is exact |
| Convolution.BlurTrunc | Implementierung/src/convolution.c:47 | the one-pass blur output is the 1-2-1 weighted 3×3 sum over the zero-extended image divided by 16, at most 255 |
| Convolution.OnePassFitsByte | Implementierung/src/convolution.c:47-48 | both one-pass rasters hold only bytes |
| Convolution.OnePassWithinOneOfAccurate | Implementierung/src/convolution.c:38-48 | each one-pass output is at most the `convolution` output and at most one below it, for both kernels |
| Convolution.ConstantImageResponses | Implementierung/src/convolution.c:8-9 | on a constant image c, at every pixel whose 3×3 neighbourhood is inside, the blur is c and the edge response 0, in both scalar tiers |
| Convolution.ConstantStencils | Implementierung/src/convolution.c:8-9 | over a constant neighbourhood c the blur stencil is 16·c and the edge stencil 0 |
| SeparableBlur.HorizontalPass | Implementierung/src/convolution.c:122-134 | the first pass fills a scratch buffer as long as the image |
| SeparableBlur.HorizontalPassAt | Implementierung/src/convolution.c:132 | the horizontal sum for column x, row y is stored transposed, at offset x·h + y |
| SeparableBlur.HorizontalAt | Implementierung/src/convolution.c:124-129 | the horizontal `uint16_t` sum equals the 1-2-1 sum of the zero-extended row, at most 1020, so it never wraps |
| SeparableBlur.VerticalAt | Implementierung/src/convolution.c:138-143 | over a scratch buffer whose entries are at most 1020 the vertical `uint16_t` sum is at most 4080 |
| SeparableBlur.TwoPassAt | Implementierung/src/convolution.c:138-144 | the second-pass output at (x, y) equals the `convolution_1pass` blur output there |
| SeparableBlur.VerticalSumFits | Implementierung/src/convolution.c:136-143 | over the scratch buffer the first pass actually fills, the vertical `uint16_t` sum stays in [0, 4080] at every pixel, so it never wraps |
| SeparableBlur.VerticalIsStencil | Implementierung/src/convolution.c:136-145 | the vertical 1-2-1 sum over the transposed scratch buffer, skipped rows included, is the zero-extended blur stencil |
| SeparableBlur.ScratchRow | Implementierung/src/convolution.c:122-140 | the scratch entry the second pass reads for row ny of column x is the zero-extended row sum there, and a skipped row is one whose row sum is zero |
| SeparableBlur.BlurTwoPass | Implementierung/src/convolution.c:118-147 | `blur_2_1d` returns a raster of the input's shape |
| SeparableBlur.BlurTwoPassIsOnePass | Implementierung/src/convolution.c:118-147 | `blur_2_1d` and the blur raster of `convolution_1pass` are equal |
| ConvolutionSimd.Store | Implementierung/src/convolution.c:108-109 | an unaligned store overwrites exactly the stored range and leaves every other cell unchanged |
| ConvolutionSimd.PadStep | Implementierung/src/convolution.c:104-113 | storing pixels x..x+len−1 of row y at padded offset (x+1)+(y+1)·pw extends the copied prefix by len pixels |
| ConvolutionSimd.PadImageSimd | Implementierung/src/convolution.c:100-115 | after `pad_image_simd` every pixel (x, y) sits at (x+1)+(y+1)·pw, and every border cell keeps the caller's value |
| ConvolutionSimd.PadRow | Implementierung/src/convolution.c:103-114 | one row of the copy: all `width` pixels of row y reach their padded offsets |
| ConvolutionSimd.PadRowVector | Implementierung/src/convolution.c:104-110 | the sixteen-pixel steps copy pixels 0..aligned−1 of the row |
| ConvolutionSimd.PadRowScalar | Implementierung/src/convolution.c:111-113 | the one-pixel steps copy pixels aligned..width−1 of the row |
| ConvolutionSimd.PadVectorStep | Implementierung/src/convolution.c:105-109 | one sixteen-pixel step, two eight-lane stores at x and x + 8, extends the copied prefix of the row by sixteen pixels |
| ConvolutionSimd.PadStore | Implementierung/src/convolution.c:108-112 | storing pixels x..x+len−1 of row y writes pixel x+k at padded cell (x+1)+(y+1)·pw + k and leaves every other cell unchanged |
| ConvolutionSimd.PadVectorStore | Implementierung/src/convolution.c:105-109 | the two eight-lane stores at x+1 and x+9 of padded row y+1 write the sixteen pixels x..x+15 in order and leave every other cell unchanged |
| ConvolutionSimd.PaddedSumsFit | Implementierung/src/convolution.c:62-83 | over byte cells the lane sums stay in [−1020, 1020] and [0, 4080], so no 16-bit lane wraps, and both outputs are bytes |
| ConvolutionSimd.LaneMatchesRemainder | Implementierung/src/convolution.c:62-94 | a vector lane at base i and the scalar remainder at i + pw + 1 compute the same edge and blur values |
| ConvolutionSimd.LaneSums | Implementierung/src/convolution.c:62-82 | the loads of a lane at base i form the 3×3 window centred on padded position i + pw + 1, so the lane sums are the edge and blur sums there |
| ConvolutionSimd.LaplaceLaneSum | Implementierung/src/convolution.c:62-68 | over byte cells the 16-bit edge lane sum N + W − 4C + E + S stays in [−1020, 1020], so it never wraps |
| ConvolutionSimd.BlurLaneSum | Implementierung/src/convolution.c:73-82 | over byte cells the 16-bit 1-2-1 weighted blur lane sum stays in [0, 4080], so it never wraps |
| ConvolutionSimd.LaplaceLane | Implementierung/src/convolution.c:62-70 | the edge lane at base i is the padded edge stencil \|N + W − 4C + E + S\| / 4 centred on i + pw + 1 |
| ConvolutionSimd.BlurLane | Implementierung/src/convolution.c:62-84 | the blur lane at base i is the padded 1-2-1 weighted 3×3 sum centred on i + pw + 1, divided by 16 |
| ConvolutionSimd.LaplaceLanes | Implementierung/src/convolution.c:62-70 | the eight edge lanes stored at i + pw + 1 hold, in lane l, the padded edge stencil centred on i + l + pw + 1 |
| ConvolutionSimd.BlurLanes | Implementierung/src/convolution.c:62-84 | the eight blur lanes stored at i + pw + 1 hold, in lane l, the padded blur stencil centred on i + l + pw + 1 |
| ConvolutionSimd.RemainderTerm | Implementierung/src/convolution.c:89-92 | step j of the remainder loop reads the cell at offset (j mod 3 − 1, j / 3 − 1) from p and weighs it with kernel entry j, the same entry the scalar tiers pair with that offset |
| ConvolutionSimd.RemainderSum | Implementierung/src/convolution.c:88-92 | with the Laplace kernel the nine-step accumulator is the padded edge sum N + W − 4C + E + S at p; with the blur kernel it is the padded 1-2-1 weighted 3×3 sum |
| ConvolutionSimd.RemainderLaplace | Implementierung/src/convolution.c:88-94 | on byte cells the remainder's edge output at p is the padded edge stencil there; the `(uint8_t)` cast is exact |
| ConvolutionSimd.RemainderBlur | Implementierung/src/convolution.c:88-93 | on byte cells the remainder's blur output at p is the padded blur stencil there; the cast is exact |
| ConvolutionSimd.RemainderFits | Implementierung/src/convolution.c:88-94 | on byte cells both remainder quotients are bytes and equal the padded stencils |
| ConvolutionSimd.VectorBound | Implementierung/src/convolution.c:60 | the corrected loop bound: for every base below it, the highest cell read, i + 2·pw + 9, is inside the buffer; it agrees with the written bound whenever that does not wrap |
| ConvolutionSimd.VectorStep | Implementierung/src/convolution.c:62-85 | one vector step stores eight lanes at i + pw + 1 and extends the computed range by eight |
| ConvolutionSimd.RemainderStep | Implementierung/src/convolution.c:87-95 | one remainder step stores the scalar value at p and extends the computed range by one |
| ConvolutionSimd.ConvolutionSimd | Implementierung/src/convolution.c:54-96 | on byte cells both outputs hold the stencil at every position from pw + 1 up to size − pw − 2 and are unchanged elsewhere |
| ConvolutionSimd.VectorLoop | Implementierung/src/convolution.c:57-85 | the vector loop leaves both outputs holding the stencil from pw + 1 up to where it stopped, unchanged elsewhere; on buffers of at least 2·pw + 9 cells it stops fewer than eight positions before size − pw − 1 |
| ConvolutionSimd.RemainderLoop | Implementierung/src/convolution.c:87-95 | from wherever the vector loop stopped, the scalar loop completes both outputs up to size − pw − 2 and touches nothing else |
| ConvolutionSimd.VectorBoundAsWritten | Implementierung/src/convolution.c:60 | the written bound `padded_size − padded_width·2 − 9` as a `size_t`: a value in [0, 2^64) |
| ConvolutionSimd.VectorBoundAsWrittenAgrees | Implementierung/src/convolution.c:60 | when padded_size ≥ 2·pw + 9 the written bound equals the corrected one |
| ConvolutionSimd.VectorBoundAsWrittenOverreads | Implementierung/src/convolution.c:60-76 | for every image with (w+2)·h < 9, zero width or height included, the written bound wraps to a positive value, so the first vector step runs and loads past the end of the buffer |
| ConvolutionSimd.VectorBoundAsWrittenOverwrites | Implementierung/src/convolution.c:60-84 | whenever the written bound wraps, the step at base ps − ps mod 8 is still below it, and its last lane, stored at i + pw + 8 into both response buffers, lies past their end |
| ConvolutionSimd.OneByOneOverreads | Implementierung/src/convolution.c:60 | for a 1×1 image the written bound is 2^64 − 6 while the corrected one is 0; the first step stores cells 4..11 of 9 and a second step at i = 8 follows |
| ConvolutionSimd.VectorBoundWrapsIff | Implementierung/src/convolution.c:56-60 | for any width and height, zero included, the subtraction stays non-negative exactly when (w+2)·h ≥ 9 |
| ConvolutionSimd.PaddedNeighbour | Implementierung/src/convolution.c:108-112 | in the zero-bordered padding, the cell for (nx, ny), one step outside the image allowed, holds the zero-extended sample |
| ConvolutionSimd.SimdMatchesOnePassAt | Implementierung/src/convolution.c:87-95 | at every pixel, border ring included, the edge and blur values over the padding equal the `convolution_1pass` outputs |
| Combine.BlendBounds | Implementierung/src/combine.c:13 | the numerator l·o + (255−l)·b lies between 255·min(o, b) and 255·max(o, b), hence in [0, 65025] |
| Combine.BlendSum | Implementierung/src/combine.c:13 | the blend numerator is 255·o at full edge response and 255·b at zero edge response |
| Combine.BlendQuotient | Implementierung/src/combine.c:5-14 | the rounded or truncated quotient by 255 lies between o and b |
| Combine.CombineAt | Implementierung/src/combine.c:13-14 | a `combine` sample is a byte between o and b (so the cast never wraps); l = 0 gives exactly b, l = 255 exactly o, in both tiers |
| Combine.CombineTiersWithinOne | Implementierung/src/combine.c:5-6 | the rounded sample is the truncated one or one more |
| Combine.Combine | Implementierung/src/combine.c:9-16 | `combine` returns a byte raster of the input's shape |
| Combine.CombineImageTiers | Implementierung/src/combine.c:9-16 | at every index the accurate and integer outputs differ by at most one, the accurate one never below |
| Combine.CombineInPlace | Implementierung/src/combine.c:12-15 | with `result` aliasing `original`, the buffer ends equal to the out-of-place `combine` result |
| Combine.Signed16 | Implementierung/src/combine.c:42 | a 16-bit lane read as `int16_t`: a signed value with the same 16 bits |
| Combine.PackUs | Implementierung/src/combine.c:42 | `packus` saturation: bytes pass unchanged, 256..32767 become 255, negative lanes 0 |
| Combine.LaneBlend | Implementierung/src/combine.c:28-42 | on byte responses the lane (`mullo`, `add`, `srli` by 8, `packus`) equals the blend numerator divided by 256, at most 254 |
| Combine.LaneTermsFit | Implementierung/src/combine.c:31-32 | on byte responses both 16-bit products and their sum stay in [0, 65025], so no lane operation wraps |
| Combine.LaneWithinOneOfRemainder | Implementierung/src/combine.c:31-46 | the vector lane s >> 8 is at most the remainder's s / 255 and at most one below it |
| Combine.SimdBlend | Implementierung/src/combine.c:25-47 | a `combine_simd` sample is a byte, equal to the integer `combine` value or one less, and equal to it outside the vector lanes |
| Combine.Aligned | Implementierung/src/combine.c:21 | the vector columns end at a multiple of 16, fewer than 16 short of the width |
| Combine.SimdPixel | Implementierung/src/combine.c:29-45 | the output at (x, y) reads both responses at padded offset (x+1)+(y+1)·pw and is a byte |
| Combine.CombineSimdSpec | Implementierung/src/combine.c:24-48 | the `combine_simd` raster has one byte per image pixel; which cells it reads is stated by `Combine.CombineSimdLocal` |
| Combine.CombineSimdLocal | Implementierung/src/combine.c:29-45 | `combine_simd` reads the response buffers only at the padded offsets of image pixels: buffers that agree there give the same raster, whatever their border cells hold |
| Combine.CombineStep | Implementierung/src/combine.c:26-46 | writing a chunk of row y, whose samples are read from the buffer being overwritten, extends the blended prefix by the chunk's length |
| Combine.CombineChunk | Implementierung/src/combine.c:25-46 | one step of either loop, blending samples x..x+len−1 of row y in place, extends the blended prefix by len |
| Combine.ChunkLane | Implementierung/src/combine.c:26-46 | one lane, reading the luminance from the in-place buffer at its own sample, stores a byte equal to the integer tier's blend of that sample or one less, and exactly that blend past the last group of sixteen |
| Combine.SimdChunk | Implementierung/src/combine.c:26-46 | the len samples of one step are bytes, each within one below the integer blend of the buffer sample at its own column and equal to it in the remainder columns |
| Combine.CombineStore | Implementierung/src/combine.c:42-46 | a step writes its chunk over samples Idx(x, y) .. Idx(x, y) + len − 1 of the buffer, in order, and leaves every other sample unchanged |
| Combine.CombineSimd | Implementierung/src/combine.c:18-49 | with `result` aliasing `original`, every sample ends with its own pixel's blended value: all w·h cells are written and none is read after being overwritten |
| Combine.CombineSimdRow | Implementierung/src/combine.c:25-47 | one row: sixteen-sample vector chunks below `aligned`, then single samples, blend the whole row |
| Combine.CombineRowVector | Implementierung/src/combine.c:25-43 | the sixteen-sample chunks blend samples 0..aligned−1 of the row in place |
| Combine.CombineRowScalar | Implementierung/src/combine.c:44-47 | the single-sample steps blend samples aligned..width−1 of the row in place |
| Combine.ChunkIsSpec | Implementierung/src/combine.c:26-42 | every lane of a chunk read from the partly overwritten buffer equals its pixel's blended value: a lane only reads its own, not yet overwritten, sample |
| Combine.LaneReadsOwnSample | Implementierung/src/combine.c:26-46 | a lane that reads a sample not yet overwritten stores exactly that pixel's `combine_simd` output |
| Grayscale.GrayAt | Implementierung/src/grayscale.c:23 | one luminance sample is a byte |
| Grayscale.WeightedSum | Implementierung/src/grayscale.c:23 | for a gray pixel r = g = b the weighted sum is r times the sum of the weights |
| Grayscale.GrayAtExact | Implementierung/src/grayscale.c:19-23 | with weights summing to at most 1024, neither the `uint32_t` sum nor the cast wraps: the sample is (r·a + g·b + bl·c) / 1024 |
| Grayscale.GrayPixel | Implementierung/src/grayscale.c:23 | a gray pixel k yields at most k, and exactly k when the weights sum to 1024 |
| Grayscale.GrayMonotone | Implementierung/src/grayscale.c:23 | raising any channel never lowers the output |
| Grayscale.WhitePixelDefaultWeights | Implementierung/src/grayscale.c:19-23 | the truncated default weights 217, 732 and 73 turn a white pixel into 254 |
| Grayscale.GrayscaleInteger | Implementierung/src/grayscale.c:16-25 | exactly n byte outputs, one per input triplet |
| Grayscale.GrayscaleLocal | Implementierung/src/grayscale.c:22-23 | output i depends only on input bytes 3i, 3i+1 and 3i+2 |
| Grayscale.GrayscaleIntegerAt | Implementierung/src/grayscale.c:22-23 | output i is the truncated weighted quotient of its own triplet and never exceeds that triplet's brightest channel |
| Denoise.AccuratePipeline | Implementierung/src/denoise.c:11-13 | `denoise` after grayscale yields a byte raster of the luminance's shape |
| Denoise.IntegerPipeline | Implementierung/src/denoise.c:21-22 | `denoise_integer` after grayscale yields a byte raster of the luminance's shape |
| Denoise.AccuratePipelineAt | Implementierung/src/denoise.c:11-13 | each sample is the rounded blend of the luminance with the two rounded `convolution` responses at that pixel |
| Denoise.IntegerPipelineAt | Implementierung/src/denoise.c:21-22 | each sample is the truncated blend of the luminance with the two truncated one-pass responses at that pixel |
| Denoise.DenoiseInteger | Implementierung/src/denoise.c:16-23 | `denoise_integer` on w·h RGB pixels yields a w×h byte raster |
| Denoise.DenoiseIntegerInPlace | Implementierung/src/denoise.c:20-22 | reusing `result` for the luminance and the blend gives the out-of-place pipeline's raster |
| Denoise.DenoiseAccurateInPlace | Implementierung/src/denoise.c:11-13 | reusing `result` for the luminance and the rounded blend gives the out-of-place pipeline's raster |
| Denoise.SimdPipelineAt | Implementierung/src/denoise.c:34-36 | the vector pipeline's value at a pixel is a byte |
| Denoise.SimdPipeline | Implementierung/src/denoise.c:34-36 | the vector pipeline yields one byte per pixel |
| Denoise.PaddedFromZeroBorder | Implementierung/src/denoise.c:31-34 | padding into a (w+2)×(h+2) buffer with a zero border yields the zero-bordered padding of the luminance, every cell a byte |
| Denoise.SimdResponses | Implementierung/src/denoise.c:35 | after `convolution_simd`, both padded buffers hold the one-pass responses at every pixel's padded offset |
| Denoise.CombineSimdIsPipeline | Implementierung/src/denoise.c:36 | `combine_simd` over those buffers yields the vector pipeline's raster |
| Denoise.DenoiseSimd | Implementierung/src/denoise.c:25-37 | `denoise_simd` from the luminance on equals the one-pass responses blended lane-wise, for any contents of the response buffers, given a zero border in the image buffer |
| Denoise.SimdVersusInteger | Implementierung/src/denoise.c:20-36 | for one luminance the vector pipeline is never above the integer one, at most one below it, and equal to it outside the vector columns |
| Denoise.ConstantLuminance | Implementierung/src/denoise.c:11-36 | on a constant luminance k, at pixels whose neighbourhood is inside: accurate and integer give k; the vector pipeline gives k in remainder columns and 255·k / 256 in vector lanes |
| Denoise.ConstantLaneDarkens | Implementierung/src/combine.c:31-33 | for 1 ≤ k ≤ 255, 255·k / 256 = k − 1 |

## Left out

- `main.c`: option parsing, file handling, allocation and timing. Its calls are replaced by the preconditions of the modelled functions. Example: the `calloc` that zeroes the padded image becomes `BorderZero` on `DenoiseSimd`'s input.
- `image.c` and `image.h`: reading and writing PPM/PGM files is stdio-driven I/O.
- `tests/performance_tests.c` and `randomPPMGenerator.py`: benchmark and input generator, no pipeline logic.
- `grayscale` and `grayscale_simd`: single-precision floating point.
  - The luminance of `denoise` and `denoise_simd` is therefore an input raster.
  - The `size - 5` loop bound of `grayscale_simd` is not modelled.
- The derivation of the integer weights from float coefficients (`grayscale.c:19-21`) is float arithmetic. The weights are inputs, and `Normalised` (sum at most 1024) is what their truncation guarantees.
- The pipeline-wide "±1" and "±2" accuracy claims of `denoise.h`: they compare against the float grayscale stage. Only the stage-level bounds and the vector-vs-integer bound for one luminance are proved.
- SSE registers and instructions: each lane is modelled as the value it computes at one position.
- ConvolutionSimd.ConvolutionSimd: requires byte-valued cells, which is what `pad_image_simd` produces. Lane wrap-around for arbitrary 16-bit inputs is not modelled.
- ConvolutionSimd.VectorLoop and ConvolutionSimd.RemainderLoop: require byte-valued cells for the same reason.
- Combine.CombineSimd: requires byte-valued responses at the pixels read. For arbitrary 16-bit cells the remainder's `int` arithmetic can overflow.
- Combine.SimdPixel: states only that its value is a byte. Its relation to `combine` is stated by `Combine.SimdBlend`.
- Convolution.Convolution: for an arbitrary kernel the `int16_t` accumulator is modelled unbounded. No wrap is proved only for the two source kernels.
- Raster.Image: rasters with zero width or height are not modelled as images. The scalar loops do nothing on them, but the `size_t` bound of the vector convolution wraps for them. `ConvolutionSimd.VectorBoundAsWrittenOverreads` and `ConvolutionSimd.VectorBoundAsWrittenOverwrites` cover that case (see Findings).
- `size_t` overflow of `width * height` and of the index products is not modelled. The one wrap that happens at realistic sizes, at `convolution.c:60`, is.
- The left and right border cells of the padded response buffers hold wrapped-row values after `convolution_simd`. The model keeps them as computed; only interior cells are ever read.

## Findings

| source | as written | input that shows it | evidently intended | confidence | as-written member | corrected member |
|---|---|---|---|---|---|---|
| Implementierung/src/convolution.c:60 | the vector loop bound `padded_size - padded_width * 2 - 9` is computed in `size_t` and wraps when padded_size < 2·pw + 9, i.e. when (w+2)·h < 9: 1..6 × 1, 1..2 × 2, every image of height 0 and width-0 images of height at most 4 | a 1×1 image: pw = ph = 3, so the bound is 2^64 − 6. The first step loads cells up to 2·3 + 9 = 15 of a 9-cell buffer and stores eight lanes into cells 4..11 of the 9-cell `padded_laplace` and `padded_blur`, an out-of-bounds write. The loop then goes on with i = 8, 16, … | no vector step when the buffer is too small; the scalar remainder computes every position | not executed | ConvolutionSimd.VectorBoundAsWrittenOverreads, ConvolutionSimd.VectorBoundAsWrittenOverwrites | ConvolutionSimd.VectorBound |
