/** The scalar 3×3 convolutions: `convolution` (one kernel, rounded) and
    `convolution_1pass` (both kernels in one sweep, truncated). Taps that fall
    outside the raster are skipped, and the divisors stay 16 and 4. */
module Convolution {
  import opened Raster

  /** The blur (Gaussian) kernel, row-major, centre at index 4; its entries sum to 16. */
  const BlurKernel: seq<int> := [1, 2, 1, 2, 4, 2, 1, 2, 1]

  /** The edge (Laplace) kernel, row-major, centre at index 4; its entries sum to 0. */
  const LaplaceKernel: seq<int> := [0, 1, 0, 1, -4, 1, 0, 1, 0]

  /** Step t of the tap loop visits column offset t / 3 - 1 (the outer loop)
      and row offset t % 3 - 1 (the inner loop), tabulated here. */
  function StepDx(t: int): int
    requires 0 <= t < 9
  {
    [-1, -1, -1, 0, 0, 0, 1, 1, 1][t]
  }

  function StepDy(t: int): int
    requires 0 <= t < 9
  {
    [-1, 0, 1, -1, 0, 1, -1, 0, 1][t]
  }

  /** The kernel entry applied to the tap at offset (dx, dy). */
  function Weight(k: seq<int>, dx: int, dy: int): int
    requires |k| == 9 && -1 <= dx <= 1 && -1 <= dy <= 1
  {
    k[(dx + 1) + (dy + 1) * 3]
  }

  function StepWeight(k: seq<int>, t: int): int
    requires |k| == 9 && 0 <= t < 9
  {
    Weight(k, StepDx(t), StepDy(t))
  }

  /** What step t of the tap loop adds at pixel (x, y): nothing when the tap
      falls outside the raster, which is what a zero sample there would add. */
  function StepTerm(img: Image, x: int, y: int, k: seq<int>, t: int): (r: int)
    requires img.Valid() && |k| == 9 && 0 <= t < 9
    ensures r == img.Tap(x + StepDx(t), y + StepDy(t)) * StepWeight(k, t)
  {
    var dx, dy := StepDx(t), StepDy(t);
    if img.InBounds(x + dx, y + dy) then img.At(x + dx, y + dy) * Weight(k, dx, dy) else 0
  }

  /** The accumulator after the first n steps of the tap loop at (x, y). */
  function SkipSum(img: Image, x: int, y: int, k: seq<int>, n: nat): (r: int)
    requires img.Valid() && |k| == 9 && n <= 9
    ensures (forall j :: 0 <= j < 9 ==> k[j] >= 0) ==> r >= 0
  {
    if n == 0 then 0 else SkipSum(img, x, y, k, n - 1) + StepTerm(img, x, y, k, n - 1)
  }

  /** Sum of the positive (resp. the magnitudes of the negative) kernel entries
      met in the first n steps. */
  function PosMass(k: seq<int>, n: nat): nat
    requires |k| == 9 && n <= 9
  {
    if n == 0 then 0
    else PosMass(k, n - 1) + (if StepWeight(k, n - 1) > 0 then StepWeight(k, n - 1) else 0)
  }

  function NegMass(k: seq<int>, n: nat): nat
    requires |k| == 9 && n <= 9
  {
    if n == 0 then 0
    else NegMass(k, n - 1) + (if StepWeight(k, n - 1) < 0 then -StepWeight(k, n - 1) else 0)
  }

  /** Whatever the kernel, every intermediate accumulator lies between -255 times
      the negative mass and 255 times the positive mass seen so far. */
  lemma {:induction false} SkipSumBounds(img: Image, x: int, y: int, k: seq<int>, n: nat)
    requires img.Valid() && |k| == 9 && n <= 9
    ensures -255 * NegMass(k, n) <= SkipSum(img, x, y, k, n) <= 255 * PosMass(k, n)
  {
    if n > 0 {
      SkipSumBounds(img, x, y, k, n - 1);
      StepTermBounds(img, x, y, k, n - 1);
    }
  }

  /** One step adds at most 255 times its weight if positive, and takes away at
      most 255 times its magnitude if negative. */
  lemma StepTermBounds(img: Image, x: int, y: int, k: seq<int>, t: int)
    requires img.Valid() && |k| == 9 && 0 <= t < 9
    ensures var w := StepWeight(k, t);
      (if w < 0 then 255 * w else 0) <= StepTerm(img, x, y, k, t) <= (if w > 0 then 255 * w else 0)
  {
    var dx, dy, w := StepDx(t), StepDy(t), StepWeight(k, t);
    if img.InBounds(x + dx, y + dy) {
      var p := img.At(x + dx, y + dy);
      assert StepTerm(img, x, y, k, t) == p * w;
      ProductBounds(p, w);
    }
  }

  lemma ProductBounds(p: int, w: int)
    requires 0 <= p <= 255
    ensures (if w < 0 then 255 * w else 0) <= p * w <= (if w > 0 then 255 * w else 0)
  {
    if w >= 0 {
      MulLe(0, p, w);
      MulLe(p, 255, w);
    } else {
      MulLe(0, p, -w);
      MulLe(p, 255, -w);
    }
  }

  /** The masses of the two source kernels, at every step of the tap loop. In
      particular the blur entries total 16 and the Laplace entries total 0. */
  lemma SourceKernelMasses(n: nat)
    requires n <= 9
    ensures PosMass(LaplaceKernel, n) <= 4 && NegMass(LaplaceKernel, n) <= 4
    ensures PosMass(BlurKernel, n) <= 16 && NegMass(BlurKernel, n) == 0
    ensures PosMass(BlurKernel, 9) - NegMass(BlurKernel, 9) == 16
    ensures PosMass(LaplaceKernel, 9) - NegMass(LaplaceKernel, 9) == 0
  {
    LaplaceMasses();
    BlurMasses();
    MassMonotone(LaplaceKernel, n);
    MassMonotone(BlurKernel, n);
  }

  lemma LaplaceMasses()
    ensures PosMass(LaplaceKernel, 9) == 4 && NegMass(LaplaceKernel, 9) == 4
  {
    assert PosMass(LaplaceKernel, 9) == 4 && NegMass(LaplaceKernel, 9) == 4;
  }

  lemma BlurMasses()
    ensures PosMass(BlurKernel, 9) == 16 && NegMass(BlurKernel, 9) == 0
  {
    assert PosMass(BlurKernel, 9) == 16 && NegMass(BlurKernel, 9) == 0;
  }

  lemma {:induction false} MassMonotone(k: seq<int>, n: nat)
    requires |k| == 9 && n <= 9
    ensures PosMass(k, n) <= PosMass(k, 9) && NegMass(k, n) <= NegMass(k, 9)
    decreases 9 - n
  {
    if n < 9 {
      MassMonotone(k, n + 1);
    }
  }

  /** The `int16_t` accumulators of `convolution` and `convolution_1pass` never
      leave [-1020, 1020] (edge) and [0, 4080] (blur) at any step, so they never wrap. */
  lemma AccumulatorFitsInt16(img: Image, x: int, y: int, n: nat)
    requires img.Valid() && n <= 9
    ensures -1020 <= SkipSum(img, x, y, LaplaceKernel, n) <= 1020
    ensures 0 <= SkipSum(img, x, y, BlurKernel, n) <= 4080
  {
    SourceKernelMasses(n);
    SkipSumBounds(img, x, y, LaplaceKernel, n);
    SkipSumBounds(img, x, y, BlurKernel, n);
  }

  /** The tap loop, written out step by step. */
  lemma SkipSumUnfolded(img: Image, x: int, y: int, k: seq<int>)
    requires img.Valid() && |k| == 9
    ensures SkipSum(img, x, y, k, 9) ==
      StepTerm(img, x, y, k, 0) + StepTerm(img, x, y, k, 1) + StepTerm(img, x, y, k, 2) +
      StepTerm(img, x, y, k, 3) + StepTerm(img, x, y, k, 4) + StepTerm(img, x, y, k, 5) +
      StepTerm(img, x, y, k, 6) + StepTerm(img, x, y, k, 7) + StepTerm(img, x, y, k, 8)
  {
    assert SkipSum(img, x, y, k, 1) == StepTerm(img, x, y, k, 0);
    assert SkipSum(img, x, y, k, 2) == SkipSum(img, x, y, k, 1) + StepTerm(img, x, y, k, 1);
    assert SkipSum(img, x, y, k, 3) == SkipSum(img, x, y, k, 2) + StepTerm(img, x, y, k, 2);
    assert SkipSum(img, x, y, k, 4) == SkipSum(img, x, y, k, 3) + StepTerm(img, x, y, k, 3);
    assert SkipSum(img, x, y, k, 5) == SkipSum(img, x, y, k, 4) + StepTerm(img, x, y, k, 4);
    assert SkipSum(img, x, y, k, 6) == SkipSum(img, x, y, k, 5) + StepTerm(img, x, y, k, 5);
    assert SkipSum(img, x, y, k, 7) == SkipSum(img, x, y, k, 6) + StepTerm(img, x, y, k, 6);
    assert SkipSum(img, x, y, k, 8) == SkipSum(img, x, y, k, 7) + StepTerm(img, x, y, k, 7);
  }

  /** Skipping an out-of-bounds tap is the same as adding a zero tap: the skipped
      sum is the full nine-tap weighted sum over the zero-extended image. */
  lemma SkipSumIsZeroPadded(img: Image, x: int, y: int, k: seq<int>)
    requires img.Valid() && |k| == 9
    ensures SkipSum(img, x, y, k, 9) ==
      k[0] * img.Tap(x - 1, y - 1) + k[1] * img.Tap(x, y - 1) + k[2] * img.Tap(x + 1, y - 1) +
      k[3] * img.Tap(x - 1, y) + k[4] * img.Tap(x, y) + k[5] * img.Tap(x + 1, y) +
      k[6] * img.Tap(x - 1, y + 1) + k[7] * img.Tap(x, y + 1) + k[8] * img.Tap(x + 1, y + 1)
  {
    SkipSumUnfolded(img, x, y, k);
    StepTermIsTap(img, x, y, k, 0);
    StepTermIsTap(img, x, y, k, 1);
    StepTermIsTap(img, x, y, k, 2);
    StepTermIsTap(img, x, y, k, 3);
    StepTermIsTap(img, x, y, k, 4);
    StepTermIsTap(img, x, y, k, 5);
    StepTermIsTap(img, x, y, k, 6);
    StepTermIsTap(img, x, y, k, 7);
    StepTermIsTap(img, x, y, k, 8);
  }

  lemma StepTermIsTap(img: Image, x: int, y: int, k: seq<int>, t: int)
    requires img.Valid() && |k| == 9 && 0 <= t < 9
    ensures StepTerm(img, x, y, k, t) == StepWeight(k, t) * img.Tap(x + StepDx(t), y + StepDy(t))
  {
  }

  /** The edge sum at (x, y): north + west - 4·centre + east + south, zero outside. */
  function LaplaceStencil(img: Image, x: int, y: int): int
    requires img.Valid()
  {
    img.Tap(x, y - 1) + img.Tap(x - 1, y) - 4 * img.Tap(x, y) + img.Tap(x + 1, y) + img.Tap(x, y + 1)
  }

  /** The blur sum at (x, y): corners once, edges twice, centre four times, zero outside. */
  function BlurStencil(img: Image, x: int, y: int): int
    requires img.Valid()
  {
    img.Tap(x - 1, y - 1) + 2 * img.Tap(x, y - 1) + img.Tap(x + 1, y - 1) +
    2 * img.Tap(x - 1, y) + 4 * img.Tap(x, y) + 2 * img.Tap(x + 1, y) +
    img.Tap(x - 1, y + 1) + 2 * img.Tap(x, y + 1) + img.Tap(x + 1, y + 1)
  }

  /** The {1, 2, 1} sum of three neighbouring taps of row y, zero outside. */
  function TapRowSum(img: Image, x: int, y: int): (r: int)
    requires img.Valid()
    ensures 0 <= r <= 1020
  {
    img.Tap(x - 1, y) + 2 * img.Tap(x, y) + img.Tap(x + 1, y)
  }

  lemma SourceKernelStencils(img: Image, x: int, y: int)
    requires img.Valid()
    ensures SkipSum(img, x, y, LaplaceKernel, 9) == LaplaceStencil(img, x, y)
    ensures SkipSum(img, x, y, BlurKernel, 9) == BlurStencil(img, x, y)
  {
    LaplaceSkipSum(img, x, y);
    BlurSkipSum(img, x, y);
  }

  lemma LaplaceSkipSum(img: Image, x: int, y: int)
    requires img.Valid()
    ensures SkipSum(img, x, y, LaplaceKernel, 9) == LaplaceStencil(img, x, y)
  {
    SkipSumIsZeroPadded(img, x, y, LaplaceKernel);
    KernelWeights(img.Tap(x - 1, y - 1), img.Tap(x, y - 1), img.Tap(x + 1, y - 1),
                  img.Tap(x - 1, y), img.Tap(x, y), img.Tap(x + 1, y),
                  img.Tap(x - 1, y + 1), img.Tap(x, y + 1), img.Tap(x + 1, y + 1));
  }

  lemma BlurSkipSum(img: Image, x: int, y: int)
    requires img.Valid()
    ensures SkipSum(img, x, y, BlurKernel, 9) == BlurStencil(img, x, y)
  {
    SkipSumIsZeroPadded(img, x, y, BlurKernel);
    KernelWeights(img.Tap(x - 1, y - 1), img.Tap(x, y - 1), img.Tap(x + 1, y - 1),
                  img.Tap(x - 1, y), img.Tap(x, y), img.Tap(x + 1, y),
                  img.Tap(x - 1, y + 1), img.Tap(x, y + 1), img.Tap(x + 1, y + 1));
  }

  /** Both source kernels applied to nine samples, entry by entry. */
  lemma KernelWeights(a0: int, a1: int, a2: int, a3: int, a4: int, a5: int, a6: int, a7: int, a8: int)
    ensures LaplaceKernel[0] * a0 + LaplaceKernel[1] * a1 + LaplaceKernel[2] * a2 +
      LaplaceKernel[3] * a3 + LaplaceKernel[4] * a4 + LaplaceKernel[5] * a5 +
      LaplaceKernel[6] * a6 + LaplaceKernel[7] * a7 + LaplaceKernel[8] * a8 ==
      a1 + a3 - 4 * a4 + a5 + a7
    ensures BlurKernel[0] * a0 + BlurKernel[1] * a1 + BlurKernel[2] * a2 +
      BlurKernel[3] * a3 + BlurKernel[4] * a4 + BlurKernel[5] * a5 +
      BlurKernel[6] * a6 + BlurKernel[7] * a7 + BlurKernel[8] * a8 ==
      a0 + 2 * a1 + a2 + 2 * a3 + 4 * a4 + 2 * a5 + a6 + 2 * a7 + a8
  {
  }

  /** Output of `convolution` at (x, y): the skipped-tap sum divided by the fixed
      divisor, 4 for the magnitude of the edge sum and 16 otherwise, rounded and
      cast to `uint8_t`. */
  function ConvolveAt(img: Image, x: int, y: int, k: seq<int>, laplace: bool): (r: int)
    requires img.Valid() && |k| == 9
    ensures IsByte(r)
    ensures k == LaplaceKernel && laplace ==> r == RoundDiv(Abs(LaplaceStencil(img, x, y)), 4)
    ensures k == BlurKernel && !laplace ==> r == RoundDiv(BlurStencil(img, x, y), 16)
  {
    SourceKernelStencils(img, x, y);
    AccumulatorFitsInt16(img, x, y, 9);
    var s := SkipSum(img, x, y, k, 9);
    U8(if laplace then RoundDiv(Abs(s), 4) else RoundDiv(s, 16))
  }

  /** `convolution`: one kernel over the whole raster, row-major like its input. */
  function Convolution(img: Image, k: seq<int>, laplace: bool): (r: Image)
    requires img.Valid() && |k| == 9
    ensures SameShape(r, img) && |r.pixels| == |img.pixels|
  {
    Image(img.width, img.height,
      seq(|img.pixels|, i requires 0 <= i < |img.pixels| =>
        ConvolveAt(img, Col(img.width, i), Row(img.width, i), k, laplace)))
  }

  /** The output of `convolution` for pixel (x, y) sits at that pixel's offset. */
  lemma ConvolutionAt(img: Image, k: seq<int>, laplace: bool, x: int, y: int)
    requires img.Valid() && |k| == 9 && img.InBounds(x, y)
    ensures 0 <= Idx(img.width, x, y) < |img.pixels|
    ensures Convolution(img, k, laplace).pixels[Idx(img.width, x, y)] == ConvolveAt(img, x, y, k, laplace)
  {
    RowMajor(img.width, x, y);
    IndexInRange(img.width, img.height, x, y);
  }

  /** Outputs of `convolution_1pass` at (x, y): truncating divisions (both sums
      are non-negative here, so C's `/` and Euclidean division agree), then the
      `(uint8_t)` cast. */
  function LaplaceTrunc(img: Image, x: int, y: int): (r: int)
    requires img.Valid()
    ensures r == Abs(LaplaceStencil(img, x, y)) / 4 <= 255
  {
    SourceKernelStencils(img, x, y);
    AccumulatorFitsInt16(img, x, y, 9);
    U8(Abs(SkipSum(img, x, y, LaplaceKernel, 9)) / 4)
  }

  function BlurTrunc(img: Image, x: int, y: int): (r: int)
    requires img.Valid()
    ensures r == BlurStencil(img, x, y) / 16 <= 255
  {
    SourceKernelStencils(img, x, y);
    AccumulatorFitsInt16(img, x, y, 9);
    U8(SkipSum(img, x, y, BlurKernel, 9) / 16)
  }

  /** The two rasters `convolution_1pass` (and `convolution_simd`) produce. */
  datatype Responses = Responses(laplace: Image, blur: Image)

  /** `convolution_1pass`: both kernels in one sweep, same tap set as `convolution`. */
  function Convolution1Pass(img: Image): (r: Responses)
    requires img.Valid()
    ensures SameShape(r.laplace, img) && |r.laplace.pixels| == |img.pixels|
    ensures SameShape(r.blur, img) && |r.blur.pixels| == |img.pixels|
  {
    var n := |img.pixels|;
    Responses(
      Image(img.width, img.height,
        seq(n, i requires 0 <= i < n => LaplaceTrunc(img, Col(img.width, i), Row(img.width, i)))),
      Image(img.width, img.height,
        seq(n, i requires 0 <= i < n => BlurTrunc(img, Col(img.width, i), Row(img.width, i)))))
  }

  /** The two outputs of `convolution_1pass` for pixel (x, y) sit at that pixel's offset. */
  lemma Convolution1PassAt(img: Image, x: int, y: int)
    requires img.Valid() && img.InBounds(x, y)
    ensures 0 <= Idx(img.width, x, y) < |img.pixels|
    ensures Convolution1Pass(img).laplace.pixels[Idx(img.width, x, y)] == LaplaceTrunc(img, x, y)
    ensures Convolution1Pass(img).blur.pixels[Idx(img.width, x, y)] == BlurTrunc(img, x, y)
  {
    RowMajor(img.width, x, y);
    IndexInRange(img.width, img.height, x, y);
  }

  /** For the kernel/flag pairs the pipeline uses, every rounded quotient is a
      byte, so the `(uint8_t)` conversion of the rounded double is exact. */
  lemma ConvolveAtNoWrap(img: Image, x: int, y: int)
    requires img.Valid()
    ensures 0 <= RoundDiv(Abs(SkipSum(img, x, y, LaplaceKernel, 9)), 4) <= 255
    ensures 0 <= RoundDiv(SkipSum(img, x, y, BlurKernel, 9), 16) <= 255
    ensures ConvolveAt(img, x, y, LaplaceKernel, true) == RoundDiv(Abs(SkipSum(img, x, y, LaplaceKernel, 9)), 4)
    ensures ConvolveAt(img, x, y, BlurKernel, false) == RoundDiv(SkipSum(img, x, y, BlurKernel, 9), 16)
  {
    AccumulatorFitsInt16(img, x, y, 9);
  }

  lemma ConvolutionFitsByte(img: Image)
    requires img.Valid()
    ensures Convolution(img, LaplaceKernel, true).Valid()
    ensures Convolution(img, BlurKernel, false).Valid()
  {
    var w := img.width;
    var lap, blur := Convolution(img, LaplaceKernel, true), Convolution(img, BlurKernel, false);
    forall i | 0 <= i < |img.pixels|
      ensures IsByte(lap.pixels[i]) && IsByte(blur.pixels[i])
    {
      Coordinates(w, img.height, i);
      ConvolveAtNoWrap(img, Col(w, i), Row(w, i));
    }
  }

  /** The `(uint8_t)` casts in `convolution_1pass` never wrap: the outputs are
      the plain truncated quotients, both at most 255. */
  lemma OnePassNoWrap(img: Image, x: int, y: int)
    requires img.Valid()
    ensures LaplaceTrunc(img, x, y) == Abs(SkipSum(img, x, y, LaplaceKernel, 9)) / 4 <= 255
    ensures BlurTrunc(img, x, y) == SkipSum(img, x, y, BlurKernel, 9) / 16 <= 255
  {
    AccumulatorFitsInt16(img, x, y, 9);
  }

  lemma OnePassFitsByte(img: Image)
    requires img.Valid()
    ensures Convolution1Pass(img).laplace.Valid() && Convolution1Pass(img).blur.Valid()
  {
    var w := img.width;
    var r := Convolution1Pass(img);
    forall i | 0 <= i < |img.pixels|
      ensures IsByte(r.laplace.pixels[i]) && IsByte(r.blur.pixels[i])
    {
      Coordinates(w, img.height, i);
      OnePassNoWrap(img, Col(w, i), Row(w, i));
    }
  }

  /** Truncating instead of rounding: each `convolution_1pass` output is at most
      the `convolution` output and at most one below it. */
  lemma OnePassWithinOneOfAccurate(img: Image, x: int, y: int)
    requires img.Valid()
    ensures LaplaceTrunc(img, x, y) <= ConvolveAt(img, x, y, LaplaceKernel, true) <= LaplaceTrunc(img, x, y) + 1
    ensures BlurTrunc(img, x, y) <= ConvolveAt(img, x, y, BlurKernel, false) <= BlurTrunc(img, x, y) + 1
  {
    OnePassNoWrap(img, x, y);
    ConvolveAtNoWrap(img, x, y);
    TruncWithinOneOfRound(Abs(SkipSum(img, x, y, LaplaceKernel, 9)), 4);
    TruncWithinOneOfRound(SkipSum(img, x, y, BlurKernel, 9), 16);
  }

  /** Every sample of the raster equals c. */
  predicate IsConstant(img: Image, c: int) {
    forall i :: 0 <= i < |img.pixels| ==> img.pixels[i] == c
  }

  /** (x, y) and its eight neighbours all lie inside the raster. */
  predicate NeighbourhoodInside(img: Image, x: int, y: int) {
    1 <= x < img.width - 1 && 1 <= y < img.height - 1
  }

  /** On a constant image c the blur response is c and the edge response 0 at
      every pixel whose neighbourhood is inside, in both scalar tiers. */
  lemma ConstantImageResponses(img: Image, c: int, x: int, y: int)
    requires img.Valid() && IsConstant(img, c) && NeighbourhoodInside(img, x, y)
    ensures ConvolveAt(img, x, y, BlurKernel, false) == c && BlurTrunc(img, x, y) == c
    ensures ConvolveAt(img, x, y, LaplaceKernel, true) == 0 && LaplaceTrunc(img, x, y) == 0
  {
    ConstantStencils(img, c, x, y);
    SourceKernelStencils(img, x, y);
  }

  /** Over a constant neighbourhood the blur sum is 16c and the edge sum is 0. */
  lemma ConstantStencils(img: Image, c: int, x: int, y: int)
    requires img.Valid() && IsConstant(img, c) && NeighbourhoodInside(img, x, y)
    ensures BlurStencil(img, x, y) == 16 * c && LaplaceStencil(img, x, y) == 0
  {
    NeighbourIsConstant(img, c, x, y, x - 1, y - 1);
    NeighbourIsConstant(img, c, x, y, x, y - 1);
    NeighbourIsConstant(img, c, x, y, x + 1, y - 1);
    NeighbourIsConstant(img, c, x, y, x - 1, y);
    NeighbourIsConstant(img, c, x, y, x, y);
    NeighbourIsConstant(img, c, x, y, x + 1, y);
    NeighbourIsConstant(img, c, x, y, x - 1, y + 1);
    NeighbourIsConstant(img, c, x, y, x, y + 1);
    NeighbourIsConstant(img, c, x, y, x + 1, y + 1);
  }

  lemma NeighbourIsConstant(img: Image, c: int, x: int, y: int, nx: int, ny: int)
    requires img.Valid() && IsConstant(img, c) && NeighbourhoodInside(img, x, y)
    requires x - 1 <= nx <= x + 1 && y - 1 <= ny <= y + 1
    ensures img.Tap(nx, ny) == c
  {
    IndexInRange(img.width, img.height, nx, ny);
  }
}
