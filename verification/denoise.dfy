/** The three pipelines of `denoise.c`, from the luminance raster onward: the
    accurate one (`denoise`), the integer one (`denoise_integer`, preceded by
    `grayscale_integer`) and the vector one (`denoise_simd`). Each writes its
    luminance into `result` and then blends back into that same buffer. */
module Denoise {
  import opened Raster
  import opened Convolution
  import opened ConvolutionSimd
  import opened Combine
  import opened Grayscale

  /** `denoise` after its grayscale step: rounded convolutions, rounded blend. */
  function AccuratePipeline(g: Image): (r: Image)
    requires g.Valid()
    ensures SameShape(r, g) && r.Valid()
  {
    ConvolutionFitsByte(g);
    Combine.Combine(g, Convolution.Convolution(g, LaplaceKernel, true), Convolution.Convolution(g, BlurKernel, false), true)
  }

  /** `denoise_integer` after its grayscale step: one-pass truncated convolution,
      truncated blend. */
  function IntegerPipeline(g: Image): (r: Image)
    requires g.Valid()
    ensures SameShape(r, g) && r.Valid()
  {
    OnePassFitsByte(g);
    Combine.Combine(g, Convolution1Pass(g).laplace, Convolution1Pass(g).blur, false)
  }

  lemma AccuratePipelineAt(g: Image, x: int, y: int)
    requires g.Valid() && g.InBounds(x, y)
    ensures 0 <= Idx(g.width, x, y) < |g.pixels|
    ensures IsByte(ConvolveAt(g, x, y, LaplaceKernel, true)) && IsByte(ConvolveAt(g, x, y, BlurKernel, false))
    ensures AccuratePipeline(g).pixels[Idx(g.width, x, y)] ==
      CombineAt(g.At(x, y), ConvolveAt(g, x, y, LaplaceKernel, true), ConvolveAt(g, x, y, BlurKernel, false), true)
  {
    ConvolutionFitsByte(g);
    ConvolutionAt(g, LaplaceKernel, true, x, y);
    ConvolutionAt(g, BlurKernel, false, x, y);
  }

  lemma IntegerPipelineAt(g: Image, x: int, y: int)
    requires g.Valid() && g.InBounds(x, y)
    ensures 0 <= Idx(g.width, x, y) < |g.pixels|
    ensures IsByte(LaplaceTrunc(g, x, y)) && IsByte(BlurTrunc(g, x, y))
    ensures IntegerPipeline(g).pixels[Idx(g.width, x, y)] ==
      CombineAt(g.At(x, y), LaplaceTrunc(g, x, y), BlurTrunc(g, x, y), false)
  {
    Convolution1PassAt(g, x, y);
  }

  /** `denoise_integer` on n = width·height interleaved RGB pixels. */
  function DenoiseInteger(rgb: seq<int>, w: nat, h: nat, ai: int, bi: int, ci: int): (r: Image)
    requires w > 0 && h > 0 && |rgb| == 3 * (w * h) && AllBytes(rgb)
    requires IsU32(ai) && IsU32(bi) && IsU32(ci)
    ensures r.width == w && r.height == h && r.Valid()
  {
    IntegerPipeline(Image(w, h, GrayscaleInteger(rgb, w * h, ai, bi, ci)))
  }

  /** `denoise_integer` as written: the luminance goes into `result`, the two
      responses into `tmp1` and `tmp2`, and the blend reads and overwrites `result`.
      The buffer ends up holding the out-of-place pipeline's raster. */
  method DenoiseIntegerInPlace(rgb: seq<int>, w: nat, h: nat, ai: int, bi: int, ci: int) returns (result: seq<int>)
    requires w > 0 && h > 0 && |rgb| == 3 * (w * h) && AllBytes(rgb)
    requires IsU32(ai) && IsU32(bi) && IsU32(ci)
    ensures result == DenoiseInteger(rgb, w, h, ai, bi, ci).pixels
  {
    result := GrayscaleInteger(rgb, w * h, ai, bi, ci);
    var g := Image(w, h, result);
    OnePassFitsByte(g);
    var responses := Convolution1Pass(g);
    result := CombineInPlace(g, responses.laplace, responses.blur, false);
  }

  /** `denoise` from the luminance on, with the blend writing back into `result`. */
  method DenoiseAccurateInPlace(g: Image) returns (result: seq<int>)
    requires g.Valid()
    ensures result == AccuratePipeline(g).pixels
  {
    ConvolutionFitsByte(g);
    var tmp1 := Convolution.Convolution(g, LaplaceKernel, true);
    var tmp2 := Convolution.Convolution(g, BlurKernel, false);
    result := CombineInPlace(g, tmp1, tmp2, true);
  }

  // ----- denoise_simd -----

  /** The sample `denoise_simd` produces at (x, y) of luminance g: the one-pass
      responses there, blended by a vector lane left of `width - width % 16` and by
      the truncated division elsewhere. */
  function SimdPipelineAt(g: Image, x: int, y: int): (v: int)
    requires g.Valid() && g.InBounds(x, y)
    ensures IsByte(v)
  {
    SimdBlend(g.At(x, y), LaplaceTrunc(g, x, y), BlurTrunc(g, x, y), x < Aligned(g.width))
  }

  function SimdPipeline(g: Image): (r: seq<int>)
    requires g.Valid()
    ensures |r| == |g.pixels| && AllBytes(r)
  {
    seq(|g.pixels|, q requires 0 <= q < |g.pixels| =>
      Coordinates(g.width, g.height, q);
      SimdPipelineAt(g, Col(g.width, q), Row(g.width, q)))
  }

  lemma SimdPipelineIdx(g: Image, x: int, y: int)
    requires g.Valid() && g.InBounds(x, y)
    ensures 0 <= Idx(g.width, x, y) < |g.pixels|
    ensures SimdPipeline(g)[Idx(g.width, x, y)] == SimdPipelineAt(g, x, y)
  {
    IndexInRange(g.width, g.height, x, y);
    RowMajor(g.width, x, y);
  }

  /** Both padded response buffers hold the one-pass responses at every pixel's
      padded offset. */
  predicate CarriesResponses(g: Image, PL: Padded, PB: Padded)
    requires g.Valid()
  {
    forall x, y :: 0 <= x < g.width && 0 <= y < g.height ==>
      0 <= PadIndex(PL.width, x, y) < |PL.cells| && PL.cells[PadIndex(PL.width, x, y)] == LaplaceTrunc(g, x, y) &&
      0 <= PadIndex(PB.width, x, y) < |PB.cells| && PB.cells[PadIndex(PB.width, x, y)] == BlurTrunc(g, x, y)
  }

  /** `pad_image_simd` into a buffer with a zero border yields the zero-bordered
      padding of g, every cell of which is a byte. */
  lemma PaddedFromZeroBorder(g: Image, buf: Padded, P: Padded)
    requires g.Valid() && Frames(buf, g) && BorderZero(buf)
    requires Frames(P, g) && SameFrame(P, buf) && HoldsImage(P, g)
    requires forall q :: 0 <= q < |P.cells| && IsBorder(P, q) ==> P.cells[q] == buf.cells[q]
    ensures IsPaddingOf(P, g) && AllBytes(P.cells)
  {
    forall q | 0 <= q < |P.cells|
      ensures IsByte(P.cells[q])
    {
      Coordinates(P.width, P.height, q);
      if !IsBorder(P, q) {
        var x, y := Col(P.width, q) - 1, Row(P.width, q) - 1;
        assert q == PadIndex(P.width, x, y);
        assert g.InBounds(x, y);
      }
    }
  }

  /** After `convolution_simd` over the padding of g, both response buffers carry
      the one-pass responses and are byte-valued where `combine_simd` reads them. */
  lemma SimdResponses(g: Image, P: Padded, lap0: seq<int>, lap: seq<int>, blur0: seq<int>, blur: seq<int>)
    requires g.Valid() && IsPaddingOf(P, g)
    requires ConvolvedUpTo(P.cells, P.width, lap0, lap, |P.cells| - P.width - 1, true)
    requires ConvolvedUpTo(P.cells, P.width, blur0, blur, |P.cells| - P.width - 1, false)
    ensures SimdInputs(g, Padded(P.width, P.height, lap), Padded(P.width, P.height, blur))
    ensures CarriesResponses(g, Padded(P.width, P.height, lap), Padded(P.width, P.height, blur))
  {
    forall x, y | 0 <= x < g.width && 0 <= y < g.height
      ensures 0 <= PadIndex(P.width, x, y) < |lap| && lap[PadIndex(P.width, x, y)] == LaplaceTrunc(g, x, y)
      ensures 0 <= PadIndex(P.width, x, y) < |blur| && blur[PadIndex(P.width, x, y)] == BlurTrunc(g, x, y)
    {
      SimdMatchesOnePassAt(P, g, x, y);
      MulLe(0, y, P.width);
      OnePassNoWrap(g, x, y);
    }
  }

  /** The `combine_simd` raster over buffers carrying the one-pass responses is the
      reference `SimdPipeline`. */
  lemma CombineSimdIsPipeline(g: Image, PL: Padded, PB: Padded)
    requires SimdInputs(g, PL, PB) && CarriesResponses(g, PL, PB)
    ensures CombineSimdSpec(g, PL, PB) == SimdPipeline(g)
  {
    var a, b := CombineSimdSpec(g, PL, PB), SimdPipeline(g);
    forall q | 0 <= q < |g.pixels|
      ensures a[q] == b[q]
    {
      Coordinates(g.width, g.height, q);
    }
  }

  /** `denoise_simd` from the luminance on. The caller supplies the three padded
      buffers of (w + 2)·(h + 2) cells, the image buffer with a zero border; the
      response buffers may hold anything. */
  method DenoiseSimd(g: Image, image0: Padded, lap0: Padded, blur0: Padded) returns (result: seq<int>)
    requires g.Valid() && Frames(image0, g) && BorderZero(image0)
    requires Frames(lap0, g) && Frames(blur0, g)
    ensures result == SimdPipeline(g)
  {
    var P := PadImageSimd(g, image0);
    PaddedFromZeroBorder(g, image0, P);
    var lap, blur := ConvolutionSimd.ConvolutionSimd(P, lap0.cells, blur0.cells);
    var PL, PB := Padded(P.width, P.height, lap), Padded(P.width, P.height, blur);
    SimdResponses(g, P, lap0.cells, lap, blur0.cells, blur);
    result := CombineSimd(g, PL, PB);
    CombineSimdIsPipeline(g, PL, PB);
  }

  /** For the same luminance the vector pipeline is never above the integer one and
      at most one below it, and equal to it in every column the vector lanes do
      not cover (so everywhere in an image less than 16 wide). */
  lemma SimdVersusInteger(g: Image, x: int, y: int)
    requires g.Valid() && g.InBounds(x, y)
    ensures 0 <= Idx(g.width, x, y) < |g.pixels|
    ensures SimdPipeline(g)[Idx(g.width, x, y)] <= IntegerPipeline(g).pixels[Idx(g.width, x, y)]
      <= SimdPipeline(g)[Idx(g.width, x, y)] + 1
    ensures x >= Aligned(g.width) ==>
      SimdPipeline(g)[Idx(g.width, x, y)] == IntegerPipeline(g).pixels[Idx(g.width, x, y)]
  {
    SimdPipelineIdx(g, x, y);
    IntegerPipelineAt(g, x, y);
  }

  /** On a constant luminance k, at every pixel whose neighbourhood is inside: the
      accurate and integer pipelines return k; the vector pipeline returns k in
      the remainder columns and 255·k / 256 in its vector lanes. */
  lemma ConstantLuminance(g: Image, k: int, x: int, y: int)
    requires g.Valid() && IsConstant(g, k) && NeighbourhoodInside(g, x, y)
    ensures 0 <= Idx(g.width, x, y) < |g.pixels|
    ensures AccuratePipeline(g).pixels[Idx(g.width, x, y)] == k
    ensures IntegerPipeline(g).pixels[Idx(g.width, x, y)] == k
    ensures SimdPipeline(g)[Idx(g.width, x, y)] == if x < Aligned(g.width) then 255 * k / 256 else k
  {
    IndexInRange(g.width, g.height, x, y);
    assert g.At(x, y) == k;
    ConstantImageResponses(g, k, x, y);
    AccuratePipelineAt(g, x, y);
    IntegerPipelineAt(g, x, y);
    SimdPipelineIdx(g, x, y);
    assert LaneBlend(k, 0, k) == BlendSum(k, 0, k) / 256;
  }

  /** So a constant luminance k >= 1 comes out one darker in the vector lanes. */
  lemma ConstantLaneDarkens(k: int)
    requires 1 <= k <= 255
    ensures 255 * k / 256 == k - 1
  {
    assert 256 * (k - 1) <= 255 * k < 256 * k;
  }
}
