/** `blur_2_1d`: the blur kernel factored into two 1-D {1, 2, 1} passes. The
    horizontal pass stores its 16-bit sums transposed (column-major, stride
    `height`) in a scratch buffer; the vertical pass reads them back, divides by
    16 and writes the result row-major. */
module SeparableBlur {
  import opened Raster
  import opened Convolution

  /** Horizontal {1, 2, 1} sum at (x, y); a neighbour outside the row is skipped.
      The `uint16_t` accumulator wraps at each `+=`, which is the same as one
      reduction of the total because all terms are non-negative. */
  function HorizontalAt(img: Image, x: int, y: int): (r: int)
    requires img.Valid()
    ensures r == img.Tap(x - 1, y) + 2 * img.Tap(x, y) + img.Tap(x + 1, y) <= 1020
  {
    U16((if x - 1 >= 0 then img.Tap(x - 1, y) else 0) + 2 * img.Tap(x, y) +
        (if x + 1 < img.width then img.Tap(x + 1, y) else 0))
  }

  /** The scratch buffer after the first pass: the sum for column x, row y sits
      at offset `x * height + y`. */
  function HorizontalPass(img: Image): (tmp: seq<int>)
    requires img.Valid()
    ensures |tmp| == |img.pixels|
  {
    seq(|img.pixels|, q requires 0 <= q < |img.pixels| =>
      HorizontalAt(img, Row(img.height, q), Col(img.height, q)))
  }

  /** Vertical {1, 2, 1} sum over the transposed scratch buffer for column x, row y. */
  function VerticalAt(tmp: seq<int>, w: int, h: int, x: int, y: int): (r: int)
    requires w > 0 && h > 0 && |tmp| == w * h && 0 <= x < w && 0 <= y < h
    ensures (forall q :: 0 <= q < |tmp| ==> 0 <= tmp[q] <= 1020) ==> r <= 4080
  {
    ColumnIndices(w, h, x, y);
    U16((if y - 1 >= 0 then tmp[Idx(h, y - 1, x)] else 0) + 2 * tmp[Idx(h, y, x)] +
        (if y + 1 < h then tmp[Idx(h, y + 1, x)] else 0))
  }

  /** Output of the second pass at (x, y): the vertical sum divided by 16, cast to `uint8_t`. */
  function TwoPassAt(img: Image, x: int, y: int): (r: int)
    requires img.Valid() && img.InBounds(x, y)
    ensures r == BlurTrunc(img, x, y)
  {
    VerticalIsStencil(img, x, y);
    U8(VerticalAt(HorizontalPass(img), img.width, img.height, x, y) / 16)
  }

  /** `blur_2_1d`. */
  function BlurTwoPass(img: Image): (r: Image)
    requires img.Valid()
    ensures SameShape(r, img) && |r.pixels| == |img.pixels|
  {
    Image(img.width, img.height,
      seq(|img.pixels|, i requires 0 <= i < |img.pixels| =>
        Coordinates(img.width, img.height, i);
        TwoPassAt(img, Col(img.width, i), Row(img.width, i))))
  }

  lemma ColumnIndices(w: int, h: int, x: int, y: int)
    requires 0 <= x < w && 0 <= y < h
    ensures 0 <= Idx(h, y, x) < w * h
    ensures y - 1 >= 0 ==> 0 <= Idx(h, y - 1, x) < w * h
    ensures y + 1 < h ==> 0 <= Idx(h, y + 1, x) < w * h
  {
    IndexInRange(h, w, y, x);
    if y - 1 >= 0 {
      IndexInRange(h, w, y - 1, x);
    }
    if y + 1 < h {
      IndexInRange(h, w, y + 1, x);
    }
  }

  /** The first pass stores the sum for column x, row y at offset `x * height + y`. */
  lemma HorizontalPassAt(img: Image, x: int, y: int)
    requires img.Valid() && img.InBounds(x, y)
    ensures 0 <= Idx(img.height, y, x) < |img.pixels|
    ensures HorizontalPass(img)[Idx(img.height, y, x)] == HorizontalAt(img, x, y)
  {
    RowMajor(img.height, y, x);
    IndexInRange(img.height, img.width, y, x);
  }

  /** Over the scratch buffer the first pass really fills, the second pass's
      `uint16_t` sum stays in [0, 4080] at every pixel, so it never wraps. */
  lemma VerticalSumFits(img: Image, x: int, y: int)
    requires img.Valid() && img.InBounds(x, y)
    ensures 0 <= VerticalAt(HorizontalPass(img), img.width, img.height, x, y) <= 4080
  {
    VerticalIsStencil(img, x, y);
    SourceKernelStencils(img, x, y);
  }

  /** The vertical sum over the scratch buffer is the blur stencil, with no wrap. */
  lemma VerticalIsStencil(img: Image, x: int, y: int)
    requires img.Valid() && img.InBounds(x, y)
    ensures VerticalAt(HorizontalPass(img), img.width, img.height, x, y) == BlurStencil(img, x, y)
  {
    ScratchRow(img, x, y - 1);
    ScratchRow(img, x, y);
    ScratchRow(img, x, y + 1);
  }

  /** The scratch entry the second pass reads for column x, row ny (0 when the row
      is skipped) is the zero-extended {1, 2, 1} row sum there. */
  lemma ScratchRow(img: Image, x: int, ny: int)
    requires img.Valid() && 0 <= x < img.width
    ensures 0 <= ny < img.height ==>
      0 <= Idx(img.height, ny, x) < |img.pixels| &&
      HorizontalPass(img)[Idx(img.height, ny, x)] == TapRowSum(img, x, ny)
    ensures !(0 <= ny < img.height) ==> TapRowSum(img, x, ny) == 0
  {
    if 0 <= ny < img.height {
      HorizontalPassAt(img, x, ny);
    }
  }

  /** `blur_2_1d` and the blur output of `convolution_1pass` are the same raster. */
  lemma BlurTwoPassIsOnePass(img: Image)
    requires img.Valid()
    ensures BlurTwoPass(img) == Convolution1Pass(img).blur
  {
    var w, h := img.width, img.height;
    var a, b := BlurTwoPass(img), Convolution1Pass(img).blur;
    forall i | 0 <= i < |img.pixels|
      ensures a.pixels[i] == b.pixels[i]
    {
      Coordinates(w, h, i);
      var x, y := Col(w, i), Row(w, i);
      Convolution1PassAt(img, x, y);
    }
    assert a.pixels == b.pixels;
  }
}
