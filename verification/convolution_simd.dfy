/** The vector tier of the convolution stage: `pad_image_simd` copies the image
    into the interior of a (width+2)×(height+2) 16-bit buffer whose border the
    caller has zeroed, and `convolution_simd` computes both kernels over that
    buffer, eight positions per vector step plus a scalar remainder. A vector
    lane is modelled as the stencil it computes at one padded position. */
module ConvolutionSimd {
  import opened Raster
  import opened Convolution

  /** A widened buffer: `width` and `height` are the padded dimensions, cells are
      row-major with stride `width`. */
  datatype Padded = Padded(width: nat, height: nat, cells: seq<int>) {
    predicate Valid() {
      width >= 3 && height >= 3 && |cells| == width * height
    }
  }

  /** Offset of image pixel (x, y) in a padded buffer of stride pw. */
  function PadIndex(pw: int, x: int, y: int): int {
    Idx(pw, x + 1, y + 1)
  }

  /** P is shaped to hold img inside a one-cell border. */
  predicate Frames(P: Padded, img: Image) {
    P.Valid() && P.width == img.width + 2 && P.height == img.height + 2
  }

  /** Two padded buffers of the same shape. */
  predicate SameFrame(a: Padded, b: Padded) {
    a.width == b.width && a.height == b.height && |a.cells| == |b.cells|
  }

  /** Cell q lies in the outermost ring of the padded buffer. */
  predicate IsBorder(P: Padded, q: int)
    requires P.width > 0
  {
    Col(P.width, q) == 0 || Col(P.width, q) == P.width - 1 ||
    Row(P.width, q) == 0 || Row(P.width, q) == P.height - 1
  }

  predicate BorderZero(P: Padded)
    requires P.width > 0
  {
    forall q :: 0 <= q < |P.cells| && IsBorder(P, q) ==> P.cells[q] == 0
  }

  /** Every pixel of img sits at its interior offset in P. */
  predicate HoldsImage(P: Padded, img: Image)
    requires img.Valid()
  {
    forall x, y :: 0 <= x < img.width && 0 <= y < img.height ==>
      0 <= PadIndex(P.width, x, y) < |P.cells| && P.cells[PadIndex(P.width, x, y)] == img.At(x, y)
  }

  /** P is the zero-bordered widened copy of img. */
  predicate IsPaddingOf(P: Padded, img: Image)
    requires img.Valid()
  {
    Frames(P, img) && HoldsImage(P, img) && BorderZero(P)
  }

  /** An unaligned vector store: `vals` written over s from offset `at`. */
  function Store(s: seq<int>, at: int, vals: seq<int>): (r: seq<int>)
    requires 0 <= at && at + |vals| <= |s|
    ensures |r| == |s|
    ensures forall q :: 0 <= q < |s| ==> r[q] == if at <= q < at + |vals| then vals[q - at] else s[q]
  {
    s[..at] + vals + s[at + |vals|..]
  }

  // ----- pad_image_simd -----

  /** Cell q of the buffer once the first `done` pixels (row-major) have been copied. */
  function PadProgress(img: Image, buf: Padded, done: int, q: int): int
    requires img.Valid() && Frames(buf, img) && 0 <= q < |buf.cells|
  {
    var x, y := Col(buf.width, q) - 1, Row(buf.width, q) - 1;
    if img.InBounds(x, y) && Idx(img.width, x, y) < done then img.At(x, y) else buf.cells[q]
  }

  predicate PaddedUpTo(img: Image, buf: Padded, cells: seq<int>, done: int)
    requires img.Valid() && Frames(buf, img)
  {
    |cells| == |buf.cells| &&
    forall q :: 0 <= q < |cells| ==> cells[q] == PadProgress(img, buf, done, q)
  }

  /** An offset in [Idx(w, x, y), Idx(w, x, y) + len) with x + len <= w lies in row y. */
  lemma WithinRow(w: int, c: int, r: int, x: int, y: int, len: int)
    requires 0 <= c < w && 0 <= x && 0 <= len && x + len <= w
    requires Idx(w, x, y) <= Idx(w, c, r) < Idx(w, x, y) + len
    ensures r == y && x <= c < x + len
  {
    if r > y {
      MulLe(y + 1, r, w);
    } else if r < y {
      MulLe(r + 1, y, w);
    }
  }

  /** The store of one copy step: pixels x .. x+len-1 of row y written at the
      padded offset of (x, y), every other cell kept. */
  function PadStore(img: Image, buf: Padded, cells: seq<int>, x: int, y: int, len: int): (r: seq<int>)
    requires img.Valid() && Frames(buf, img) && |cells| == |buf.cells|
    requires 0 <= x && 0 <= len && x + len <= img.width && 0 <= y < img.height
    ensures |r| == |cells|
    ensures 0 <= PadIndex(buf.width, x, y) && PadIndex(buf.width, x, y) + len <= |r| &&
      forall q :: PadIndex(buf.width, x, y) <= q < PadIndex(buf.width, x, y) + len ==>
        r[q] == img.At(x + (q - PadIndex(buf.width, x, y)), y)
    ensures forall q :: 0 <= q < |r| && !(PadIndex(buf.width, x, y) <= q < PadIndex(buf.width, x, y) + len) ==>
      r[q] == cells[q]
  {
    PadStoreInRange(img, buf, x, y, len);
    Store(cells, PadIndex(buf.width, x, y), img.pixels[Idx(img.width, x, y)..Idx(img.width, x, y) + len])
  }

  /** One step of the vector part: two eight-pixel stores, at x and at x + 8, which
      together place sixteen consecutive pixels. */
  function PadVectorStore(img: Image, buf: Padded, cells: seq<int>, x: int, y: int): (r: seq<int>)
    requires img.Valid() && Frames(buf, img) && |cells| == |buf.cells|
    requires 0 <= x && x + 16 <= img.width && 0 <= y < img.height
    ensures |r| == |cells|
    ensures 0 <= PadIndex(buf.width, x, y) && PadIndex(buf.width, x, y) + 16 <= |r| &&
      forall q :: PadIndex(buf.width, x, y) <= q < PadIndex(buf.width, x, y) + 16 ==>
        r[q] == img.At(x + (q - PadIndex(buf.width, x, y)), y)
    ensures forall q :: 0 <= q < |r| && !(PadIndex(buf.width, x, y) <= q < PadIndex(buf.width, x, y) + 16) ==>
      r[q] == cells[q]
  {
    assert PadIndex(buf.width, x + 8, y) == PadIndex(buf.width, x, y) + 8;
    PadStore(img, buf, PadStore(img, buf, cells, x, y, 8), x + 8, y, 8)
  }

  /** A vector step advances the copy by sixteen pixels. */
  lemma PadVectorStep(img: Image, buf: Padded, cells: seq<int>, x: int, y: int)
    requires img.Valid() && Frames(buf, img)
    requires 0 <= x && x + 16 <= img.width && 0 <= y < img.height
    requires PaddedUpTo(img, buf, cells, Idx(img.width, x, y))
    ensures PaddedUpTo(img, buf, PadVectorStore(img, buf, cells, x, y), Idx(img.width, x + 16, y))
  {
    PadStep(img, buf, cells, x, y, 8);
    PadStep(img, buf, PadStore(img, buf, cells, x, y, 8), x + 8, y, 8);
  }

  /** The pixels of a copy step and the cells they go to both exist. */
  lemma PadStoreInRange(img: Image, buf: Padded, x: int, y: int, len: int)
    requires img.Valid() && Frames(buf, img)
    requires 0 <= x && 0 <= len && x + len <= img.width && 0 <= y < img.height
    ensures 0 <= Idx(img.width, x, y) && Idx(img.width, x, y) + len <= |img.pixels|
    ensures 0 <= PadIndex(buf.width, x, y) && PadIndex(buf.width, x, y) + len <= |buf.cells|
  {
    MulLe(0, y, img.width);
    MulLe(y + 1, img.height, img.width);
    MulLe(0, y + 1, buf.width);
    MulLe(y + 2, buf.height, buf.width);
  }

  /** Storing pixels x .. x+len-1 of row y at their padded offsets advances the copy by len. */
  lemma PadStep(img: Image, buf: Padded, cells: seq<int>, x: int, y: int, len: int)
    requires img.Valid() && Frames(buf, img)
    requires 0 <= x && 0 <= len && x + len <= img.width && 0 <= y < img.height
    requires PaddedUpTo(img, buf, cells, Idx(img.width, x, y))
    ensures PaddedUpTo(img, buf, PadStore(img, buf, cells, x, y, len), Idx(img.width, x + len, y))
  {
    var w, pw := img.width, buf.width;
    var done := Idx(w, x, y);
    var at := PadIndex(pw, x, y);
    PadStoreInRange(img, buf, x, y, len);
    var vals := img.pixels[done..done + len];
    var next := PadStore(img, buf, cells, x, y, len);
    assert next == Store(cells, at, vals);
    assert Idx(w, x + len, y) == done + len;
    forall q | 0 <= q < |next|
      ensures next[q] == PadProgress(img, buf, done + len, q)
    {
      PadStepCell(img, buf, x, y, len, q);
    }
  }

  /** Cell q is one of the len cells stored at PadIndex(x, y) exactly when it is
      the padded cell of one of the pixels x .. x+len-1 of row y. */
  lemma PadStepCell(img: Image, buf: Padded, x: int, y: int, len: int, q: int)
    requires img.Valid() && Frames(buf, img)
    requires 0 <= x && 0 <= len && x + len <= img.width && 0 <= y < img.height
    requires 0 <= q < |buf.cells|
    ensures var at := PadIndex(buf.width, x, y);
      at <= q < at + len ==>
        PadProgress(img, buf, Idx(img.width, x, y) + len, q) == img.At(x + (q - at), y)
    ensures var at := PadIndex(buf.width, x, y);
      !(at <= q < at + len) ==>
        PadProgress(img, buf, Idx(img.width, x, y) + len, q) == PadProgress(img, buf, Idx(img.width, x, y), q)
  {
    var w, pw := img.width, buf.width;
    var done, at := Idx(w, x, y), PadIndex(pw, x, y);
    Coordinates(pw, buf.height, q);
    var c, r := Col(pw, q) - 1, Row(pw, q) - 1;
    if at <= q < at + len {
      assert q == Idx(pw, x + 1 + (q - at), y + 1);
      RowMajor(pw, x + 1 + (q - at), y + 1);
      assert c == x + (q - at) && r == y;
    } else if img.InBounds(c, r) && done <= Idx(w, c, r) < done + len {
      WithinRow(w, c, r, x, y, len);
      assert false;
    }
  }

  /** `pad_image_simd`: the image is copied row by row into the interior of buf. */
  method PadImageSimd(img: Image, buf: Padded) returns (out: Padded)
    requires img.Valid() && Frames(buf, img)
    ensures Frames(out, img) && SameFrame(out, buf)
    ensures HoldsImage(out, img)
    ensures forall q :: 0 <= q < |out.cells| && IsBorder(out, q) ==> out.cells[q] == buf.cells[q]
  {
    var cells := buf.cells;
    PadStart(img, buf);
    var y := 0;
    while y < img.height
      invariant 0 <= y <= img.height
      invariant PaddedUpTo(img, buf, cells, Idx(img.width, 0, y))
    {
      cells := PadRow(img, buf, cells, y);
      y := y + 1;
    }
    out := Padded(buf.width, buf.height, cells);
    PadFinished(img, buf, cells);
  }

  /** One row of `pad_image_simd`: 16 pixels at a time (two 8-lane stores) up to
      `width - width % 16`, then one pixel at a time. */
  method PadRow(img: Image, buf: Padded, cells: seq<int>, y: int) returns (next: seq<int>)
    requires img.Valid() && Frames(buf, img) && 0 <= y < img.height
    requires PaddedUpTo(img, buf, cells, Idx(img.width, 0, y))
    ensures PaddedUpTo(img, buf, next, Idx(img.width, 0, y + 1))
  {
    var w := img.width;
    var aligned := w - w % 16;
    next := PadRowVector(img, buf, cells, y, aligned);
    next := PadRowScalar(img, buf, next, y, aligned);
    NextRow(w, y);
  }

  /** The vector part of a row: pixels 0 .. aligned-1, sixteen per step. */
  method PadRowVector(img: Image, buf: Padded, cells: seq<int>, y: int, aligned: int) returns (next: seq<int>)
    requires img.Valid() && Frames(buf, img) && 0 <= y < img.height
    requires 0 <= aligned <= img.width && aligned % 16 == 0
    requires PaddedUpTo(img, buf, cells, Idx(img.width, 0, y))
    ensures PaddedUpTo(img, buf, next, Idx(img.width, aligned, y))
  {
    var w := img.width;
    next := cells;
    var x := 0;
    while x < aligned
      invariant 0 <= x <= aligned && x % 16 == 0
      invariant PaddedUpTo(img, buf, next, Idx(w, x, y))
    {
      PadVectorStep(img, buf, next, x, y);
      next := PadVectorStore(img, buf, next, x, y);
      x := x + 16;
    }
  }

  /** The scalar part of a row: pixels aligned .. width-1, one per step. */
  method PadRowScalar(img: Image, buf: Padded, cells: seq<int>, y: int, aligned: int) returns (next: seq<int>)
    requires img.Valid() && Frames(buf, img) && 0 <= y < img.height
    requires 0 <= aligned <= img.width
    requires PaddedUpTo(img, buf, cells, Idx(img.width, aligned, y))
    ensures PaddedUpTo(img, buf, next, Idx(img.width, img.width, y))
  {
    var w := img.width;
    next := cells;
    var x := aligned;
    while x < w
      invariant aligned <= x <= w
      invariant PaddedUpTo(img, buf, next, Idx(w, x, y))
    {
      PadStep(img, buf, next, x, y, 1);
      next := PadStore(img, buf, next, x, y, 1);
      x := x + 1;
    }
  }

  /** Before the first store nothing has been copied. */
  lemma PadStart(img: Image, buf: Padded)
    requires img.Valid() && Frames(buf, img)
    ensures PaddedUpTo(img, buf, buf.cells, Idx(img.width, 0, 0))
  {
    forall q | 0 <= q < |buf.cells|
      ensures buf.cells[q] == PadProgress(img, buf, 0, q)
    {
      var x, y := Col(buf.width, q) - 1, Row(buf.width, q) - 1;
      if img.InBounds(x, y) {
        MulLe(0, y, img.width);
      }
    }
  }

  /** The offset just past row y is the start of row y + 1. */
  lemma NextRow(w: int, y: int)
    ensures Idx(w, w, y) == Idx(w, 0, y + 1)
  {
  }

  lemma PadFinished(img: Image, buf: Padded, cells: seq<int>)
    requires img.Valid() && Frames(buf, img)
    requires PaddedUpTo(img, buf, cells, Idx(img.width, 0, img.height))
    ensures HoldsImage(Padded(buf.width, buf.height, cells), img)
    ensures forall q :: 0 <= q < |cells| && IsBorder(buf, q) ==> cells[q] == buf.cells[q]
  {
    var w, pw := img.width, buf.width;
    forall x, y | img.InBounds(x, y)
      ensures 0 <= PadIndex(pw, x, y) < |cells| && cells[PadIndex(pw, x, y)] == img.At(x, y)
    {
      IndexInRange(pw, buf.height, x + 1, y + 1);
      RowMajor(pw, x + 1, y + 1);
      IndexInRange(w, img.height, x, y);
    }
  }

  // ----- convolution_simd -----

  /** Position p of a buffer with stride pw has its whole 3×3 window inside the buffer. */
  predicate Window(P: seq<int>, pw: int, p: int) {
    pw > 0 && 0 <= p - pw - 1 && p + pw + 1 < |P|
  }

  /** The edge and blur sums at padded position p, read straight from the cells:
      north, west, centre, east, south (and the corners for the blur). */
  function PaddedLaplaceSum(P: seq<int>, pw: int, p: int): int
    requires Window(P, pw, p)
  {
    P[p - pw] + P[p - 1] - 4 * P[p] + P[p + 1] + P[p + pw]
  }

  function PaddedBlurSum(P: seq<int>, pw: int, p: int): int
    requires Window(P, pw, p)
  {
    P[p - pw - 1] + 2 * P[p - pw] + P[p - pw + 1] +
    2 * P[p - 1] + 4 * P[p] + 2 * P[p + 1] +
    P[p + pw - 1] + 2 * P[p + pw] + P[p + pw + 1]
  }

  /** The value `convolution_simd` produces at padded position p: magnitude of the
      edge sum divided by 4, blur sum divided by 16, both truncated. */
  function PaddedLaplaceAt(P: seq<int>, pw: int, p: int): int
    requires Window(P, pw, p)
  {
    Abs(PaddedLaplaceSum(P, pw, p)) / 4
  }

  function PaddedBlurAt(P: seq<int>, pw: int, p: int): int
    requires Window(P, pw, p)
  {
    PaddedBlurSum(P, pw, p) / 16
  }

  /** On byte-valued cells the edge sum lies in [-1020, 1020] and the blur sum in
      [0, 4080], so no 16-bit lane or `int16_t` accumulator wraps, and both outputs
      are bytes. */
  lemma PaddedSumsFit(P: seq<int>, pw: int, p: int)
    requires AllBytes(P) && Window(P, pw, p)
    ensures -1020 <= PaddedLaplaceSum(P, pw, p) <= 1020
    ensures 0 <= PaddedBlurSum(P, pw, p) <= 4080
    ensures IsByte(PaddedLaplaceAt(P, pw, p)) && IsByte(PaddedBlurAt(P, pw, p))
  {
    assert IsByte(P[p - pw - 1]) && IsByte(P[p - pw]) && IsByte(P[p - pw + 1]);
    assert IsByte(P[p - 1]) && IsByte(P[p]) && IsByte(P[p + 1]);
    assert IsByte(P[p + pw - 1]) && IsByte(P[p + pw]) && IsByte(P[p + pw + 1]);
  }

  /** One vector lane: the loads of the vector loop at base offset i, named as in
      the loop (column, row within the 3×3 window), summed in the loop's order. */
  function LaplaceLaneSum(P: seq<int>, pw: int, i: int): (r: int)
    requires pw > 0 && 0 <= i && i + 2 * pw + 2 < |P|
    ensures AllBytes(P) ==> -1020 <= r <= 1020
  {
    var x0y1, x1y0 := P[i + pw], P[i + 1];
    var x1y1, x1y2, x2y1 := 4 * P[i + pw + 1], P[i + 2 * pw + 1], P[i + pw + 2];
    x0y1 + x1y0 - x1y1 + x1y2 + x2y1
  }

  function BlurLaneSum(P: seq<int>, pw: int, i: int): (r: int)
    requires pw > 0 && 0 <= i && i + 2 * pw + 2 < |P|
    ensures AllBytes(P) ==> 0 <= r <= 4080
  {
    var x0y0, x0y1, x0y2 := P[i], 2 * P[i + pw], P[i + 2 * pw];
    var x1y0, x1y1, x1y2 := 2 * P[i + 1], 4 * P[i + pw + 1], 2 * P[i + 2 * pw + 1];
    var x2y0, x2y1, x2y2 := P[i + 2], 2 * P[i + pw + 2], P[i + 2 * pw + 2];
    (x0y0 + x0y1) + (x0y2 + x1y0) + ((x1y1 + x1y2) + (x2y0 + x2y1)) + x2y2
  }

  /** The lane's store at i + pw + 1: absolute value then shift right by 2 for the
      edge lane, shift right by 4 for the blur lane. */
  function LaplaceLane(P: seq<int>, pw: int, i: int): (r: int)
    requires pw > 0 && 0 <= i && i + 2 * pw + 2 < |P|
    ensures r == PaddedLaplaceAt(P, pw, i + pw + 1)
  {
    LaneSums(P, pw, i);
    Abs(LaplaceLaneSum(P, pw, i)) / 4
  }

  function BlurLane(P: seq<int>, pw: int, i: int): (r: int)
    requires pw > 0 && 0 <= i && i + 2 * pw + 2 < |P|
    ensures r == PaddedBlurAt(P, pw, i + pw + 1)
  {
    LaneSums(P, pw, i);
    BlurLaneSum(P, pw, i) / 16
  }

  /** A lane's loads are the 3×3 window centred on padded position i + pw + 1. */
  lemma LaneSums(P: seq<int>, pw: int, i: int)
    requires pw > 0 && 0 <= i && i + 2 * pw + 2 < |P|
    ensures Window(P, pw, i + pw + 1)
    ensures LaplaceLaneSum(P, pw, i) == PaddedLaplaceSum(P, pw, i + pw + 1)
    ensures BlurLaneSum(P, pw, i) == PaddedBlurSum(P, pw, i + pw + 1)
  {
    var p := i + pw + 1;
    assert p - pw - 1 == i && p - pw == i + 1 && p - pw + 1 == i + 2;
    assert p - 1 == i + pw && p + 1 == i + pw + 2;
    assert p + pw - 1 == i + 2 * pw && p + pw == i + 2 * pw + 1 && p + pw + 1 == i + 2 * pw + 2;
  }

  /** The eight lanes of one vector step at base offset i. */
  function LaplaceLanes(P: seq<int>, pw: int, i: int): (r: seq<int>)
    requires pw > 0 && 0 <= i && i + 2 * pw + 9 < |P|
    ensures |r| == 8
    ensures forall l :: 0 <= l < 8 ==> r[l] == PaddedLaplaceAt(P, pw, i + l + pw + 1)
  {
    var r := seq(8, l requires 0 <= l < 8 => LaplaceLane(P, pw, i + l));
    assert forall l :: 0 <= l < 8 ==> r[l] == LaplaceLane(P, pw, i + l);
    r
  }

  function BlurLanes(P: seq<int>, pw: int, i: int): (r: seq<int>)
    requires pw > 0 && 0 <= i && i + 2 * pw + 9 < |P|
    ensures |r| == 8
    ensures forall l :: 0 <= l < 8 ==> r[l] == PaddedBlurAt(P, pw, i + l + pw + 1)
  {
    var r := seq(8, l requires 0 <= l < 8 => BlurLane(P, pw, i + l));
    assert forall l :: 0 <= l < 8 ==> r[l] == BlurLane(P, pw, i + l);
    r
  }

  /** Term j of the remainder's kernel loop at position p: cell
      p + j % 3 - 1 + (j / 3 - 1) * pw times kernel entry j. Offset (dx, dy) meets
      the same entry `(dx + 1) + (dy + 1) * 3` as in the scalar tiers. */
  function RemainderTerm(P: seq<int>, pw: int, p: int, k: seq<int>, j: int): (r: int)
    requires |k| == 9 && 0 <= j < 9 && Window(P, pw, p)
    ensures r == P[p + (j % 3 - 1) + (j / 3 - 1) * pw] * Weight(k, j % 3 - 1, j / 3 - 1)
  {
    P[p + j % 3 - 1 + (j / 3 - 1) * pw] * k[j]
  }

  /** The remainder's accumulator after all nine steps: with the source kernels,
      the edge and blur sums of the 3×3 window around p. */
  function RemainderSum(P: seq<int>, pw: int, p: int, k: seq<int>): (r: int)
    requires |k| == 9 && Window(P, pw, p)
    ensures k == LaplaceKernel ==> r == PaddedLaplaceSum(P, pw, p)
    ensures k == BlurKernel ==> r == PaddedBlurSum(P, pw, p)
  {
    RemainderOffsets(P, pw, p, k);
    KernelWeights(P[p - pw - 1], P[p - pw], P[p - pw + 1], P[p - 1], P[p], P[p + 1],
      P[p + pw - 1], P[p + pw], P[p + pw + 1]);
    RemainderTerm(P, pw, p, k, 0) + RemainderTerm(P, pw, p, k, 1) + RemainderTerm(P, pw, p, k, 2) +
    RemainderTerm(P, pw, p, k, 3) + RemainderTerm(P, pw, p, k, 4) + RemainderTerm(P, pw, p, k, 5) +
    RemainderTerm(P, pw, p, k, 6) + RemainderTerm(P, pw, p, k, 7) + RemainderTerm(P, pw, p, k, 8)
  }

  /** What the scalar remainder loop stores at p, after the `(uint8_t)` casts. */
  function RemainderLaplace(P: seq<int>, pw: int, p: int): (r: int)
    requires Window(P, pw, p)
    ensures AllBytes(P) ==> r == PaddedLaplaceAt(P, pw, p)
  {
    RemainderFits(P, pw, p);
    U8(Abs(RemainderSum(P, pw, p, LaplaceKernel)) / 4)
  }

  function RemainderBlur(P: seq<int>, pw: int, p: int): (r: int)
    requires Window(P, pw, p)
    ensures AllBytes(P) ==> r == PaddedBlurAt(P, pw, p)
  {
    RemainderFits(P, pw, p);
    U8(RemainderSum(P, pw, p, BlurKernel) / 16)
  }

  /** On byte-valued cells the remainder's accumulators are the padded sums and
      their quotients are bytes, so the `(uint8_t)` casts are exact. */
  lemma RemainderFits(P: seq<int>, pw: int, p: int)
    requires Window(P, pw, p)
    ensures AllBytes(P) ==>
      IsByte(Abs(RemainderSum(P, pw, p, LaplaceKernel)) / 4) &&
      Abs(RemainderSum(P, pw, p, LaplaceKernel)) / 4 == PaddedLaplaceAt(P, pw, p)
    ensures AllBytes(P) ==>
      IsByte(RemainderSum(P, pw, p, BlurKernel) / 16) &&
      RemainderSum(P, pw, p, BlurKernel) / 16 == PaddedBlurAt(P, pw, p)
  {
    if AllBytes(P) {
      PaddedSumsFit(P, pw, p);
    }
  }

  /** A vector lane and the scalar remainder compute the same value at the same
      padded position. */
  lemma LaneMatchesRemainder(P: seq<int>, pw: int, i: int)
    requires AllBytes(P) && pw > 0 && 0 <= i && i + 2 * pw + 2 < |P|
    ensures LaplaceLane(P, pw, i) == PaddedLaplaceAt(P, pw, i + pw + 1) == RemainderLaplace(P, pw, i + pw + 1)
    ensures BlurLane(P, pw, i) == PaddedBlurAt(P, pw, i + pw + 1) == RemainderBlur(P, pw, i + pw + 1)
  {
  }

  /** The remainder's nine terms read the 3×3 window row by row, west to east. */
  lemma RemainderOffsets(P: seq<int>, pw: int, p: int, k: seq<int>)
    requires |k| == 9 && Window(P, pw, p)
    ensures RemainderTerm(P, pw, p, k, 0) == P[p - pw - 1] * k[0]
    ensures RemainderTerm(P, pw, p, k, 1) == P[p - pw] * k[1]
    ensures RemainderTerm(P, pw, p, k, 2) == P[p - pw + 1] * k[2]
    ensures RemainderTerm(P, pw, p, k, 3) == P[p - 1] * k[3]
    ensures RemainderTerm(P, pw, p, k, 4) == P[p] * k[4]
    ensures RemainderTerm(P, pw, p, k, 5) == P[p + 1] * k[5]
    ensures RemainderTerm(P, pw, p, k, 6) == P[p + pw - 1] * k[6]
    ensures RemainderTerm(P, pw, p, k, 7) == P[p + pw] * k[7]
    ensures RemainderTerm(P, pw, p, k, 8) == P[p + pw + 1] * k[8]
  {
  }

  /** The stencil of either kernel at padded position p. */
  function StencilAt(P: seq<int>, pw: int, p: int, laplace: bool): int
    requires Window(P, pw, p)
  {
    if laplace then PaddedLaplaceAt(P, pw, p) else PaddedBlurAt(P, pw, p)
  }

  /** The output buffer `cur` holds the stencil at every position in [pw + 1, hi)
      and its original contents everywhere else. */
  predicate ConvolvedUpTo(P: seq<int>, pw: int, orig: seq<int>, cur: seq<int>, hi: int, laplace: bool) {
    pw > 0 && pw + 1 <= hi <= |P| - pw - 1 && |orig| == |P| && |cur| == |P| &&
    forall p :: 0 <= p < |P| ==>
      cur[p] == if pw + 1 <= p < hi then StencilAt(P, pw, p, laplace) else orig[p]
  }

  /** Upper bound of the vector loop's base offset, kept from wrapping below zero:
      the loop runs while the highest cell its loads touch, i + 2·pw + 9, is inside
      the buffer. */
  function VectorBound(ps: int, pw: int): (b: int)
    ensures b >= 0
    ensures b > 0 ==> b + 2 * pw + 9 <= ps
    ensures ps >= 2 * pw + 9 ==> b == ps - 2 * pw - 9
  {
    if ps >= 2 * pw + 9 then ps - 2 * pw - 9 else 0
  }

  /** One vector step stores eight lanes at i + pw + 1 and extends the done range by eight. */
  lemma VectorStep(P: seq<int>, pw: int, orig: seq<int>, cur: seq<int>, i: int, laplace: bool)
    requires AllBytes(P) && 0 <= i && i + 2 * pw + 9 < |P|
    requires ConvolvedUpTo(P, pw, orig, cur, i + pw + 1, laplace)
    ensures ConvolvedUpTo(P, pw, orig,
      Store(cur, i + pw + 1, if laplace then LaplaceLanes(P, pw, i) else BlurLanes(P, pw, i)),
      i + pw + 9, laplace)
  {
    var lanes := if laplace then LaplaceLanes(P, pw, i) else BlurLanes(P, pw, i);
    var next := Store(cur, i + pw + 1, lanes);
    forall p | 0 <= p < |P|
      ensures next[p] == if pw + 1 <= p < i + pw + 9 then StencilAt(P, pw, p, laplace) else orig[p]
    {
      if i + pw + 1 <= p < i + pw + 9 {
        var l := p - (i + pw + 1);
        assert lanes[l] == StencilAt(P, pw, i + l + pw + 1, laplace);
      }
    }
  }

  /** One remainder step stores the scalar result at p and extends the done range by one. */
  lemma RemainderStep(P: seq<int>, pw: int, orig: seq<int>, cur: seq<int>, p: int, laplace: bool)
    requires AllBytes(P) && p < |P| - pw - 1
    requires ConvolvedUpTo(P, pw, orig, cur, p, laplace)
    ensures ConvolvedUpTo(P, pw, orig,
      cur[p := if laplace then RemainderLaplace(P, pw, p) else RemainderBlur(P, pw, p)],
      p + 1, laplace)
  {
  }

  /** `convolution_simd` on a byte-valued padded buffer: both outputs hold the
      kernel's stencil at every position from pw + 1 to size - pw - 2 (every
      interior cell, plus the left and right border cells of the inner rows) and
      are untouched elsewhere. */
  method ConvolutionSimd(P: Padded, lap0: seq<int>, blur0: seq<int>) returns (lap: seq<int>, blur: seq<int>)
    requires P.Valid() && AllBytes(P.cells)
    requires |lap0| == |P.cells| && |blur0| == |P.cells|
    ensures ConvolvedUpTo(P.cells, P.width, lap0, lap, |P.cells| - P.width - 1, true)
    ensures ConvolvedUpTo(P.cells, P.width, blur0, blur, |P.cells| - P.width - 1, false)
  {
    MulLe(3, P.height, P.width);
    var p;
    lap, blur, p := VectorLoop(P.cells, P.width, lap0, blur0);
    lap, blur := RemainderLoop(P.cells, P.width, lap0, blur0, lap, blur, p);
  }

  /** The vector loop: eight positions per step while the step's loads stay below
      the corrected bound; returns the first position it did not store. */
  method VectorLoop(P: seq<int>, pw: int, lap0: seq<int>, blur0: seq<int>)
    returns (lap: seq<int>, blur: seq<int>, p: int)
    requires AllBytes(P) && pw > 0 && 2 * pw + 2 <= |P|
    requires |lap0| == |P| && |blur0| == |P|
    ensures ConvolvedUpTo(P, pw, lap0, lap, p, true)
    ensures ConvolvedUpTo(P, pw, blur0, blur, p, false)
    ensures |P| >= 2 * pw + 9 ==> p >= |P| - pw - 8
  {
    var bound := VectorBound(|P|, pw);
    var i := 0;
    lap, blur := lap0, blur0;
    while i < bound
      invariant 0 <= i && i % 8 == 0 && i <= bound + 7
      invariant ConvolvedUpTo(P, pw, lap0, lap, i + pw + 1, true)
      invariant ConvolvedUpTo(P, pw, blur0, blur, i + pw + 1, false)
    {
      VectorStep(P, pw, lap0, lap, i, true);
      VectorStep(P, pw, blur0, blur, i, false);
      lap := Store(lap, i + pw + 1, LaplaceLanes(P, pw, i));
      blur := Store(blur, i + pw + 1, BlurLanes(P, pw, i));
      i := i + 8;
    }
    p := i + pw + 1;
  }

  /** The scalar remainder: one position per step from p up to size - pw - 2. */
  method RemainderLoop(P: seq<int>, pw: int, lap0: seq<int>, blur0: seq<int>,
                       lap1: seq<int>, blur1: seq<int>, p0: int)
    returns (lap: seq<int>, blur: seq<int>)
    requires AllBytes(P)
    requires ConvolvedUpTo(P, pw, lap0, lap1, p0, true)
    requires ConvolvedUpTo(P, pw, blur0, blur1, p0, false)
    ensures ConvolvedUpTo(P, pw, lap0, lap, |P| - pw - 1, true)
    ensures ConvolvedUpTo(P, pw, blur0, blur, |P| - pw - 1, false)
  {
    var p := p0;
    lap, blur := lap1, blur1;
    while p < |P| - pw - 1
      invariant ConvolvedUpTo(P, pw, lap0, lap, p, true)
      invariant ConvolvedUpTo(P, pw, blur0, blur, p, false)
      decreases |P| - p
    {
      RemainderStep(P, pw, lap0, lap, p, true);
      RemainderStep(P, pw, blur0, blur, p, false);
      lap := lap[p := RemainderLaplace(P, pw, p)];
      blur := blur[p := RemainderBlur(P, pw, p)];
      p := p + 1;
    }
  }

  // ----- the loop bound as written -----

  /** 2^64: `size_t` arithmetic wraps modulo this. */
  const SizeMax := 0x1_0000_0000_0000_0000

  /** The vector loop's bound `padded_size - padded_width * 2 - 9` as computed in
      `size_t`. */
  function VectorBoundAsWritten(ps: int, pw: int): (b: int)
    ensures 0 <= b < SizeMax
  {
    (ps - 2 * pw - 9) % SizeMax
  }

  /** Where the subtraction does not wrap, the written bound is the corrected one. */
  lemma VectorBoundAsWrittenAgrees(ps: int, pw: int)
    requires 0 <= pw && 2 * pw + 9 <= ps < SizeMax
    ensures VectorBoundAsWritten(ps, pw) == VectorBound(ps, pw)
  {
  }

  /** For an image with (w + 2)·h < 9 (1..6 × 1, 1..2 × 2, any width with height 0,
      and width 0 with height at most 4) the written bound wraps to a huge value, so
      the vector loop enters its first step with i = 0 and its last load reaches
      cell 2·pw + 9, past the end of the padded buffer. */
  lemma VectorBoundAsWrittenOverreads(w: int, h: int)
    requires w >= 0 && h >= 0 && (w + 2) * h < 9
    ensures var pw, ps := w + 2, (w + 2) * (h + 2);
      0 < VectorBoundAsWritten(ps, pw) && ps <= 2 * pw + 9
    ensures VectorBound((w + 2) * (h + 2), w + 2) == 0
  {
    var pw, ps := w + 2, (w + 2) * (h + 2);
    assert ps == (w + 2) * h + 2 * pw;
    assert -(2 * pw + 9) <= ps - 2 * pw - 9 < 0;
  }

  /** The smallest case: a 1×1 image, padded to 3×3, gets the bound 2^64 - 6. Its
      first vector step reads cells up to 15 and stores cells 4..11 of 9-cell
      buffers, and the loop goes on with i = 8. */
  lemma OneByOneOverreads()
    ensures VectorBoundAsWritten(9, 3) == SizeMax - 6
    ensures VectorBound(9, 3) == 0
    ensures 0 + 3 + 8 >= 9 && 8 < VectorBoundAsWritten(9, 3)
  {
  }

  /** Whenever the written bound wraps, the loop does not only read past the padded
      image: the step at base i = ps - ps % 8 is still below the bound, and its last
      lane is stored at i + pw + 8, past the end of both response buffers. */
  lemma VectorBoundAsWrittenOverwrites(w: int, h: int)
    requires w >= 0 && h >= 0 && (w + 2) * h < 9
    requires (w + 2) * (h + 2) + 9 < SizeMax
    ensures var pw, ps := w + 2, (w + 2) * (h + 2);
      var i := ps - ps % 8;
      i % 8 == 0 && 0 <= i < VectorBoundAsWritten(ps, pw) && i + pw + 8 >= ps
  {
    var pw, ps := w + 2, (w + 2) * (h + 2);
    assert ps == (w + 2) * h + 2 * pw;
    assert 0 <= (w + 2) * h;
    assert VectorBoundAsWritten(ps, pw) == ps - 2 * pw - 9 + SizeMax;
  }

  /** Exactly the images with (w + 2)·h >= 9 keep the written bound from wrapping. */
  lemma VectorBoundWrapsIff(w: int, h: int)
    requires w >= 0 && h >= 0
    ensures (w + 2) * (h + 2) >= 2 * (w + 2) + 9 <==> (w + 2) * h >= 9
  {
    assert (w + 2) * (h + 2) == (w + 2) * h + 2 * (w + 2);
  }

  // ----- agreement with the one-pass tier -----

  /** In a zero-bordered padding of img, the cell at padded coordinates of (nx, ny)
      (one step outside the image allowed) is the zero-extended sample there. */
  lemma PaddedNeighbour(P: Padded, img: Image, nx: int, ny: int)
    requires img.Valid() && IsPaddingOf(P, img)
    requires -1 <= nx <= img.width && -1 <= ny <= img.height
    ensures 0 <= PadIndex(P.width, nx, ny) < |P.cells|
    ensures P.cells[PadIndex(P.width, nx, ny)] == img.Tap(nx, ny)
  {
    IndexInRange(P.width, P.height, nx + 1, ny + 1);
    if !img.InBounds(nx, ny) {
      RowMajor(P.width, nx + 1, ny + 1);
      assert IsBorder(P, PadIndex(P.width, nx, ny));
    }
  }

  /** Image pixel (x, y) has its padded 3×3 window inside the buffer. */
  lemma PadIndexWindow(P: Padded, img: Image, x: int, y: int)
    requires img.Valid() && Frames(P, img) && img.InBounds(x, y)
    ensures Window(P.cells, P.width, PadIndex(P.width, x, y))
  {
    var pw := P.width;
    MulLe(0, y, pw);
    MulLe(y + 3, P.height, pw);
    assert PadIndex(pw, x, y) + pw + 1 == x + 2 + (y + 2) * pw;
  }

  /** At every image pixel, border ring included, the stencils `convolution_simd`
      computes over the zero-bordered padding equal the outputs of
      `convolution_1pass`. */
  lemma SimdMatchesOnePassAt(P: Padded, img: Image, x: int, y: int)
    requires img.Valid() && IsPaddingOf(P, img) && img.InBounds(x, y)
    ensures Window(P.cells, P.width, PadIndex(P.width, x, y))
    ensures PaddedLaplaceAt(P.cells, P.width, PadIndex(P.width, x, y)) == LaplaceTrunc(img, x, y)
    ensures PaddedBlurAt(P.cells, P.width, PadIndex(P.width, x, y)) == BlurTrunc(img, x, y)
  {
    PadIndexWindow(P, img, x, y);
    PaddedLaplaceIsStencil(P, img, x, y);
    PaddedBlurIsStencil(P, img, x, y);
    SourceKernelStencils(img, x, y);
    OnePassNoWrap(img, x, y);
  }

  /** The padded edge sum at the padded position of (x, y) is the zero-extended stencil. */
  lemma PaddedLaplaceIsStencil(P: Padded, img: Image, x: int, y: int)
    requires img.Valid() && IsPaddingOf(P, img) && img.InBounds(x, y)
    requires Window(P.cells, P.width, PadIndex(P.width, x, y))
    ensures PaddedLaplaceSum(P.cells, P.width, PadIndex(P.width, x, y)) == LaplaceStencil(img, x, y)
  {
    var pw, p := P.width, PadIndex(P.width, x, y);
    PaddedOffset(P, img, x, y, 0, -1, p - pw, x, y - 1);
    PaddedOffset(P, img, x, y, -1, 0, p - 1, x - 1, y);
    PaddedOffset(P, img, x, y, 0, 0, p, x, y);
    PaddedOffset(P, img, x, y, 1, 0, p + 1, x + 1, y);
    PaddedOffset(P, img, x, y, 0, 1, p + pw, x, y + 1);
    LaplaceFromTaps(P.cells, pw, p, img, x, y);
  }

  /** Cell q of a padded buffer holds the zero-extended sample at (x, y). */
  predicate CellIsTap(P: seq<int>, q: int, img: Image, x: int, y: int)
    requires img.Valid()
  {
    0 <= q < |P| && P[q] == img.Tap(x, y)
  }

  /** The padded edge sum is the stencil once its five cells are known to hold the
      five taps. */
  lemma LaplaceFromTaps(P: seq<int>, pw: int, p: int, img: Image, x: int, y: int)
    requires Window(P, pw, p) && img.Valid()
    requires CellIsTap(P, p - pw, img, x, y - 1) && CellIsTap(P, p - 1, img, x - 1, y)
    requires CellIsTap(P, p, img, x, y)
    requires CellIsTap(P, p + 1, img, x + 1, y) && CellIsTap(P, p + pw, img, x, y + 1)
    ensures PaddedLaplaceSum(P, pw, p) == LaplaceStencil(img, x, y)
  {
  }

  /** The padded blur sum at the padded position of (x, y) is the zero-extended stencil. */
  lemma PaddedBlurIsStencil(P: Padded, img: Image, x: int, y: int)
    requires img.Valid() && IsPaddingOf(P, img) && img.InBounds(x, y)
    requires Window(P.cells, P.width, PadIndex(P.width, x, y))
    ensures PaddedBlurSum(P.cells, P.width, PadIndex(P.width, x, y)) == BlurStencil(img, x, y)
  {
    var pw, p := P.width, PadIndex(P.width, x, y);
    PaddedRow(P, img, x, y, -1, p - pw, y - 1);
    PaddedRow(P, img, x, y, 0, p, y);
    PaddedRow(P, img, x, y, 1, p + pw, y + 1);
    BlurFromRows(P.cells, pw, p, img, x, y);
  }

  /** The {1, 2, 1} sum of three neighbouring cells of row r. */
  function RowSum(P: seq<int>, q: int): int
    requires 0 <= q - 1 && q + 1 < |P|
  {
    P[q - 1] + 2 * P[q] + P[q + 1]
  }

  /** The padded blur sum is the stencil once its three rows are known to hold the
      three rows of taps. */
  lemma BlurFromRows(P: seq<int>, pw: int, p: int, img: Image, x: int, y: int)
    requires Window(P, pw, p) && img.Valid()
    requires RowSum(P, p - pw) == TapRowSum(img, x, y - 1)
    requires RowSum(P, p) == TapRowSum(img, x, y)
    requires RowSum(P, p + pw) == TapRowSum(img, x, y + 1)
    ensures PaddedBlurSum(P, pw, p) == BlurStencil(img, x, y)
  {
  }

  /** The {1, 2, 1} row sum around padded cell q, dy rows from the padded position
      of (x, y), is the zero-extended row sum of the image. */
  lemma PaddedRow(P: Padded, img: Image, x: int, y: int, dy: int, q: int, ny: int)
    requires img.Valid() && IsPaddingOf(P, img) && img.InBounds(x, y) && -1 <= dy <= 1
    requires q == PadIndex(P.width, x, y) + dy * P.width && ny == y + dy
    ensures 0 <= q - 1 && q + 1 < |P.cells|
    ensures RowSum(P.cells, q) == TapRowSum(img, x, ny)
  {
    PaddedOffset(P, img, x, y, -1, dy, q - 1, x - 1, ny);
    PaddedOffset(P, img, x, y, 0, dy, q, x, ny);
    PaddedOffset(P, img, x, y, 1, dy, q + 1, x + 1, ny);
  }

  /** Cell q, dx columns and dy rows away from the padded position of (x, y), holds
      the zero-extended sample at (nx, ny) = (x + dx, y + dy). */
  lemma PaddedOffset(P: Padded, img: Image, x: int, y: int, dx: int, dy: int, q: int, nx: int, ny: int)
    requires img.Valid() && IsPaddingOf(P, img) && img.InBounds(x, y)
    requires -1 <= dx <= 1 && -1 <= dy <= 1
    requires q == PadIndex(P.width, x, y) + dx + dy * P.width && nx == x + dx && ny == y + dy
    ensures CellIsTap(P.cells, q, img, nx, ny)
  {
    PaddedNeighbour(P, img, x + dx, y + dy);
    ShiftIndex(P.width, x, y, dx, dy);
  }

  /** Moving dx columns and dy rows moves the linear offset by dx + dy·pw. */
  lemma ShiftIndex(pw: int, x: int, y: int, dx: int, dy: int)
    ensures PadIndex(pw, x + dx, y + dy) == PadIndex(pw, x, y) + dx + dy * pw
  {
    assert (y + dy + 1) * pw == (y + 1) * pw + dy * pw;
  }
}
