/** The blend stage: each output sample mixes the luminance o and the blur b,
    weighted by the edge response l, as (l·o + (255 - l)·b) / 255. `combine`
    divides rounded or truncated; `combine_simd` reads the responses from the
    padded buffers of the vector convolution, shifts right by 8 in its vector
    lanes and divides by 255 in its scalar remainder. */
module Combine {
  import opened Raster
  import opened ConvolutionSimd

  /** The blend numerator `laplace * original + (255 - laplace) * blur`. */
  function BlendSum(o: int, l: int, b: int): (r: int)
    ensures l == 255 ==> r == 255 * o
    ensures l == 0 ==> r == 255 * b
  {
    l * o + (255 - l) * b
  }

  /** On bytes the numerator lies between 255 times the smaller and 255 times the
      larger of o and b, hence in [0, 65025]. */
  lemma BlendBounds(o: int, l: int, b: int)
    requires IsByte(o) && IsByte(l) && IsByte(b)
    ensures o <= b ==> 255 * o <= BlendSum(o, l, b) <= 255 * b
    ensures b <= o ==> 255 * b <= BlendSum(o, l, b) <= 255 * o
    ensures 0 <= BlendSum(o, l, b) <= 65025
  {
    assert BlendSum(o, l, b) == 255 * b + l * (o - b);
    if o <= b {
      MulLe(0, l, b - o);
      MulLe(l, 255, b - o);
    } else {
      MulLe(0, l, o - b);
      MulLe(l, 255, o - b);
    }
  }

  /** The quotient of the blend by 255, rounded (`accurate`) or truncated. */
  function BlendQuotient(o: int, l: int, b: int, accurate: bool): (q: int)
    requires IsByte(o) && IsByte(l) && IsByte(b)
    ensures o <= b ==> o <= q <= b
    ensures b <= o ==> b <= q <= o
  {
    BlendBounds(o, l, b);
    var s := BlendSum(o, l, b);
    if accurate then RoundDiv(s, 255) else s / 255
  }

  /** One output sample of `combine`: the cast to `uint8_t` never wraps because the
      result lies between the luminance and the blur; no edge keeps the blur, a
      full edge keeps the luminance. */
  function CombineAt(o: int, l: int, b: int, accurate: bool): (r: int)
    requires IsByte(o) && IsByte(l) && IsByte(b)
    ensures IsByte(r)
    ensures o <= b ==> o <= r <= b
    ensures b <= o ==> b <= r <= o
    ensures l == 0 ==> r == b
    ensures l == 255 ==> r == o
  {
    U8(BlendQuotient(o, l, b, accurate))
  }

  /** The rounded sample is the truncated one or one more. */
  lemma CombineTiersWithinOne(o: int, l: int, b: int)
    requires IsByte(o) && IsByte(l) && IsByte(b)
    ensures CombineAt(o, l, b, false) <= CombineAt(o, l, b, true) <= CombineAt(o, l, b, false) + 1
  {
    BlendBounds(o, l, b);
    TruncWithinOneOfRound(BlendSum(o, l, b), 255);
  }

  /** Both blend inputs and the luminance are byte rasters of one shape. */
  predicate BlendInputs(orig: Image, lap: Image, blur: Image) {
    orig.Valid() && lap.Valid() && blur.Valid() && SameShape(orig, lap) && SameShape(orig, blur)
  }

  /** `combine`: sample i of the result blends sample i of each input. */
  function Combine(orig: Image, lap: Image, blur: Image, accurate: bool): (r: Image)
    requires BlendInputs(orig, lap, blur)
    ensures SameShape(r, orig) && r.Valid()
  {
    Image(orig.width, orig.height,
      seq(|orig.pixels|, i requires 0 <= i < |orig.pixels| =>
        CombineAt(orig.pixels[i], lap.pixels[i], blur.pixels[i], accurate)))
  }

  /** At every pixel the two tiers of `combine` differ by at most one, the rounded
      one never below. */
  lemma CombineImageTiers(orig: Image, lap: Image, blur: Image)
    requires BlendInputs(orig, lap, blur)
    ensures forall i :: 0 <= i < |orig.pixels| ==>
      Combine(orig, lap, blur, false).pixels[i] <= Combine(orig, lap, blur, true).pixels[i] <=
      Combine(orig, lap, blur, false).pixels[i] + 1
  {
    forall i | 0 <= i < |orig.pixels|
      ensures Combine(orig, lap, blur, false).pixels[i] <= Combine(orig, lap, blur, true).pixels[i] <=
        Combine(orig, lap, blur, false).pixels[i] + 1
    {
      CombineTiersWithinOne(orig.pixels[i], lap.pixels[i], blur.pixels[i]);
    }
  }

  /** `combine` called with `result` aliasing `original`, as the pipeline does: each
      step reads sample i of the buffer and overwrites it. The buffer ends up equal
      to the out-of-place result, because no step reads a sample an earlier step
      wrote. */
  method CombineInPlace(orig: Image, lap: Image, blur: Image, accurate: bool) returns (buf: seq<int>)
    requires BlendInputs(orig, lap, blur)
    ensures buf == Combine(orig, lap, blur, accurate).pixels
  {
    buf := orig.pixels;
    var i := 0;
    while i < |buf|
      invariant 0 <= i <= |buf| == |orig.pixels|
      invariant forall j :: 0 <= j < i ==>
        buf[j] == CombineAt(orig.pixels[j], lap.pixels[j], blur.pixels[j], accurate)
      invariant forall j :: i <= j < |buf| ==> buf[j] == orig.pixels[j]
    {
      buf := buf[i := CombineAt(buf[i], lap.pixels[i], blur.pixels[i], accurate)];
      i := i + 1;
    }
  }

  // ----- combine_simd -----

  /** A 16-bit lane read as `int16_t`. */
  function Signed16(v: int): (s: int)
    requires 0 <= v < 65536
    ensures -32768 <= s < 32768 && U16(s) == v
  {
    if v >= 32768 then v - 65536 else v
  }

  /** `_mm_packus_epi16` on one lane: the signed value saturated to [0, 255]. */
  function PackUs(v: int): (r: int)
    requires 0 <= v < 65536
    ensures IsByte(r)
    ensures IsByte(v) ==> r == v
    ensures 256 <= v < 32768 ==> r == 255
    ensures 32768 <= v ==> r == 0
  {
    var s := Signed16(v);
    if s < 0 then 0 else if s > 255 then 255 else s
  }

  /** One vector lane of `combine_simd`: 16-bit wrapping products (`mullo`) and sum,
      logical shift right by 8, then the saturating pack to a byte. The luminance
      is a zero-extended byte; the responses are arbitrary 16-bit cells. */
  function LaneBlend(o: int, l: int, b: int): (r: int)
    requires IsByte(o) && 0 <= l < 65536 && 0 <= b < 65536
    ensures IsByte(l) && IsByte(b) ==> r == BlendSum(o, l, b) / 256 <= 254
  {
    LaneTermsFit(o, l, b);
    var weighted := U16(l * o);
    var inverse := U16(U16(255 - l) * b);
    PackUs(U16(weighted + inverse) / 256)
  }

  /** On byte responses both lane products and their sum stay within [0, 65025]. */
  lemma LaneTermsFit(o: int, l: int, b: int)
    requires IsByte(o)
    ensures IsByte(l) && IsByte(b) ==>
      0 <= l * o <= 65025 && 0 <= (255 - l) * b <= 65025 && 0 <= BlendSum(o, l, b) <= 65025
  {
    if IsByte(l) && IsByte(b) {
      BlendBounds(o, l, b);
      MulLe(0, l, o);
      MulLe(l, 255, o);
      MulLe(0, 255 - l, b);
      MulLe(255 - l, 255, b);
    }
  }

  /** The vector lane (shift by 8) is never above the remainder's truncated division
      by 255 and at most one below it. */
  lemma LaneWithinOneOfRemainder(o: int, l: int, b: int)
    requires IsByte(o) && IsByte(l) && IsByte(b)
    ensures LaneBlend(o, l, b) <= CombineAt(o, l, b, false) <= LaneBlend(o, l, b) + 1
  {
    BlendBounds(o, l, b);
    ShiftWithinOneOfDiv255(BlendSum(o, l, b));
  }

  /** The value `combine_simd` stores for one sample: the vector lane or the
      remainder's truncated division. Either way it is the integer tier's value
      or one less, and exactly that value outside the vector lanes. */
  function SimdBlend(o: int, l: int, b: int, vector: bool): (r: int)
    requires IsByte(o) && IsByte(l) && IsByte(b)
    ensures IsByte(r)
    ensures r <= CombineAt(o, l, b, false) <= r + 1
    ensures !vector ==> r == CombineAt(o, l, b, false)
  {
    LaneWithinOneOfRemainder(o, l, b);
    if vector then LaneBlend(o, l, b) else CombineAt(o, l, b, false)
  }

  /** For 0 <= s <= 65025: s / 256 <= s / 255 <= s / 256 + 1. */
  lemma ShiftWithinOneOfDiv255(s: int)
    requires 0 <= s <= 65025
    ensures s / 256 <= s / 255 <= s / 256 + 1
  {
    var a, c := s / 255, s / 256;
    assert 255 * a <= s < 255 * a + 255;
    assert 256 * c <= s < 256 * c + 256;
    assert a <= 255;
  }

  /** The responses of a padded buffer at every image pixel are bytes. */
  predicate InteriorBytes(P: Padded, img: Image)
    requires img.Valid()
  {
    forall x, y :: 0 <= x < img.width && 0 <= y < img.height ==>
      0 <= PadIndex(P.width, x, y) < |P.cells| && IsByte(P.cells[PadIndex(P.width, x, y)])
  }

  /** What `combine_simd` needs: the luminance raster and two padded response buffers
      of its frame, byte-valued at every pixel they are read at. */
  predicate SimdInputs(img: Image, PL: Padded, PB: Padded) {
    img.Valid() && Frames(PL, img) && Frames(PB, img) && InteriorBytes(PL, img) && InteriorBytes(PB, img)
  }

  /** Columns below `width - width % 16` go through the vector lanes. */
  function Aligned(w: int): (a: int)
    requires w > 0
    ensures 0 <= a <= w && a % 16 == 0 && w - a < 16
  {
    w - w % 16
  }

  /** The output of `combine_simd` at pixel (x, y): the responses are read at the
      padded offset of (x, y); vector columns use the lane, the others the
      truncated division. */
  function SimdPixel(img: Image, PL: Padded, PB: Padded, x: int, y: int): (r: int)
    requires SimdInputs(img, PL, PB) && img.InBounds(x, y)
    ensures IsByte(r)
  {
    var p := PadIndex(PL.width, x, y);
    var o, l, b := img.At(x, y), PL.cells[p], PB.cells[p];
    SimdBlend(o, l, b, x < Aligned(img.width))
  }

  /** The result raster of `combine_simd`, pixel by pixel. */
  function CombineSimdSpec(img: Image, PL: Padded, PB: Padded): (r: seq<int>)
    requires SimdInputs(img, PL, PB)
    ensures |r| == |img.pixels| && AllBytes(r)
  {
    seq(|img.pixels|, q requires 0 <= q < |img.pixels| =>
      Coordinates(img.width, img.height, q);
      SimdPixel(img, PL, PB, Col(img.width, q), Row(img.width, q)))
  }

  /** Two padded buffers of img's frame hold the same cells at every image pixel. */
  predicate AgreeInside(P: Padded, P': Padded, img: Image)
    requires img.Valid()
  {
    forall x, y :: 0 <= x < img.width && 0 <= y < img.height ==>
      0 <= PadIndex(P.width, x, y) < |P.cells| && 0 <= PadIndex(P.width, x, y) < |P'.cells| &&
      P.cells[PadIndex(P.width, x, y)] == P'.cells[PadIndex(P.width, x, y)]
  }

  /** `combine_simd` reads the response buffers only at the padded offsets of the
      image's pixels: buffers that agree there give the same result, whatever
      their border cells hold. */
  lemma CombineSimdLocal(img: Image, PL: Padded, PB: Padded, PL': Padded, PB': Padded)
    requires SimdInputs(img, PL, PB) && SimdInputs(img, PL', PB')
    requires AgreeInside(PL, PL', img) && AgreeInside(PB, PB', img)
    ensures CombineSimdSpec(img, PL, PB) == CombineSimdSpec(img, PL', PB')
  {
    var a, b := CombineSimdSpec(img, PL, PB), CombineSimdSpec(img, PL', PB');
    forall q | 0 <= q < |img.pixels|
      ensures a[q] == b[q]
    {
      Coordinates(img.width, img.height, q);
    }
  }

  lemma CombineSimdSpecAt(img: Image, PL: Padded, PB: Padded, x: int, y: int)
    requires SimdInputs(img, PL, PB) && img.InBounds(x, y)
    ensures 0 <= Idx(img.width, x, y) < |img.pixels|
    ensures CombineSimdSpec(img, PL, PB)[Idx(img.width, x, y)] == SimdPixel(img, PL, PB, x, y)
  {
    IndexInRange(img.width, img.height, x, y);
    RowMajor(img.width, x, y);
  }

  /** The in-place buffer once the first `done` samples (row-major) are written:
      those hold the result, the rest still the luminance. */
  predicate CombinedUpTo(img: Image, PL: Padded, PB: Padded, cur: seq<int>, done: int)
    requires SimdInputs(img, PL, PB)
  {
    |cur| == |img.pixels| &&
    forall q :: 0 <= q < |cur| ==>
      cur[q] == if q < done then CombineSimdSpec(img, PL, PB)[q] else img.pixels[q]
  }

  lemma CombinedBytes(img: Image, PL: Padded, PB: Padded, cur: seq<int>, done: int)
    requires SimdInputs(img, PL, PB) && CombinedUpTo(img, PL, PB, cur, done)
    ensures AllBytes(cur)
  {
    var spec := CombineSimdSpec(img, PL, PB);
    forall q | 0 <= q < |cur|
      ensures IsByte(cur[q])
    {
      assert IsByte(spec[q]) && IsByte(img.pixels[q]);
    }
  }

  /** v is the integer tier's blend of luminance o with the responses at pixel
      (x, y), or one less; exactly that blend past the last full group of sixteen
      columns. */
  predicate WithinOneOfBlend(img: Image, PL: Padded, PB: Padded, o: int, x: int, y: int, v: int)
    requires SimdInputs(img, PL, PB) && IsByte(o) && img.InBounds(x, y)
  {
    var p := PadIndex(PL.width, x, y);
    var blend := CombineAt(o, PL.cells[p], PB.cells[p], false);
    v <= blend <= v + 1 && (x >= Aligned(img.width) ==> v == blend)
  }

  /** The value one lane stores at pixel (x, y) when it reads the luminance from
      the in-place buffer `cur`. */
  function ChunkLane(img: Image, PL: Padded, PB: Padded, cur: seq<int>, x: int, y: int): (r: int)
    requires SimdInputs(img, PL, PB) && |cur| == |img.pixels| && AllBytes(cur) && img.InBounds(x, y)
    ensures 0 <= Idx(img.width, x, y) < |cur|
    ensures IsByte(r) && WithinOneOfBlend(img, PL, PB, cur[Idx(img.width, x, y)], x, y, r)
  {
    IndexInRange(img.width, img.height, x, y);
    var p := PadIndex(PL.width, x, y);
    SimdBlend(cur[Idx(img.width, x, y)], PL.cells[p], PB.cells[p], x < Aligned(img.width))
  }

  /** Samples x .. x+len-1 of row y computed from the in-place buffer `cur`: each
      lane reads the luminance from the very sample it will overwrite, and yields
      the integer tier's blend of that sample or one less, exactly that blend past
      the last full group of sixteen. */
  function SimdChunk(img: Image, PL: Padded, PB: Padded, cur: seq<int>, x: int, y: int, len: int): (r: seq<int>)
    requires SimdInputs(img, PL, PB) && |cur| == |img.pixels| && AllBytes(cur)
    requires 0 <= x && 0 <= len && x + len <= img.width && 0 <= y < img.height
    ensures |r| == len && AllBytes(r)
    ensures 0 <= Idx(img.width, x, y) && Idx(img.width, x, y) + len <= |cur| &&
      forall c :: x <= c < x + len ==> WithinOneOfBlend(img, PL, PB, cur[Idx(img.width, c, y)], c, y, r[c - x])
  {
    RowInRange(img, x, y, len);
    var r := seq(len, k requires 0 <= k < len => ChunkLane(img, PL, PB, cur, x + k, y));
    assert forall k :: 0 <= k < len ==> r[k] == ChunkLane(img, PL, PB, cur, x + k, y);
    r
  }

  /** The store of one step: the chunk at x .. x+len-1 of row y written back over
      the samples it was computed from. */
  function CombineStore(img: Image, PL: Padded, PB: Padded, cur: seq<int>, x: int, y: int, len: int): (r: seq<int>)
    requires SimdInputs(img, PL, PB) && |cur| == |img.pixels| && AllBytes(cur)
    requires 0 <= x && 0 <= len && x + len <= img.width && 0 <= y < img.height
    ensures |r| == |cur|
    ensures 0 <= Idx(img.width, x, y) && Idx(img.width, x, y) + len <= |r| &&
      forall q :: Idx(img.width, x, y) <= q < Idx(img.width, x, y) + len ==>
        r[q] == SimdChunk(img, PL, PB, cur, x, y, len)[q - Idx(img.width, x, y)]
    ensures forall q :: 0 <= q < |r| && !(Idx(img.width, x, y) <= q < Idx(img.width, x, y) + len) ==>
      r[q] == cur[q]
  {
    RowInRange(img, x, y, len);
    Store(cur, Idx(img.width, x, y), SimdChunk(img, PL, PB, cur, x, y, len))
  }

  /** Samples x .. x+len-1 of row y exist. */
  lemma RowInRange(img: Image, x: int, y: int, len: int)
    requires img.Valid()
    requires 0 <= x && 0 <= len && x + len <= img.width && 0 <= y < img.height
    ensures 0 <= Idx(img.width, x, y) && Idx(img.width, x, y) + len <= |img.pixels|
  {
    MulLe(0, y, img.width);
    MulLe(y + 1, img.height, img.width);
  }

  /** Writing the chunk at x .. x+len-1 of row y advances the in-place blend by len. */
  lemma CombineStep(img: Image, PL: Padded, PB: Padded, cur: seq<int>, x: int, y: int, len: int)
    requires SimdInputs(img, PL, PB)
    requires 0 <= x && 0 <= len && x + len <= img.width && 0 <= y < img.height
    requires CombinedUpTo(img, PL, PB, cur, Idx(img.width, x, y))
    ensures AllBytes(cur)
    ensures CombinedUpTo(img, PL, PB, CombineStore(img, PL, PB, cur, x, y, len), Idx(img.width, x + len, y))
  {
    CombinedBytes(img, PL, PB, cur, Idx(img.width, x, y));
    RowInRange(img, x, y, len);
    var at := Idx(img.width, x, y);
    var chunk := SimdChunk(img, PL, PB, cur, x, y, len);
    var next := CombineStore(img, PL, PB, cur, x, y, len);
    assert Idx(img.width, x + len, y) == at + len;
    forall q | 0 <= q < |next|
      ensures next[q] == if q < at + len then CombineSimdSpec(img, PL, PB)[q] else img.pixels[q]
    {
      if at <= q < at + len {
        assert next[q] == chunk[q - at];
        ChunkIsSpec(img, PL, PB, cur, x, y, len, q - at);
      } else {
        assert next[q] == cur[q];
      }
    }
  }

  /** Lane k of a chunk computed from a buffer not yet written at or after the
      chunk's start is the specified sample of its pixel. */
  lemma ChunkIsSpec(img: Image, PL: Padded, PB: Padded, cur: seq<int>, x: int, y: int, len: int, k: int)
    requires SimdInputs(img, PL, PB)
    requires 0 <= x && 0 <= len && x + len <= img.width && 0 <= y < img.height && 0 <= k < len
    requires CombinedUpTo(img, PL, PB, cur, Idx(img.width, x, y))
    ensures AllBytes(cur)
    ensures 0 <= Idx(img.width, x + k, y) < |img.pixels|
    ensures SimdChunk(img, PL, PB, cur, x, y, len)[k] == CombineSimdSpec(img, PL, PB)[Idx(img.width, x + k, y)]
  {
    CombinedBytes(img, PL, PB, cur, Idx(img.width, x, y));
    CombineSimdSpecAt(img, PL, PB, x + k, y);
    var q := Idx(img.width, x + k, y);
    assert cur[q] == img.pixels[q];
    ChunkLaneAt(img, PL, PB, cur, x, y, len, k);
    LaneReadsOwnSample(img, PL, PB, cur, x + k, y);
  }

  /** Lane k of a chunk is the lane at column x + k. */
  lemma ChunkLaneAt(img: Image, PL: Padded, PB: Padded, cur: seq<int>, x: int, y: int, len: int, k: int)
    requires SimdInputs(img, PL, PB) && |cur| == |img.pixels| && AllBytes(cur)
    requires 0 <= x && 0 <= len && x + len <= img.width && 0 <= y < img.height && 0 <= k < len
    ensures SimdChunk(img, PL, PB, cur, x, y, len)[k] == ChunkLane(img, PL, PB, cur, x + k, y)
  {
  }

  /** A lane that reads a sample not yet overwritten stores that pixel's output. */
  lemma LaneReadsOwnSample(img: Image, PL: Padded, PB: Padded, cur: seq<int>, x: int, y: int)
    requires SimdInputs(img, PL, PB) && |cur| == |img.pixels| && AllBytes(cur) && img.InBounds(x, y)
    requires 0 <= Idx(img.width, x, y) < |cur| && cur[Idx(img.width, x, y)] == img.pixels[Idx(img.width, x, y)]
    ensures ChunkLane(img, PL, PB, cur, x, y) == SimdPixel(img, PL, PB, x, y)
  {
  }

  /** `combine_simd` with `result` aliasing `original`, as the pipeline calls it:
      row by row, sixteen samples per vector step up to `width - width % 16`, then
      one sample at a time. Every sample of the buffer is written, each with its
      own pixel's value. */
  method CombineSimd(img: Image, PL: Padded, PB: Padded) returns (out: seq<int>)
    requires SimdInputs(img, PL, PB)
    ensures out == CombineSimdSpec(img, PL, PB)
  {
    out := img.pixels;
    var y := 0;
    while y < img.height
      invariant 0 <= y <= img.height
      invariant CombinedUpTo(img, PL, PB, out, Idx(img.width, 0, y))
    {
      out := CombineSimdRow(img, PL, PB, out, y);
      NextRow(img.width, y);
      y := y + 1;
    }
    assert Idx(img.width, 0, img.height) == |out|;
  }

  /** One row of `combine_simd`. */
  method CombineSimdRow(img: Image, PL: Padded, PB: Padded, cur: seq<int>, y: int) returns (next: seq<int>)
    requires SimdInputs(img, PL, PB) && 0 <= y < img.height
    requires CombinedUpTo(img, PL, PB, cur, Idx(img.width, 0, y))
    ensures CombinedUpTo(img, PL, PB, next, Idx(img.width, img.width, y))
  {
    var aligned := Aligned(img.width);
    next := CombineRowVector(img, PL, PB, cur, y, aligned);
    next := CombineRowScalar(img, PL, PB, next, y, aligned);
  }

  /** One step of either part: blend samples x .. x+len-1 of row y in place. */
  method CombineChunk(img: Image, PL: Padded, PB: Padded, cur: seq<int>, x: int, y: int, len: int)
    returns (next: seq<int>)
    requires SimdInputs(img, PL, PB)
    requires 0 <= x && 0 <= len && x + len <= img.width && 0 <= y < img.height
    requires CombinedUpTo(img, PL, PB, cur, Idx(img.width, x, y))
    ensures CombinedUpTo(img, PL, PB, next, Idx(img.width, x + len, y))
  {
    CombineStep(img, PL, PB, cur, x, y, len);
    next := CombineStore(img, PL, PB, cur, x, y, len);
  }

  /** The vector part of a row: samples 0 .. aligned-1, sixteen per step. */
  method CombineRowVector(img: Image, PL: Padded, PB: Padded, cur: seq<int>, y: int, aligned: int)
    returns (next: seq<int>)
    requires SimdInputs(img, PL, PB) && 0 <= y < img.height
    requires 0 <= aligned <= img.width && aligned % 16 == 0
    requires CombinedUpTo(img, PL, PB, cur, Idx(img.width, 0, y))
    ensures CombinedUpTo(img, PL, PB, next, Idx(img.width, aligned, y))
  {
    next := cur;
    var x := 0;
    while x < aligned
      invariant 0 <= x <= aligned && x % 16 == 0
      invariant CombinedUpTo(img, PL, PB, next, Idx(img.width, x, y))
    {
      GroupFits(x, aligned);
      next := CombineChunk(img, PL, PB, next, x, y, 16);
      x := x + 16;
    }
  }

  /** Below a multiple of sixteen, a multiple of sixteen leaves room for a whole group. */
  lemma GroupFits(x: int, aligned: int)
    requires 0 <= x < aligned && x % 16 == 0 && aligned % 16 == 0
    ensures x + 16 <= aligned
  {
    assert x == 16 * (x / 16) && aligned == 16 * (aligned / 16);
  }

  /** The scalar part of a row: samples aligned .. width-1, one per step. */
  method CombineRowScalar(img: Image, PL: Padded, PB: Padded, cur: seq<int>, y: int, aligned: int)
    returns (next: seq<int>)
    requires SimdInputs(img, PL, PB) && 0 <= y < img.height
    requires 0 <= aligned <= img.width
    requires CombinedUpTo(img, PL, PB, cur, Idx(img.width, aligned, y))
    ensures CombinedUpTo(img, PL, PB, next, Idx(img.width, img.width, y))
  {
    next := cur;
    var x := aligned;
    while x < img.width
      invariant aligned <= x <= img.width
      invariant CombinedUpTo(img, PL, PB, next, Idx(img.width, x, y))
    {
      next := CombineChunk(img, PL, PB, next, x, y, 1);
      x := x + 1;
    }
  }
}
