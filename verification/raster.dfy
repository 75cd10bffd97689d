/** Row-major rasters of 8-bit samples, the C integer conversions the pipeline
    relies on, and `round()` of a quotient of two small integers. */
module Raster {

  /** A value a `uint8_t` can hold. */
  predicate IsByte(v: int) {
    0 <= v < 256
  }

  predicate AllBytes(s: seq<int>) {
    forall i :: 0 <= i < |s| ==> IsByte(s[i])
  }

  /** Linear offset of column x, row y in a row-major buffer of stride w. */
  function Idx(w: int, x: int, y: int): int {
    x + y * w
  }

  /** Column and row of linear offset i in a buffer of stride w. */
  function Col(w: int, i: int): int
    requires w > 0
  {
    i % w
  }

  function Row(w: int, i: int): int
    requires w > 0
  {
    i / w
  }

  /** A width×height grid of samples, row-major with stride `width`, no gaps. */
  datatype Image = Image(width: nat, height: nat, pixels: seq<int>) {

    predicate Valid() {
      width > 0 && height > 0 && |pixels| == width * height && AllBytes(pixels)
    }

    predicate InBounds(x: int, y: int) {
      0 <= x < width && 0 <= y < height
    }

    /** The sample at column x, row y. */
    function At(x: int, y: int): (v: int)
      requires Valid() && InBounds(x, y)
      ensures IsByte(v)
    {
      IndexInRange(width, height, x, y);
      pixels[Idx(width, x, y)]
    }

    /** The sample at (x, y), or 0 where (x, y) lies outside the raster. */
    function Tap(x: int, y: int): (v: int)
      requires Valid()
      ensures IsByte(v)
      ensures !InBounds(x, y) ==> v == 0
    {
      if InBounds(x, y) then At(x, y) else 0
    }
  }

  /** Two images of the same shape. */
  predicate SameShape(a: Image, b: Image) {
    a.width == b.width && a.height == b.height
  }

  lemma MulLe(a: int, b: int, c: int)
    requires a <= b && c >= 0
    ensures a * c <= b * c
  {
    assert b * c - a * c == (b - a) * c;
  }

  lemma IndexInRange(w: int, h: int, x: int, y: int)
    requires 0 <= x < w && 0 <= y < h
    ensures 0 <= Idx(w, x, y) < w * h
  {
    MulLe(0, y, w);
    MulLe(y + 1, h, w);
  }

  /** Column and row recover the coordinates a linear offset was built from. */
  lemma RowMajor(w: int, x: int, y: int)
    requires 0 <= x < w
    ensures Col(w, Idx(w, x, y)) == x && Row(w, Idx(w, x, y)) == y
  {
    var i := Idx(w, x, y);
    var q, r := i / w, i % w;
    assert i == q * w + r;
    assert (q - y) * w == x - r;
    if q > y {
      MulLe(1, q - y, w);
    } else if q < y {
      MulLe(1, y - q, w);
    }
  }

  /** Every offset inside a w×h buffer is the offset of its own column and row. */
  lemma Coordinates(w: int, h: int, i: int)
    requires w > 0 && 0 <= i < w * h
    ensures 0 <= Col(w, i) < w && 0 <= Row(w, i) < h
    ensures i == Idx(w, Col(w, i), Row(w, i))
  {
    var q, r := i / w, i % w;
    assert i == q * w + r;
    if q < 0 {
      MulLe(q, -1, w);
    }
    if q >= h {
      MulLe(h, q, w);
    }
  }

  /** `RowMajor` for every pixel of a w×h raster at once. */
  lemma RowMajorAll(w: int, h: int)
    requires w > 0
    ensures forall x, y :: 0 <= x < w && 0 <= y < h ==>
      Col(w, Idx(w, x, y)) == x && Row(w, Idx(w, x, y)) == y && 0 <= Idx(w, x, y) < w * h
  {
    forall x, y | 0 <= x < w && 0 <= y < h
      ensures Col(w, Idx(w, x, y)) == x && Row(w, Idx(w, x, y)) == y && 0 <= Idx(w, x, y) < w * h
    {
      RowMajor(w, x, y);
      IndexInRange(w, h, x, y);
    }
  }

  function Abs(v: int): (r: int)
    ensures r >= 0 && (r == v || r == -v)
  {
    if v < 0 then -v else v
  }

  /** Conversion of an integer to `uint8_t`: reduction modulo 2^8. */
  function U8(v: int): (r: int)
    ensures IsByte(r)
    ensures IsByte(v) ==> r == v
  {
    v % 256
  }

  /** Conversion of an integer to `uint16_t` (a 16-bit lane): reduction modulo 2^16. */
  function U16(v: int): (r: int)
    ensures 0 <= r < 65536
    ensures 0 <= v < 65536 ==> r == v
  {
    v % 65536
  }

  /** `round(n / (double)d)`: the integer nearest to n/d, halves away from zero.
      For d in {4, 16, 255} and the sums the pipeline forms, the double quotient is
      either exact (d a power of two) or at least 1/510 away from a half, so no
      floating-point error can change the result. */
  function RoundDiv(n: int, d: int): (r: int)
    requires d > 0
    ensures -d <= 2 * n - 2 * d * r <= d
    ensures 2 * n - 2 * d * r == d ==> n < 0
    ensures 2 * n - 2 * d * r == -d ==> n > 0
  {
    if n >= 0 then (2 * n + d) / (2 * d) else -((2 * -n + d) / (2 * d))
  }

  lemma PositiveFactor(a: int, d: int)
    requires d > 0 && a * d > 0
    ensures a > 0
  {
  }

  /** Truncating division of a non-negative sum is never above the rounded
      quotient and at most one below it. */
  lemma TruncWithinOneOfRound(n: int, d: int)
    requires n >= 0 && d > 0
    ensures n / d <= RoundDiv(n, d) <= n / d + 1
  {
    var q, m, r := n / d, n % d, RoundDiv(n, d);
    assert n == q * d + m;
    assert (r - q + 1) * (2 * d) == 2 * d * r - 2 * d * q + 2 * d;
    PositiveFactor(r - q + 1, 2 * d);
    assert (q + 2 - r) * (2 * d) == 2 * d * q + 4 * d - 2 * d * r;
    PositiveFactor(q + 2 - r, 2 * d);
  }
}
