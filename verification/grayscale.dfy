/** `grayscale_integer`: luminance from interleaved RGB bytes with three
    fixed-point weights scaled to 1024. The weights are taken as given unsigned
    32-bit integers; their derivation from the floating-point coefficients is
    not part of this model. */
module Grayscale {
  import opened Raster

  /** 2^32: `uint32_t` arithmetic wraps modulo this. */
  const U32Max := 0x1_0000_0000

  predicate IsU32(v: int) {
    0 <= v < U32Max
  }

  /** Three weights whose sum does not exceed 1024, as truncating
      `w * 1024 / (a + b + c)` for non-negative coefficients yields. */
  predicate Normalised(ai: int, bi: int, ci: int) {
    IsU32(ai) && IsU32(bi) && IsU32(ci) && ai + bi + ci <= 1024
  }

  /** The weighted channel sum before the division. */
  function WeightedSum(r: int, g: int, b: int, ai: int, bi: int, ci: int): (s: int)
    ensures r == g == b ==> s == r * (ai + bi + ci)
  {
    r * ai + g * bi + b * ci
  }

  /** One output sample: the weighted sum in `uint32_t` (wrapping), divided by 1024,
      cast to `uint8_t`. */
  function GrayAt(r: int, g: int, b: int, ai: int, bi: int, ci: int): (v: int)
    requires IsByte(r) && IsByte(g) && IsByte(b) && IsU32(ai) && IsU32(bi) && IsU32(ci)
    ensures IsByte(v)
  {
    U8((WeightedSum(r, g, b, ai, bi, ci) % U32Max) / 1024)
  }

  /** With normalised weights neither the `uint32_t` sum nor the `uint8_t` cast
      wraps: the sample is the plain truncated quotient, at most 255. */
  lemma GrayAtExact(r: int, g: int, b: int, ai: int, bi: int, ci: int)
    requires IsByte(r) && IsByte(g) && IsByte(b) && Normalised(ai, bi, ci)
    ensures 0 <= WeightedSum(r, g, b, ai, bi, ci) <= 255 * 1024
    ensures GrayAt(r, g, b, ai, bi, ci) == WeightedSum(r, g, b, ai, bi, ci) / 1024
  {
    WeightedSumBounds(r, g, b, ai, bi, ci);
    var s := WeightedSum(r, g, b, ai, bi, ci);
    assert s % U32Max == s;
    DivBound(s, 1024, 255);
  }

  /** 0 <= s <= d·m implies s / d <= m. */
  lemma DivBound(s: int, d: int, m: int)
    requires d > 0 && 0 <= s <= d * m
    ensures 0 <= s / d <= m
  {
    var q := s / d;
    assert d * q <= s;
    if q > m {
      MulLe(m + 1, q, d);
    }
  }

  lemma WeightedSumBounds(r: int, g: int, b: int, ai: int, bi: int, ci: int)
    requires IsByte(r) && IsByte(g) && IsByte(b) && Normalised(ai, bi, ci)
    ensures 0 <= WeightedSum(r, g, b, ai, bi, ci) <= 255 * (ai + bi + ci) <= 255 * 1024
  {
    MulLe(0, r, ai);
    MulLe(r, 255, ai);
    MulLe(0, g, bi);
    MulLe(g, 255, bi);
    MulLe(0, b, ci);
    MulLe(b, 255, ci);
  }

  /** A gray pixel r = g = b = k never comes out brighter than k, and comes out as
      exactly k when the weights sum to 1024. */
  lemma GrayPixel(k: int, ai: int, bi: int, ci: int)
    requires IsByte(k) && Normalised(ai, bi, ci)
    ensures GrayAt(k, k, k, ai, bi, ci) <= k
    ensures ai + bi + ci == 1024 ==> GrayAt(k, k, k, ai, bi, ci) == k
  {
    GrayAtExact(k, k, k, ai, bi, ci);
    assert WeightedSum(k, k, k, ai, bi, ci) == k * (ai + bi + ci);
    MulLe(ai + bi + ci, 1024, k);
  }

  /** Raising any channel never lowers the output. */
  lemma GrayMonotone(r: int, g: int, b: int, r': int, g': int, b': int, ai: int, bi: int, ci: int)
    requires IsByte(r) && IsByte(g) && IsByte(b) && IsByte(r') && IsByte(g') && IsByte(b')
    requires Normalised(ai, bi, ci)
    requires r <= r' && g <= g' && b <= b'
    ensures GrayAt(r, g, b, ai, bi, ci) <= GrayAt(r', g', b', ai, bi, ci)
  {
    GrayAtExact(r, g, b, ai, bi, ci);
    GrayAtExact(r', g', b', ai, bi, ci);
    MulLe(r, r', ai);
    MulLe(g, g', bi);
    MulLe(b, b', ci);
  }

  /** With the default coefficients 0.2126, 0.7152, 0.0722 the weights truncate to
      217, 732 and 73, which sum to 1022, so a white pixel comes out as 254. */
  lemma WhitePixelDefaultWeights()
    ensures Normalised(217, 732, 73)
    ensures GrayAt(255, 255, 255, 217, 732, 73) == 254
  {
  }

  /** `grayscale_integer` over n pixels: output i is computed from bytes 3i, 3i+1
      and 3i+2 of the interleaved input. */
  function GrayscaleInteger(rgb: seq<int>, n: nat, ai: int, bi: int, ci: int): (r: seq<int>)
    requires |rgb| == 3 * n && AllBytes(rgb) && IsU32(ai) && IsU32(bi) && IsU32(ci)
    ensures |r| == n && AllBytes(r)
  {
    seq(n, i requires 0 <= i < n => GrayAt(rgb[3 * i], rgb[3 * i + 1], rgb[3 * i + 2], ai, bi, ci))
  }

  /** Output i depends on input bytes 3i .. 3i+2 only: two inputs that agree there
      give the same sample i. */
  lemma GrayscaleLocal(rgb: seq<int>, rgb': seq<int>, n: nat, ai: int, bi: int, ci: int, i: int)
    requires |rgb| == |rgb'| == 3 * n && AllBytes(rgb) && AllBytes(rgb')
    requires IsU32(ai) && IsU32(bi) && IsU32(ci)
    requires 0 <= i < n && rgb[3 * i..3 * i + 3] == rgb'[3 * i..3 * i + 3]
    ensures GrayscaleInteger(rgb, n, ai, bi, ci)[i] == GrayscaleInteger(rgb', n, ai, bi, ci)[i]
  {
    assert rgb[3 * i] == rgb[3 * i..3 * i + 3][0] == rgb'[3 * i];
    assert rgb[3 * i + 1] == rgb[3 * i..3 * i + 3][1] == rgb'[3 * i + 1];
    assert rgb[3 * i + 2] == rgb[3 * i..3 * i + 3][2] == rgb'[3 * i + 2];
  }

  /** Every sample of the result is the truncated weighted quotient of its own
      triplet and never exceeds the triplet's brightest channel. */
  lemma GrayscaleIntegerAt(rgb: seq<int>, n: nat, ai: int, bi: int, ci: int, i: int)
    requires |rgb| == 3 * n && AllBytes(rgb) && Normalised(ai, bi, ci) && 0 <= i < n
    ensures GrayscaleInteger(rgb, n, ai, bi, ci)[i] ==
      WeightedSum(rgb[3 * i], rgb[3 * i + 1], rgb[3 * i + 2], ai, bi, ci) / 1024
    ensures GrayscaleInteger(rgb, n, ai, bi, ci)[i] <= Max3(rgb[3 * i], rgb[3 * i + 1], rgb[3 * i + 2])
  {
    var r, g, b := rgb[3 * i], rgb[3 * i + 1], rgb[3 * i + 2];
    var m := Max3(r, g, b);
    GrayAtExact(r, g, b, ai, bi, ci);
    GrayMonotone(r, g, b, m, m, m, ai, bi, ci);
    GrayPixel(m, ai, bi, ci);
  }

  function Max3(a: int, b: int, c: int): (m: int)
    ensures a <= m && b <= m && c <= m && (m == a || m == b || m == c)
  {
    if a >= b && a >= c then a else if b >= c then b else c
  }
}
