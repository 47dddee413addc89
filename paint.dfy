/**
  The software downscaler of gdiplusdemo/paint.cpp: `AvgPixel` averages a
  scale-by-scale block of 32-bit premultiplied pixels into one pixel with
  round-to-nearest, and `SimpleDownscale` does that for every pixel of the
  small image.

  Pixel memory is a byte buffer: a pixel is four bytes, a row `stride`
  bytes. The source bitmap is read only, so it is a sequence; the
  destination is written in place, so it is an array. The four
  accumulators of the source are unsigned 32-bit (`UINT`) and the stored
  results are bytes, so both truncations are written out.
 */
module Paint {
  import opened Base

  /** The offset of row `y` in a buffer whose rows are `stride` bytes apart. */
  function RowStart(stride: int, y: int): int
  {
    y * stride
  }

  /** The offset of channel `c` of pixel (x, y) of the block that starts at `p`. */
  function PixelByte(p: int, stride: int, y: int, x: int, c: int): int
  {
    p + RowStart(stride, y) + 4 * x + c
  }

  lemma RowStartMono(stride: int, a: int, b: int)
    requires 0 <= stride && a < b
    ensures RowStart(stride, a) + stride <= RowStart(stride, b)
  {
    assert RowStart(stride, b) - RowStart(stride, a) == (b - a) * stride;
    assert (b - a) * stride >= stride by {
      assert (b - a - 1) * stride >= 0;
    }
  }

  /** Rows 0 ..< rows of `w` pixels, `stride` bytes apart from `p`, lie inside a buffer of `n` bytes. */
  predicate BlockInside(n: int, p: int, stride: int, rows: int, w: int)
  {
    0 <= p && 0 <= stride && 0 <= w && (rows > 0 ==> RowStart(stride, rows - 1) + p + 4 * w <= n)
  }

  lemma BlockInsideRow(n: int, p: int, stride: int, rows: int, w: int, y: int)
    requires BlockInside(n, p, stride, rows, w) && 0 <= y < rows
    ensures 0 <= RowStart(stride, y) && p + RowStart(stride, y) + 4 * w <= n
  {
    if y < rows - 1 {
      RowStartMono(stride, y, rows - 1);
    }
    assert RowStart(stride, y) == y * stride;
  }

  /** Channel `c` summed over the first `w` pixels of row `y`. */
  function RowSum(src: seq<Byte>, p: int, stride: int, y: int, w: int, c: int): int
    requires 0 <= w && 0 <= c < 4 && 0 <= p + RowStart(stride, y) && p + RowStart(stride, y) + 4 * w <= |src|
  {
    if w == 0 then 0 else RowSum(src, p, stride, y, w - 1, c) + src[PixelByte(p, stride, y, w - 1, c)]
  }

  /** Channel `c` summed over the first `rows` rows of `w` pixels. */
  function BlockSum(src: seq<Byte>, p: int, stride: int, rows: int, w: int, c: int): int
    requires 0 <= rows && 0 <= c < 4 && BlockInside(|src|, p, stride, rows, w)
  {
    if rows == 0 then 0
    else
      BlockInsideRow(|src|, p, stride, rows, w, rows - 1);
      if rows > 1 then
        RowStartMono(stride, rows - 2, rows - 1);
        BlockSum(src, p, stride, rows - 1, w, c) + RowSum(src, p, stride, rows - 1, w, c)
      else RowSum(src, p, stride, rows - 1, w, c)
  }

  /**
    The arguments `AvgPixel` is modelled for: a scale from 1 to 4096 (so
    the pixel count fits an `INT` and, by `AvgNoWrap`, the `UINT` sums never
    wrap) and a block inside a source of `n` bytes.
   */
  predicate AvgArgs(n: int, p: int, scale: int, stride: int)
  {
    0 < scale <= 4096 && BlockInside(n, p, stride, scale, scale)
  }

  lemma ScaleSquare(scale: int)
    requires 0 < scale <= 4096
    ensures 0 < scale * scale <= 0x100_0000
  {
    MulLe(scale, 4096, scale);
    MulLe(scale, 4096, 4096);
  }

  lemma MulLe(a: int, b: int, c: int)
    requires 0 <= a <= b && 0 <= c
    ensures a * c <= b * c
  {
    assert b * c - a * c == (b - a) * c;
  }

  /** Division of `s` by `n`, rounding to nearest with halves upwards. */
  function Rounded(s: int, n: int): int
    requires 0 < n
  {
    (s + n / 2) / n
  }

  /** `Rounded` is the nearest multiple: s lies within [-(n/2), n - n/2) of r * n. */
  lemma RoundedNearest(s: int, n: int)
    requires 0 < n
    ensures var r := Rounded(s, n);
      r * n - n / 2 <= s < r * n + n - n / 2
  {
    var t := s + n / 2;
    assert t == (t / n) * n + t % n;
  }

  lemma RowSumBounds(src: seq<Byte>, p: int, stride: int, y: int, w: int, c: int)
    requires 0 <= w && 0 <= c < 4 && 0 <= p + RowStart(stride, y) && p + RowStart(stride, y) + 4 * w <= |src|
    ensures 0 <= RowSum(src, p, stride, y, w, c) <= 255 * w
  {
    if w > 0 {
      RowSumBounds(src, p, stride, y, w - 1, c);
    }
  }

  /** A block of `rows` rows of `w` bytes each sums to at most 255 * rows * w. */
  lemma {:induction false} BlockSumBounds(src: seq<Byte>, p: int, stride: int, rows: int, w: int, c: int)
    requires 0 <= rows && 0 <= c < 4 && BlockInside(|src|, p, stride, rows, w)
    ensures 0 <= BlockSum(src, p, stride, rows, w, c) <= 255 * (rows * w)
  {
    if rows > 0 {
      BlockInsideRow(|src|, p, stride, rows, w, rows - 1);
      RowSumBounds(src, p, stride, rows - 1, w, c);
      if rows > 1 {
        RowStartMono(stride, rows - 2, rows - 1);
        BlockSumBounds(src, p, stride, rows - 1, w, c);
      }
      assert rows * w == (rows - 1) * w + w;
    }
  }

  /**
    Output byte `c` of `AvgPixel`: the channel's block sum divided by the
    pixel count, rounded to nearest; it never exceeds 255, so the store
    into a `BYTE` loses nothing.
   */
  function AvgByte(src: seq<Byte>, p: int, scale: int, stride: int, c: int): Byte
    requires AvgArgs(|src|, p, scale, stride) && 0 <= c < 4
  {
    ScaleSquare(scale);
    BlockSumBounds(src, p, stride, scale, scale, c);
    RoundedLe255(BlockSum(src, p, stride, scale, scale, c), scale * scale);
    Rounded(BlockSum(src, p, stride, scale, scale, c), scale * scale)
  }

  /**
    Up to scale 4096 the source's 32-bit `UINT` arithmetic never wraps: each
    channel sum plus half the pixel count stays below 2^32, and the pixel
    count below 2^31 (an `INT`).
   */
  lemma AvgNoWrap(src: seq<Byte>, p: int, scale: int, stride: int, c: int)
    requires AvgArgs(|src|, p, scale, stride) && 0 <= c < 4
    ensures scale * scale < 0x8000_0000
    ensures 0 <= BlockSum(src, p, stride, scale, scale, c) + scale * scale / 2 < 0x1_0000_0000
  {
    ScaleSquare(scale);
    BlockSumBounds(src, p, stride, scale, scale, c);
  }

  lemma RoundedLe255(s: int, n: int)
    requires 0 < n && 0 <= s <= 255 * n
    ensures 0 <= Rounded(s, n) <= 255
  {
    assert s + n / 2 < 256 * n;
    DivBelow(s + n / 2, n, 256);
  }

  lemma DivBelow(t: int, n: int, k: int)
    requires 0 < n && 0 <= t < k * n
    ensures 0 <= t / n < k
  {
    assert t == (t / n) * n + t % n;
  }

  /** The quotient and remainder of Euclidean division are unique. */
  lemma DivUnique(t: int, n: int, q: int, r: int)
    requires 0 <= r < n && t == q * n + r
    ensures t / n == q && t % n == r
  {
    var q', r' := t / n, t % n;
    assert t == q' * n + r';
    assert (q' - q) * n == r - r';
    MulAtLeast(q' - q, n);
    MulAtLeast(q - q', n);
  }

  lemma MulAtLeast(k: int, n: int)
    requires 0 < n
    ensures k >= 1 ==> k * n >= n
  {
    if k >= 1 {
      assert k * n == (k - 1) * n + n;
      assert (k - 1) * n >= 0;
    }
  }

  /** Channel `c` is `v` in every pixel of the first `rows` rows of `w` pixels. */
  predicate Uniform(src: seq<Byte>, p: int, stride: int, rows: int, w: int, c: int, v: Byte)
    requires 0 <= rows && 0 <= c < 4 && BlockInside(|src|, p, stride, rows, w)
  {
    forall y, x :: 0 <= y < rows && 0 <= x < w ==>
      0 <= PixelByte(p, stride, y, x, c) < |src| && src[PixelByte(p, stride, y, x, c)] == v
  }

  lemma {:induction false} RowSumUniform(src: seq<Byte>, p: int, stride: int, y: int, w: int, c: int, v: Byte)
    requires 0 <= w && 0 <= c < 4 && 0 <= p + RowStart(stride, y) && p + RowStart(stride, y) + 4 * w <= |src|
    requires forall x :: 0 <= x < w ==> src[PixelByte(p, stride, y, x, c)] == v
    ensures RowSum(src, p, stride, y, w, c) == v * w
  {
    if w > 0 {
      RowSumUniform(src, p, stride, y, w - 1, c, v);
    }
  }

  lemma {:induction false} BlockSumUniform(src: seq<Byte>, p: int, stride: int, rows: int, w: int, c: int, v: Byte)
    requires 0 <= rows && 0 <= c < 4 && BlockInside(|src|, p, stride, rows, w)
    requires Uniform(src, p, stride, rows, w, c, v)
    ensures BlockSum(src, p, stride, rows, w, c) == v * (rows * w)
  {
    if rows > 0 {
      BlockInsideRow(|src|, p, stride, rows, w, rows - 1);
      RowSumUniform(src, p, stride, rows - 1, w, c, v);
      if rows > 1 {
        RowStartMono(stride, rows - 2, rows - 1);
        BlockSumUniform(src, p, stride, rows - 1, w, c, v);
      }
      MulStep(v, rows, w);
    }
  }

  lemma MulStep(v: int, rows: int, w: int)
    ensures v * (rows * w) == v * ((rows - 1) * w) + v * w
  {
    assert rows * w == (rows - 1) * w + w;
  }

  /** A block whose channel `c` is `v` everywhere averages to exactly `v`. */
  lemma AvgUniform(src: seq<Byte>, p: int, scale: int, stride: int, c: int, v: Byte)
    requires AvgArgs(|src|, p, scale, stride) && 0 <= c < 4
    requires Uniform(src, p, stride, scale, scale, c, v)
    ensures AvgByte(src, p, scale, stride, c) == v
  {
    ScaleSquare(scale);
    BlockSumUniform(src, p, stride, scale, scale, c, v);
    DivExact(v, scale * scale);
  }

  lemma DivExact(v: int, n: int)
    requires 0 < n && 0 <= v
    ensures (v * n + n / 2) / n == v
  {
    DivUnique(v * n + n / 2, n, v, n / 2);
  }

  /** One more pixel adds its channel `c` byte to the row sum. */
  lemma RowSumNext(src: seq<Byte>, p: int, stride: int, y: int, x: int, w: int)
    requires 0 <= x < w && 0 <= p + RowStart(stride, y) && p + RowStart(stride, y) + 4 * w <= |src|
    ensures forall c :: 0 <= c < 4 ==>
      RowSum(src, p, stride, y, x + 1, c) == RowSum(src, p, stride, y, x, c) + src[PixelByte(p, stride, y, x, 0) + c]
  {
  }

  /**
    The inner loop of `AvgPixel`: adds the four channels of the `w` pixels
    of row `y` to the 32-bit accumulators, pixel by pixel.
   */
  method AddRow(src: seq<Byte>, p: int, stride: int, y: int, w: int, a0: int, r0: int, g0: int, b0: int)
    returns (a: int, r: int, g: int, b: int)
    requires 0 <= w && 0 <= p + RowStart(stride, y) && p + RowStart(stride, y) + 4 * w <= |src|
    ensures a == a0 + (RowSum(src, p, stride, y, w, 0)) && r == r0 + (RowSum(src, p, stride, y, w, 1))
    ensures g == g0 + (RowSum(src, p, stride, y, w, 2)) && b == b0 + (RowSum(src, p, stride, y, w, 3))
  {
    a, r, g, b := a0, r0, g0, b0;
    var ppix := p + RowStart(stride, y);
    var x := 0;
    while x < w
      invariant 0 <= x <= w && ppix == PixelByte(p, stride, y, x, 0)
      invariant a == a0 + (RowSum(src, p, stride, y, x, 0)) && r == r0 + (RowSum(src, p, stride, y, x, 1))
      invariant g == g0 + (RowSum(src, p, stride, y, x, 2)) && b == b0 + (RowSum(src, p, stride, y, x, 3))
    {
      RowSumNext(src, p, stride, y, x, w);
      a := a + src[ppix];
      r := r + src[ppix + 1];
      g := g + src[ppix + 2];
      b := b + src[ppix + 3];
      ppix := ppix + 4;
      x := x + 1;
    }
  }

  /** The outer loop of `AvgPixel`: the four channel sums of the block, row by row. */
  method SumBlock(src: seq<Byte>, p: int, scale: int, stride: int) returns (a: int, r: int, g: int, b: int)
    requires AvgArgs(|src|, p, scale, stride)
    ensures a == BlockSum(src, p, stride, scale, scale, 0) && r == BlockSum(src, p, stride, scale, scale, 1)
    ensures g == BlockSum(src, p, stride, scale, scale, 2) && b == BlockSum(src, p, stride, scale, scale, 3)
  {
    a, r, g, b := 0, 0, 0, 0;
    var y := 0;
    while y < scale
      invariant 0 <= y <= scale
      invariant a == (BlockSum(src, p, stride, y, scale, 0)) && r == (BlockSum(src, p, stride, y, scale, 1))
      invariant g == (BlockSum(src, p, stride, y, scale, 2)) && b == (BlockSum(src, p, stride, y, scale, 3))
    {
      BlockInsideRow(|src|, p, stride, scale, scale, y);
      a, r, g, b := AddRow(src, p, stride, y, scale, a, r, g, b);
      BlockSumNext(src, p, stride, y, scale);
      y := y + 1;
    }
  }

  /**
    `AvgPixel`: sums each channel of the block at `p` row by row into
    32-bit accumulators, then writes the four rounded averages to
    `dest[d ..< d + 4]` in memory order, and nothing else.
   */
  method AvgPixel(dest: array<Byte>, d: int, src: seq<Byte>, p: int, scale: int, stride: int)
    requires AvgArgs(|src|, p, scale, stride)
    requires 0 <= d && d + 4 <= dest.Length
    modifies dest
    ensures forall c :: 0 <= c < 4 ==> dest[d + c] == AvgByte(src, p, scale, stride, c)
    ensures dest[..d] == old(dest[..d]) && dest[d + 4..] == old(dest[d + 4..])
  {
    var a, r, g, b := SumBlock(src, p, scale, stride);
    var n := scale * scale;
    ScaleSquare(scale);
    ghost var before := dest[..];
    dest[d] := AvgOf(src, p, scale, stride, 0, a);
    dest[d + 1] := AvgOf(src, p, scale, stride, 1, r);
    dest[d + 2] := AvgOf(src, p, scale, stride, 2, g);
    dest[d + 3] := AvgOf(src, p, scale, stride, 3, b);
    assert dest[..d] == before[..d];
    assert dest[d + 4..] == before[d + 4..];
  }

  /** `(sum + (n/2)) / n` of one accumulator holding the block sum of channel `c`. */
  method AvgOf(src: seq<Byte>, p: int, scale: int, stride: int, c: int, sum: int) returns (v: Byte)
    requires AvgArgs(|src|, p, scale, stride) && 0 <= c < 4 && sum == BlockSum(src, p, stride, scale, scale, c)
    ensures v == AvgByte(src, p, scale, stride, c)
  {
    var n := scale * scale;
    ScaleSquare(scale);
    BlockSumBounds(src, p, stride, scale, scale, c);
    RoundedLe255(sum, n);
    v := (sum + n / 2) / n;
  }

  /** One more row adds that row's sum. */
  lemma BlockSumNext(src: seq<Byte>, p: int, stride: int, y: int, w: int)
    requires 0 <= y && BlockInside(|src|, p, stride, y + 1, w)
    ensures BlockInside(|src|, p, stride, y, w) && 0 <= p + RowStart(stride, y) && p + RowStart(stride, y) + 4 * w <= |src|
    ensures forall c :: 0 <= c < 4 ==>
      BlockSum(src, p, stride, y + 1, w, c) == BlockSum(src, p, stride, y, w, c) + RowSum(src, p, stride, y, w, c)
  {
    BlockInsideRow(|src|, p, stride, y + 1, w, y);
    if y > 0 {
      RowStartMono(stride, y - 1, y);
    }
  }

  // ---------------------------------------------------------------------------
  // SimpleDownscale

  /** The source offset `SimpleDownscale` hands to `AvgPixel` for destination pixel (x, y): row y * scale, byte x * scale * 4. */
  function SrcPixel(sstride: int, scale: int, y: int, x: int): int
  {
    RowStart(sstride, y * scale) + 4 * (x * scale)
  }

  /** The source rows and columns `SimpleDownscale` reads lie inside a buffer of `n` bytes. */
  predicate SourceArgs(n: int, sstride: int, scale: int, ix: int, iy: int)
  {
    0 < scale <= 4096 && 0 <= sstride && 0 <= ix && 0 <= iy
    && (0 < ix && 0 < iy ==> RowStart(sstride, iy * scale - 1) + 4 * (ix * scale) <= n)
  }

  /** The destination rows hold `ix` pixels each (a positive stride of at least 4 * ix) inside a buffer of `n` bytes. */
  predicate DestArgs(n: int, istride: int, ix: int, iy: int)
  {
    0 <= ix && 0 <= iy && 0 < istride && 4 * ix <= istride
    && (0 < ix && 0 < iy ==> RowStart(istride, iy - 1) + 4 * ix <= n)
  }

  lemma SrcBlockInside(n: int, sstride: int, scale: int, ix: int, iy: int, y: int, x: int)
    requires SourceArgs(n, sstride, scale, ix, iy) && 0 <= y < iy && 0 <= x < ix
    ensures AvgArgs(n, SrcPixel(sstride, scale, y, x), scale, sstride)
  {
    MulLe(0, y, scale);
    MulLe(0, x, scale);
    MulLe(y + 1, iy, scale);
    MulLe(x + 1, ix, scale);
    var top := y * scale + scale - 1;
    assert RowStart(sstride, y * scale) + RowStart(sstride, scale - 1) == RowStart(sstride, top) by {
      assert (y * scale) * sstride + (scale - 1) * sstride == (y * scale + scale - 1) * sstride;
    }
    assert top <= iy * scale - 1 by {
      assert (y + 1) * scale == y * scale + scale;
    }
    if top < iy * scale - 1 {
      RowStartMono(sstride, top, iy * scale - 1);
    }
    MulLe(0, y * scale, sstride);
    assert 4 * (x * scale) + 4 * scale <= 4 * (ix * scale) by {
      assert (x + 1) * scale == x * scale + scale;
    }
  }

  /** Channel `c` of destination pixel (x, y) after `SimpleDownscale`: the rounded average of its source block. */
  function DownscaledByte(src: seq<Byte>, sstride: int, scale: int, ix: int, iy: int, y: int, x: int, c: int): Byte
    requires SourceArgs(|src|, sstride, scale, ix, iy) && 0 <= y < iy && 0 <= x < ix && 0 <= c < 4
  {
    SrcBlockInside(|src|, sstride, scale, ix, iy, y, x);
    AvgByte(src, SrcPixel(sstride, scale, y, x), scale, sstride, c)
  }

  /** Byte `k` of the destination belongs to one of the `ix` by `iy` pixels. */
  predicate InImage(istride: int, ix: int, iy: int, k: int)
  {
    0 < istride && 0 <= k && k / istride < iy && k % istride < 4 * ix
  }

  /** The pixels before (x, y) in row order hold their averages. */
  predicate Done(s: seq<Byte>, src: seq<Byte>, istride: int, sstride: int, scale: int, ix: int, iy: int, y: int, x: int)
    requires SourceArgs(|src|, sstride, scale, ix, iy) && y <= iy
  {
    forall yy, xx, c :: 0 <= yy <= y && yy < iy && 0 <= xx < ix && 0 <= c < 4 && (yy < y || xx < x) ==>
      0 <= PixelByte(0, istride, yy, xx, c) < |s| && s[PixelByte(0, istride, yy, xx, c)] == DownscaledByte(src, sstride, scale, ix, iy, yy, xx, c)
  }

  lemma PixelInside(n: int, istride: int, ix: int, iy: int, y: int, x: int)
    requires DestArgs(n, istride, ix, iy) && 0 <= y < iy && 0 <= x < ix
    ensures 0 <= PixelByte(0, istride, y, x, 0) && PixelByte(0, istride, y, x, 0) + 4 <= n
  {
    MulLe(0, y, istride);
    if y < iy - 1 {
      RowStartMono(istride, y, iy - 1);
    }
  }

  /** A pixel earlier in row order lies wholly before a later one. */
  lemma PixelBefore(istride: int, ix: int, yy: int, xx: int, c: int, y: int, x: int)
    requires 0 < istride && 4 * ix <= istride && 0 <= xx < ix && 0 <= c < 4 && (yy < y || (yy == y && xx < x))
    ensures PixelByte(0, istride, yy, xx, c) < PixelByte(0, istride, y, x, 0) || x < 0
  {
    if yy < y {
      RowStartMono(istride, yy, y);
    }
  }

  /** The four bytes of pixel (x, y) belong to the image. */
  lemma PixelInImage(istride: int, ix: int, iy: int, y: int, x: int)
    requires 0 < istride && 4 * ix <= istride && 0 <= y < iy && 0 <= x < ix
    ensures forall k :: PixelByte(0, istride, y, x, 0) <= k < PixelByte(0, istride, y, x, 0) + 4 ==> InImage(istride, ix, iy, k)
  {
    forall k | PixelByte(0, istride, y, x, 0) <= k < PixelByte(0, istride, y, x, 0) + 4
      ensures InImage(istride, ix, iy, k)
    {
      MulLe(0, y, istride);
      DivUnique(k, istride, y, k - RowStart(istride, y));
    }
  }

  /** Writing only at and after pixel (x, y) keeps the pixels before it. */
  lemma DoneKept(s: seq<Byte>, t: seq<Byte>, src: seq<Byte>, istride: int, sstride: int, scale: int, ix: int, iy: int, y: int, x: int)
    requires SourceArgs(|src|, sstride, scale, ix, iy) && y < iy && 0 <= x && 0 < istride && 4 * ix <= istride
    requires Done(s, src, istride, sstride, scale, ix, iy, y, x)
    requires 0 <= PixelByte(0, istride, y, x, 0) <= |s| == |t| && t[..PixelByte(0, istride, y, x, 0)] == s[..PixelByte(0, istride, y, x, 0)]
    ensures Done(t, src, istride, sstride, scale, ix, iy, y, x)
  {
    var d := PixelByte(0, istride, y, x, 0);
    forall yy, xx, c | 0 <= yy <= y && yy < iy && 0 <= xx < ix && 0 <= c < 4 && (yy < y || xx < x)
      ensures 0 <= PixelByte(0, istride, yy, xx, c) < |t| && t[PixelByte(0, istride, yy, xx, c)] == DownscaledByte(src, sstride, scale, ix, iy, yy, xx, c)
    {
      PixelBefore(istride, ix, yy, xx, c, y, x);
      assert t[PixelByte(0, istride, yy, xx, c)] == t[..d][PixelByte(0, istride, yy, xx, c)];
    }
  }

  /** Every byte of `s` outside the image still has its value in `orig`. */
  predicate Untouched(s: seq<Byte>, orig: seq<Byte>, istride: int, ix: int, iy: int)
  {
    |s| == |orig| && forall k :: 0 <= k < |s| && !InImage(istride, ix, iy, k) ==> s[k] == orig[k]
  }

  /** Rewriting the four bytes of pixel (x, y) touches nothing outside the image. */
  lemma UntouchedKept(s: seq<Byte>, t: seq<Byte>, orig: seq<Byte>, istride: int, ix: int, iy: int, y: int, x: int)
    requires 0 < istride && 4 * ix <= istride && 0 <= y < iy && 0 <= x < ix
    requires Untouched(s, orig, istride, ix, iy) && |t| == |s|
    requires 0 <= PixelByte(0, istride, y, x, 0) && PixelByte(0, istride, y, x, 0) + 4 <= |s|
    requires t[..PixelByte(0, istride, y, x, 0)] == s[..PixelByte(0, istride, y, x, 0)]
    requires t[PixelByte(0, istride, y, x, 0) + 4..] == s[PixelByte(0, istride, y, x, 0) + 4..]
    ensures Untouched(t, orig, istride, ix, iy)
  {
    var d := PixelByte(0, istride, y, x, 0);
    PixelInImage(istride, ix, iy, y, x);
    forall k | 0 <= k < |t| && !InImage(istride, ix, iy, k)
      ensures t[k] == orig[k]
    {
      assert k < d || d + 4 <= k;
      if k < d {
        assert t[k] == t[..d][k];
      } else {
        assert t[k] == t[d + 4..][k - d - 4];
      }
    }
  }

  /** The inner loop of `SimpleDownscale`: the pixels of row `y`, left to right. */
  method DownscaleRow(dest: array<Byte>, istride: int, ix: int, iy: int, src: seq<Byte>, sstride: int, scale: int, y: int, ghost orig: seq<Byte>)
    requires SourceArgs(|src|, sstride, scale, ix, iy) && DestArgs(dest.Length, istride, ix, iy) && 0 <= y < iy
    requires Done(dest[..], src, istride, sstride, scale, ix, iy, y, 0) && Untouched(dest[..], orig, istride, ix, iy)
    modifies dest
    ensures Done(dest[..], src, istride, sstride, scale, ix, iy, y + 1, 0) && Untouched(dest[..], orig, istride, ix, iy)
  {
    var ip := RowStart(istride, y);
    var sp := RowStart(sstride, y * scale);
    var x := 0;
    if ix == 0 {
      DoneRowEmpty(dest[..], src, istride, sstride, scale, ix, iy, y);
    }
    while x < ix
      invariant 0 <= x <= ix && ip == PixelByte(0, istride, y, x, 0) && sp == SrcPixel(sstride, scale, y, x)
      invariant Done(dest[..], src, istride, sstride, scale, ix, iy, y, x) && Untouched(dest[..], orig, istride, ix, iy)
      invariant x == ix ==> Done(dest[..], src, istride, sstride, scale, ix, iy, y + 1, 0)
    {
      SrcBlockInside(|src|, sstride, scale, ix, iy, y, x);
      PixelInside(dest.Length, istride, ix, iy, y, x);
      ghost var before := dest[..];
      AvgPixel(dest, ip, src, sp, scale, sstride);
      DoneKept(before, dest[..], src, istride, sstride, scale, ix, iy, y, x);
      DoneNext(dest[..], src, istride, sstride, scale, ix, iy, y, x);
      UntouchedKept(before, dest[..], orig, istride, ix, iy, y, x);
      ip := ip + 4;
      sp := sp + scale * 4;
      x := x + 1;
    }
  }

  /** A row of no pixels finishes at once. */
  lemma DoneRowEmpty(s: seq<Byte>, src: seq<Byte>, istride: int, sstride: int, scale: int, ix: int, iy: int, y: int)
    requires SourceArgs(|src|, sstride, scale, ix, iy) && 0 <= y < iy && ix == 0
    ensures Done(s, src, istride, sstride, scale, ix, iy, y + 1, 0)
  {
  }

  /**
    `SimpleDownscale` over locked pixel buffers: `dest` holds the small
    image (`ix` by `iy` pixels, rows `istride` bytes apart) and `src` the
    image `scale` times larger (rows `sstride` bytes apart). Every pixel of
    the small image becomes the rounded average of its scale-by-scale
    source block; the padding at the end of each row is left alone.
   */
  method SimpleDownscale(dest: array<Byte>, istride: int, ix: int, iy: int, src: seq<Byte>, sstride: int, scale: int)
    requires SourceArgs(|src|, sstride, scale, ix, iy) && DestArgs(dest.Length, istride, ix, iy)
    modifies dest
    ensures Done(dest[..], src, istride, sstride, scale, ix, iy, iy, 0)
    ensures forall k :: 0 <= k < dest.Length && !InImage(istride, ix, iy, k) ==> dest[k] == old(dest[k])
  {
    ghost var orig := dest[..];
    var y := 0;
    while y < iy
      invariant 0 <= y <= iy
      invariant Done(dest[..], src, istride, sstride, scale, ix, iy, y, 0) && Untouched(dest[..], orig, istride, ix, iy)
    {
      DownscaleRow(dest, istride, ix, iy, src, sstride, scale, y, orig);
      y := y + 1;
    }
  }

  /** Pixel (x, y) written with its averages extends the finished prefix by one pixel. */
  lemma DoneNext(s: seq<Byte>, src: seq<Byte>, istride: int, sstride: int, scale: int, ix: int, iy: int, y: int, x: int)
    requires SourceArgs(|src|, sstride, scale, ix, iy) && 0 <= y < iy && 0 <= x < ix
    requires Done(s, src, istride, sstride, scale, ix, iy, y, x)
    requires 0 <= PixelByte(0, istride, y, x, 0) && PixelByte(0, istride, y, x, 0) + 4 <= |s|
    requires forall c :: 0 <= c < 4 ==> s[PixelByte(0, istride, y, x, 0) + c] == DownscaledByte(src, sstride, scale, ix, iy, y, x, c)
    ensures Done(s, src, istride, sstride, scale, ix, iy, y, x + 1)
    ensures x + 1 == ix ==> Done(s, src, istride, sstride, scale, ix, iy, y + 1, 0)
  {
  }

  /** Channel `c` is `v` in every pixel of the `ix * scale` by `iy * scale` source image. */
  predicate FlatSource(src: seq<Byte>, sstride: int, scale: int, ix: int, iy: int, c: int, v: Byte)
  {
    forall y, x :: 0 <= y < iy * scale && 0 <= x < ix * scale ==>
      0 <= PixelByte(0, sstride, y, x, c) < |src| && src[PixelByte(0, sstride, y, x, c)] == v
  }

  /** Pixel (xx, yy) of the block of destination pixel (x, y) is source pixel (x * scale + xx, y * scale + yy). */
  lemma BlockPixel(sstride: int, scale: int, y: int, x: int, yy: int, xx: int, c: int)
    ensures PixelByte(SrcPixel(sstride, scale, y, x), sstride, yy, xx, c) == PixelByte(0, sstride, y * scale + yy, x * scale + xx, c)
  {
    assert (y * scale) * sstride + yy * sstride == (y * scale + yy) * sstride;
  }

  /** Coordinate `yy` of the block of destination coordinate `y` is inside the source. */
  lemma BlockCoord(scale: int, y: int, iy: int, yy: int)
    requires 0 <= y < iy && 0 <= yy < scale
    ensures 0 <= y * scale + yy < iy * scale
  {
    MulLe(0, y, scale);
    MulLe(y + 1, iy, scale);
    assert (y + 1) * scale == y * scale + scale;
  }

  /** A source image whose channel `c` is flat downscales to the same flat channel. */
  lemma DownscaleFlat(src: seq<Byte>, sstride: int, scale: int, ix: int, iy: int, c: int, v: Byte, y: int, x: int)
    requires SourceArgs(|src|, sstride, scale, ix, iy) && 0 <= y < iy && 0 <= x < ix && 0 <= c < 4
    requires FlatSource(src, sstride, scale, ix, iy, c, v)
    ensures DownscaledByte(src, sstride, scale, ix, iy, y, x, c) == v
  {
    SrcBlockInside(|src|, sstride, scale, ix, iy, y, x);
    var p := SrcPixel(sstride, scale, y, x);
    forall yy, xx | 0 <= yy < scale && 0 <= xx < scale
      ensures 0 <= PixelByte(p, sstride, yy, xx, c) < |src| && src[PixelByte(p, sstride, yy, xx, c)] == v
    {
      BlockPixel(sstride, scale, y, x, yy, xx, c);
      BlockCoord(scale, y, iy, yy);
      BlockCoord(scale, x, ix, xx);
    }
    AvgUniform(src, p, scale, sstride, c, v);
  }
}
