// The pixel data path of the animation player (main/animation_player.c):
// the rgb565 packer, the nearest-neighbour lookup tables that map LCD
// coordinates to canvas coordinates, and the row blit that converts an
// RGBA8888 canvas into the LCD frame buffer, run as two disjoint row ranges.
//
// The LCD frame buffer is a two-dimensional byte array: Length0 is the number
// of rows (V_RES) and Length1 is the row stride in bytes, so byte k of row y
// is the byte at y * stride + k of the flat buffer. 16-bit pixels are stored
// little-endian, as on the ESP32-P4.
module Upscale {
  import opened Esp

  /** The LCD pixel format chosen at build time (BIT_PER_PIXEL 16 or 24). */
  datatype PixelFormat = RGB565 | RGB888

  /** Modulus of a uint16_t lookup-table entry. */
  const U16: int := 0x1_0000

  /** Packs 8-bit channels into an RGB565 word (rgb565). */
  function Rgb565(r: bv8, g: bv8, b: bv8): bv16
  {
    ((r & 0xF8) as bv16 << 8) | ((g & 0xFC) as bv16 << 3) | ((b as bv16) >> 3)
  }

  /** The packed word keeps the top 5, 6 and 5 bits of red, green and blue in bits 15..11, 10..5 and 4..0. */
  lemma Rgb565Fields(r: bv8, g: bv8, b: bv8)
    ensures Rgb565(r, g, b) >> 11 == (r >> 3) as bv16
    ensures (Rgb565(r, g, b) >> 5) & 0x3F == (g >> 2) as bv16
    ensures Rgb565(r, g, b) & 0x1F == (b >> 3) as bv16
  {
  }

  /**
   * The lookup entry for destination coordinate d: floor(d * canvas / target),
   * clamped to canvas - 1 and stored as a uint16_t (so canvas 0 gives 65535).
   */
  function LookupEntry(d: nat, canvas: nat, target: nat): int
    requires target > 0
  {
    var s := (d * canvas) / target;
    (if s >= canvas then canvas - 1 else s) % U16
  }

  /** Fills a lookup table of target entries, as the two fill loops of the decoder setup do. */
  method BuildLookup(canvas: nat, target: nat) returns (table: array<int>)
    ensures table.Length == target
    ensures forall d :: 0 <= d < target ==> table[d] == LookupEntry(d, canvas, target)
  {
    table := new int[target];
    var d := 0;
    while d < target
      invariant 0 <= d <= target
      invariant forall e :: 0 <= e < d ==> table[e] == LookupEntry(e, canvas, target)
    {
      var s := (d * canvas) / target;
      if s >= canvas {
        s := canvas - 1;
      }
      table[d] := s % U16;
      d := d + 1;
    }
  }

  lemma MulMonotone(a: int, b: int, c: nat)
    requires a <= b
    ensures a * c <= b * c
  {
  }

  lemma DivMonotone(a: nat, b: nat, t: nat)
    requires a <= b && t > 0
    ensures a / t <= b / t
  {
    if a / t > b / t {
      MulMonotone(b / t + 1, a / t, t);
      assert false;
    }
  }

  /** x / t is q exactly when q * t <= x < (q + 1) * t. */
  lemma DivIsQuotient(x: nat, t: nat, q: nat)
    requires t > 0 && q * t <= x < (q + 1) * t
    ensures x / t == q
  {
    var r := x / t;
    if r < q {
      MulMonotone(r + 1, q, t);
      assert false;
    } else if r > q {
      MulMonotone(q + 1, r, t);
      assert false;
    }
  }

  /** Below target, the clamp never fires: the entry is the plain quotient. */
  lemma {:induction false} LookupIsQuotient(d: nat, canvas: nat, target: nat)
    requires 1 <= canvas <= U16 && d < target
    ensures LookupEntry(d, canvas, target) == (d * canvas) / target
    ensures 0 <= (d * canvas) / target < canvas
  {
    MulMonotone(d + 1, target, canvas);
    if (d * canvas) / target >= canvas {
      MulMonotone(canvas, (d * canvas) / target, target);
      assert false;
    }
  }

  /** Every entry lies in [0, canvas) and entry 0 is 0. */
  lemma LookupInRange(d: nat, canvas: nat, target: nat)
    requires 1 <= canvas <= U16 && d < target
    ensures 0 <= LookupEntry(d, canvas, target) < canvas
    ensures LookupEntry(0, canvas, target) == 0
  {
    LookupIsQuotient(d, canvas, target);
    LookupIsQuotient(0, canvas, target);
  }

  /** The table is non-decreasing. */
  lemma LookupMonotone(d1: nat, d2: nat, canvas: nat, target: nat)
    requires 1 <= canvas <= U16 && d1 <= d2 < target
    ensures LookupEntry(d1, canvas, target) <= LookupEntry(d2, canvas, target)
  {
    LookupIsQuotient(d1, canvas, target);
    LookupIsQuotient(d2, canvas, target);
    MulMonotone(d1, d2, canvas);
    DivMonotone(d1 * canvas, d2 * canvas, target);
  }

  lemma DivBracket(n: nat, k: nat)
    requires k > 0
    ensures n - k < (n / k) * k <= n
  {
  }

  /** When the canvas is no larger than the target, every canvas coordinate is sampled. */
  lemma LookupCovers(c: nat, canvas: nat, target: nat) returns (d: nat)
    requires 1 <= canvas <= target && canvas <= U16 && c < canvas
    ensures d < target && LookupEntry(d, canvas, target) == c
  {
    var n := c * target + canvas - 1;
    d := n / canvas;
    DivBracket(n, canvas);
    assert (c + 1) * target == c * target + target;
    DivIsQuotient(d * canvas, target, c);
    MulMonotone(c, canvas - 1, target);
    if d >= target {
      MulMonotone(target, d, canvas);
      assert false;
    }
    LookupIsQuotient(d, canvas, target);
  }

  /** Entry i of a lookup table, 0 outside the table. */
  function At(s: seq<int>, i: int): int { if 0 <= i < |s| then s[i] else 0 }

  /** Byte i of a canvas, 0 outside it. */
  function Channel(src: seq<bv8>, i: int): bv8 { if 0 <= i < |src| then src[i] else 0 }

  /** Offset of the RGBA source pixel sampled for destination pixel (x, y). */
  function SourceBase(srcW: int, lx: seq<int>, ly: seq<int>, x: int, y: int): int
  {
    At(ly, y) * srcW * 4 + At(lx, x) * 4
  }

  /** Does the blit write byte k of a row with the given stride? */
  predicate ColumnWritten(fmt: PixelFormat, dstW: int, stride: int, k: int)
  {
    match fmt
    case RGB565 => 0 <= k < 2 * dstW
    case RGB888 => 0 <= k < 3 * dstW && (k / 3) * 3 + 2 < stride
  }

  /** Does a blit of [rowStart, rowEnd) write row y? */
  predicate RowWritten(srcW: int, srcH: int, dstW: int, dstH: int, rowStart: int, rowEnd: int, y: int)
  {
    srcW > 0 && srcH > 0 && dstW > 0 && dstH > 0 && Max(rowStart, 0) <= y < Min(rowEnd, dstH)
  }

  /**
   * The byte the blit stores at byte k of row y: the low or high byte of the
   * packed word in RGB565 mode, and blue, green, red in RGB888 mode.
   */
  function ExpectedByte(src: seq<bv8>, srcW: int, lx: seq<int>, ly: seq<int>, fmt: PixelFormat, y: int, k: int): bv8
  {
    match fmt
    case RGB565 =>
      var base := SourceBase(srcW, lx, ly, k / 2, y);
      var w := Rgb565(Channel(src, base), Channel(src, base + 1), Channel(src, base + 2));
      if k % 2 == 0 then (w & 0xFF) as bv8 else (w >> 8) as bv8
    case RGB888 =>
      var base := SourceBase(srcW, lx, ly, k / 3, y);
      Channel(src, base + 2 - k % 3)
  }

  /** What the caller of the blit guarantees: tables and buffers large enough for every access. */
  predicate BlitSafe(srcLen: int, srcW: int, srcH: int, rows: int, stride: int, dstW: int, dstH: int,
                     lx: seq<int>, ly: seq<int>, fmt: PixelFormat)
  {
    (srcW > 0 && srcH > 0 && dstW > 0 && dstH > 0) ==>
      dstH <= rows && dstW <= |lx| && dstH <= |ly| && srcW * srcH * 4 <= srcLen &&
      (forall x :: 0 <= x < dstW ==> 0 <= lx[x] < srcW) &&
      (forall y :: 0 <= y < dstH ==> 0 <= ly[y] < srcH) &&
      (fmt == RGB565 ==> 2 * dstW <= stride)
  }

  lemma PixelInBounds(row: int, col: int, w: int, h: int)
    requires 0 <= row < h && 0 <= col < w
    ensures 0 <= row * w * 4 + col * 4 && row * w * 4 + col * 4 + 3 < w * h * 4
  {
    MulMonotone(row + 1, h, w);
    assert row * w * 4 + col * 4 == 4 * (row * w + col);
    assert 0 <= row * w;
  }

  method BlitRow565(src: seq<bv8>, srcW: int, srcH: int, dst: array2<bv8>, dstW: int, y: int, lx: seq<int>, ly: seq<int>)
    requires 0 <= y < dst.Length0 && y < |ly| && 0 <= ly[y] < srcH && 0 < srcW
    requires dstW <= |lx| && 2 * dstW <= dst.Length1 && srcW * srcH * 4 <= |src|
    requires forall x :: 0 <= x < dstW ==> 0 <= lx[x] < srcW
    modifies dst
    ensures forall r, k :: 0 <= r < dst.Length0 && 0 <= k < dst.Length1 ==>
      dst[r, k] == if r == y && ColumnWritten(RGB565, dstW, dst.Length1, k)
                   then ExpectedByte(src, srcW, lx, ly, RGB565, y, k) else old(dst[r, k])
  {
    var srcRow := ly[y] * srcW * 4;
    var x := 0;
    while x < dstW
      invariant 0 <= x <= Max(dstW, 0)
      invariant forall r, k :: 0 <= r < dst.Length0 && 0 <= k < dst.Length1 ==>
        dst[r, k] == if r == y && 0 <= k < 2 * x then ExpectedByte(src, srcW, lx, ly, RGB565, y, k) else old(dst[r, k])
    {
      var base := srcRow + lx[x] * 4;
      PixelInBounds(ly[y], lx[x], srcW, srcH);
      var w := Rgb565(src[base], src[base + 1], src[base + 2]);
      dst[y, 2 * x] := (w & 0xFF) as bv8;
      dst[y, 2 * x + 1] := (w >> 8) as bv8;
      x := x + 1;
    }
  }

  method BlitRow888(src: seq<bv8>, srcW: int, srcH: int, dst: array2<bv8>, dstW: int, y: int, lx: seq<int>, ly: seq<int>)
    requires 0 <= y < dst.Length0 && y < |ly| && 0 <= ly[y] < srcH && 0 < srcW
    requires dstW <= |lx| && srcW * srcH * 4 <= |src|
    requires forall x :: 0 <= x < dstW ==> 0 <= lx[x] < srcW
    modifies dst
    ensures forall r, k :: 0 <= r < dst.Length0 && 0 <= k < dst.Length1 ==>
      dst[r, k] == if r == y && ColumnWritten(RGB888, dstW, dst.Length1, k)
                   then ExpectedByte(src, srcW, lx, ly, RGB888, y, k) else old(dst[r, k])
  {
    var stride := dst.Length1;
    var srcRow := ly[y] * srcW * 4;
    var x := 0;
    while x < dstW
      invariant 0 <= x <= Max(dstW, 0)
      invariant forall r, k :: 0 <= r < dst.Length0 && 0 <= k < dst.Length1 ==>
        dst[r, k] == if r == y && 0 <= k < 3 * x && (k / 3) * 3 + 2 < stride
                     then ExpectedByte(src, srcW, lx, ly, RGB888, y, k) else old(dst[r, k])
    {
      var base := srcRow + lx[x] * 4;
      PixelInBounds(ly[y], lx[x], srcW, srcH);
      var idx := x * 3;
      if idx + 2 < stride {
        dst[y, idx] := src[base + 2];
        dst[y, idx + 1] := src[base + 1];
        dst[y, idx + 2] := src[base];
      }
      x := x + 1;
    }
  }

  /**
   * blit_webp_frame_rows: clamps the row range to [0, dstH) and fills exactly
   * those rows, leaving every other row and every unwritten column as it was.
   */
  method BlitRows(src: seq<bv8>, srcW: int, srcH: int, dst: array2<bv8>, dstW: int, dstH: int,
                  rowStart: int, rowEnd: int, lx: seq<int>, ly: seq<int>, fmt: PixelFormat)
    requires BlitSafe(|src|, srcW, srcH, dst.Length0, dst.Length1, dstW, dstH, lx, ly, fmt)
    modifies dst
    ensures forall r, k :: 0 <= r < dst.Length0 && 0 <= k < dst.Length1 ==>
      dst[r, k] == if RowWritten(srcW, srcH, dstW, dstH, rowStart, rowEnd, r) && ColumnWritten(fmt, dstW, dst.Length1, k)
                   then ExpectedByte(src, srcW, lx, ly, fmt, r, k) else old(dst[r, k])
  {
    if srcW <= 0 || srcH <= 0 || dstW <= 0 || dstH <= 0 {
      return;
    }
    var lo := if rowStart < 0 then 0 else rowStart;
    var hi := if rowEnd > dstH then dstH else rowEnd;
    if lo >= hi {
      return;
    }
    var y := lo;
    while y < hi
      invariant lo <= y <= hi
      invariant forall r, k :: 0 <= r < dst.Length0 && 0 <= k < dst.Length1 ==>
        dst[r, k] == if lo <= r < y && ColumnWritten(fmt, dstW, dst.Length1, k)
                     then ExpectedByte(src, srcW, lx, ly, fmt, r, k) else old(dst[r, k])
    {
      if fmt == RGB565 {
        BlitRow565(src, srcW, srcH, dst, dstW, y, lx, ly);
      } else {
        BlitRow888(src, srcW, srcH, dst, dstW, y, lx, ly);
      }
      y := y + 1;
    }
  }

  /**
   * The upscale of render_next_frame: the top worker blits [0, h/2) and the
   * bottom worker [h/2, h), here one after the other. Together they leave the
   * frame buffer exactly as one blit of all rows [0, h) would.
   */
  method UpscaleFrame(src: seq<bv8>, srcW: int, srcH: int, dst: array2<bv8>, dstW: int, dstH: int,
                      lx: seq<int>, ly: seq<int>, fmt: PixelFormat)
    requires BlitSafe(|src|, srcW, srcH, dst.Length0, dst.Length1, dstW, dstH, lx, ly, fmt)
    modifies dst
    ensures forall r, k :: 0 <= r < dst.Length0 && 0 <= k < dst.Length1 ==>
      dst[r, k] == if RowWritten(srcW, srcH, dstW, dstH, 0, dstH, r) && ColumnWritten(fmt, dstW, dst.Length1, k)
                   then ExpectedByte(src, srcW, lx, ly, fmt, r, k) else old(dst[r, k])
  {
    var mid := dstH / 2;
    BlitRows(src, srcW, srcH, dst, dstW, dstH, 0, mid, lx, ly, fmt);
    BlitRows(src, srcW, srcH, dst, dstW, dstH, mid, dstH, lx, ly, fmt);
  }

  /** The two worker ranges are disjoint and cover every row of the frame. */
  lemma HalvesPartitionRows(srcW: int, srcH: int, dstW: int, dstH: int, y: int)
    ensures RowWritten(srcW, srcH, dstW, dstH, 0, dstH, y) <==>
      (RowWritten(srcW, srcH, dstW, dstH, 0, dstH / 2, y) || RowWritten(srcW, srcH, dstW, dstH, dstH / 2, dstH, y))
    ensures !(RowWritten(srcW, srcH, dstW, dstH, 0, dstH / 2, y) && RowWritten(srcW, srcH, dstW, dstH, dstH / 2, dstH, y))
  {
  }
}
