// The MCU geometry the frame readers and the restart logic compute
// (decoder.rs:307-388 and 488-494): the padded width, the blocks of one
// MCU with its u8 accumulator, the size of a row of MCUs, and the number
// of MCUs in the image.
module Geometry {
  import opened Base

  /** `8 * ((width + 7) / 8)` (decoder.rs:333): the width rounded up to a
      whole number of blocks. */
  function PaddedWidth(width: int): (r: int)
    requires IsU16(width)
    ensures r % 8 == 0 && width <= r < width + 8
  {
    8 * ((width + 7) / 8)
  }

  /** The sampling factors of a component's `hv` byte (decoder.rs:349-350). */
  function HFactor(hv: byte): int { hv / 16 }
  function VFactor(hv: byte): int { hv % 16 }

  /** The number of blocks in an MCU, the sum of h * v over the
      components of a frame (section A.2.2 of ITU-T T.81); read_frame_components
      accumulates it in a u8 (decoder.rs:357). */
  function SumHV(hvs: seq<byte>): nat
  {
    if |hvs| == 0 then 0 else SumHV(hvs[..|hvs| - 1]) + HFactor(hvs[|hvs| - 1]) * VFactor(hvs[|hvs| - 1])
  }

  /** The u8 accumulator overflows on some component exactly when the
      whole sum does not fit: no partial sum exceeds the whole. */
  lemma {:induction false} SumHVPrefix(hvs: seq<byte>, k: nat)
    requires k <= |hvs|
    ensures SumHV(hvs[..k]) <= SumHV(hvs)
    decreases |hvs|
  {
    if k < |hvs| {
      assert hvs[..|hvs| - 1][..k] == hvs[..k];
      SumHVPrefix(hvs[..|hvs| - 1], k);
    } else {
      assert hvs[..k] == hvs;
    }
  }

  /** The length of the MCU buffer (decoder.rs:380): 64 bytes per block,
      with a single component always one block. */
  function McuLength(n: byte, blocks: int): (r: int)
    requires 0 <= blocks <= 0xFF
    ensures n == 1 ==> r == 64
    ensures n != 1 ==> r == 64 * blocks
  {
    if n == 1 then 64 else blocks * 64
  }

  /** `mcu_row_len` (decoder.rs:382-383): hmax * vmax * mcu.len() times
      the MCUs in a row. The f32 `ceil` of width / (8 * hmax) is the
      integer ceiling: the quotient's denominator is at most 120, so it is
      never within an f32 rounding step of an integer without being one.
      With hmax = 0 the f32 quotient is infinite and saturates, but the
      product is 0 because its first factor is. */
  function McuRowLength(width: int, hmax: int, vmax: int, mcuLen: nat): (r: nat)
    requires IsU16(width) && 0 <= hmax <= 15 && 0 <= vmax <= 15
  {
    if hmax == 0 then 0 else hmax * vmax * mcuLen * CeilDiv(width, 8 * hmax)
  }

  /** For a grayscale frame with nonzero sampling factors the row buffer
      holds eight rows of the padded width, which is what the placement of
      each MCU of a row needs. */
  lemma GrayRowBufferFits(width: int, hmax: int, vmax: int)
    requires IsU16(width) && 1 <= hmax <= 15 && 1 <= vmax <= 15
    ensures McuRowLength(width, hmax, vmax, 64) >= 8 * PaddedWidth(width)
  {
    var c := CeilDiv(width, 8 * hmax);
    // m blocks of 8 columns cover the width, so at least the padded width.
    var m := hmax * c;
    RowRegroup(hmax, vmax, c);
    BlocksCoverPadding(width, m);
    AtLeastOnce(vmax, m);
  }

  /** The products of McuRowLength regrouped around m = hmax * c. */
  lemma RowRegroup(h: int, v: int, c: int)
    ensures c * (8 * h) == 8 * (h * c)
    ensures h * v * 64 * c == 64 * (v * (h * c))
  {
  }

  lemma AtLeastOnce(a: int, m: nat)
    requires a >= 1
    ensures a * m >= m
  {
  }

  /** m blocks of 8 that cover the width cover the padded width. */
  lemma BlocksCoverPadding(width: int, m: int)
    requires IsU16(width) && width <= 8 * m
    ensures PaddedWidth(width) <= 8 * m
  {
    assert (width + 7) / 8 <= m;
  }

  /** The MCU count read_restart computes, as decoder.rs:489-490 write it:
      `(width + 7) / (hmax * 8)` times `(height + 7) / (vmax * 8)`, with
      u16 additions and u8 products that panic on overflow and a division
      that panics on zero. This rounds down where the number of MCUs of
      an image rounds up (see McuCount). */
  function McuCountAsWritten(width: int, height: int, hmax: byte, vmax: byte): (r: Result<int>)
    requires IsU16(width) && IsU16(height)
    ensures r.Ok? ==> hmax > 0 && vmax > 0
  {
    if !IsU16(width + 7) || hmax * 8 > 0xFF || hmax == 0 then Err(Panic)
    else if !IsU16(height + 7) || vmax * 8 > 0xFF || vmax == 0 then Err(Panic)
    else Ok(((width + 7) / (hmax * 8)) * ((height + 7) / (vmax * 8)))
  }

  /** The number of MCUs of the image: whole MCUs of 8 * hmax by
      8 * vmax samples covering width by height (section A.2.4 of ITU-T
      T.81). The u8 products and the zero divisor still panic. */
  function McuCount(width: int, height: int, hmax: byte, vmax: byte): (r: Result<int>)
    requires IsU16(width) && IsU16(height)
    ensures r.Ok? ==> hmax > 0 && vmax > 0
  {
    if hmax * 8 > 0xFF || hmax == 0 || vmax * 8 > 0xFF || vmax == 0 then Err(Panic)
    else Ok(CeilDiv(width, 8 * hmax) * CeilDiv(height, 8 * vmax))
  }

  /** The MCU grid of McuCount covers the image, and no smaller grid does. */
  lemma McuCountTiles(width: int, height: int, hmax: byte, vmax: byte)
    requires IsU16(width) && IsU16(height) && McuCount(width, height, hmax, vmax).Ok?
    ensures var cols, rows := CeilDiv(width, 8 * hmax), CeilDiv(height, 8 * vmax);
      McuCount(width, height, hmax, vmax).value == cols * rows &&
      (cols - 1) * (8 * hmax) < width <= cols * (8 * hmax) &&
      (rows - 1) * (8 * vmax) < height <= rows * (8 * vmax)
  {
  }

  /** Without subsampling the two counts agree: (w + 7) / 8 is the
      ceiling of w / 8. */
  lemma McuCountsAgreeUnsampled(width: int, height: int)
    requires 0 <= width <= 0xFFF8 && 0 <= height <= 0xFFF8
    ensures McuCountAsWritten(width, height, 1, 1) == McuCount(width, height, 1, 1)
  {
  }

  /** A 24 x 8 image with 2 x 2 sampling has two MCUs, but the count as
      written is (31 / 16) * (15 / 16) = 0. */
  lemma McuCountAsWrittenUndercounts()
    ensures McuCountAsWritten(24, 8, 2, 2) == Ok(0)
    ensures McuCount(24, 8, 2, 2) == Ok(2)
  {
  }

  /** `interval != 0 && mcucount % interval == 0 && mcucount < w * h`
      (decoder.rs:492-494): a restart marker is due after mcucount MCUs. */
  predicate RestartDue(interval: int, mcucount: int, total: int)
  {
    interval != 0 && mcucount % interval == 0 && mcucount < total
  }

  /** With restart interval 1 the 24 x 8, 2 x 2 image above has a restart
      marker between its two MCUs; the count as written skips it. */
  lemma RestartSkippedAsWritten()
    ensures RestartDue(1, 1, McuCount(24, 8, 2, 2).value)
    ensures !RestartDue(1, 1, McuCountAsWritten(24, 8, 2, 2).value)
  {
    McuCountAsWrittenUndercounts();
  }
}
