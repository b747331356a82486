// The grayscale branch of upsample_mcu and upsample_mcu_scalar
// (decoder.rs:622-629 and decoder.rs:679-686, the same code twice): an
// MCU of a single 8 x 8 block is copied row by row into the output row
// buffer, sample (x, y) going to `xoffset + x + y * width`. Every write
// is bounds checked, and the first one out of range panics.
module Upsample {
  import opened Base

  /** Where the j-th write of the loops goes: x = j % 8 and y = j / 8,
      as the y-outer, x-inner loops visit them. */
  function Target(xoffset: nat, width: nat, j: nat): nat
  {
    xoffset + j % 8 + j / 8 * width
  }

  /** The first n writes land inside a buffer of len bytes. */
  predicate WritesFit(len: nat, xoffset: nat, width: nat, n: nat)
  {
    forall j | 0 <= j < n :: Target(xoffset, width, j) < len
  }

  /** The buffer after the first n writes, in the order the loops make
      them; a later write to the same byte wins. */
  function GrayWrites(before: seq<byte>, xoffset: nat, width: nat, mcu: seq<byte>, n: nat): (r: seq<byte>)
    requires |mcu| == 64 && n <= 64 && WritesFit(|before|, xoffset, width, n)
    ensures |r| == |before|
  {
    if n == 0 then before
    else GrayWrites(before, xoffset, width, mcu, n - 1)[Target(xoffset, width, n - 1) := mcu[n - 1]]
  }

  /** `upsample_mcu` with a 64-byte MCU: the writes of GrayWrites, or a
      panic at the first index out of range. */
  method UpsampleGray(out: array<byte>, xoffset: nat, width: nat, mcu: seq<byte>) returns (r: Result<()>)
    requires |mcu| == 64
    modifies out
    ensures r.Ok? <==> WritesFit(out.Length, xoffset, width, 64)
    ensures r.Err? ==> r.error == Panic
    ensures r.Ok? ==> out[..] == GrayWrites(old(out[..]), xoffset, width, mcu, 64)
  {
    ghost var before := out[..];
    var y := 0;
    while y < 8
      invariant y <= 8 && WritesFit(out.Length, xoffset, width, 8 * y)
      invariant out[..] == GrayWrites(before, xoffset, width, mcu, 8 * y)
    {
      var x := 0;
      while x < 8
        invariant x <= 8 && WritesFit(out.Length, xoffset, width, 8 * y + x)
        invariant out[..] == GrayWrites(before, xoffset, width, mcu, 8 * y + x)
      {
        var ok := WriteSample(out, xoffset, width, mcu, x, y, before);
        if !ok {
          return Err(Panic);
        }
        x := x + 1;
      }
      y := y + 1;
    }
    return Ok(());
  }

  /** One iteration of the inner loop: sample (x, y) is written at
      `xoffset + x + y * width` when that index is in range. */
  method WriteSample(out: array<byte>, xoffset: nat, width: nat, mcu: seq<byte>, x: nat, y: nat,
                     ghost before: seq<byte>) returns (ok: bool)
    requires |mcu| == 64 && x < 8 && y < 8 && |before| == out.Length
    requires WritesFit(out.Length, xoffset, width, 8 * y + x)
    requires out[..] == GrayWrites(before, xoffset, width, mcu, 8 * y + x)
    modifies out
    ensures ok <==> Target(xoffset, width, 8 * y + x) < out.Length
    ensures ok ==> WritesFit(out.Length, xoffset, width, 8 * y + x + 1)
    ensures ok ==> out[..] == GrayWrites(before, xoffset, width, mcu, 8 * y + x + 1)
  {
    var at := xoffset + x + y * width;
    ghost var j := 8 * y + x;
    DivModSplit(x, y, 8);
    assert at == Target(xoffset, width, j);
    if at >= out.Length {
      return false;
    }
    out[at] := mcu[x + y * 8];
    assert out[..] == GrayWrites(before, xoffset, width, mcu, j)[at := mcu[j]];
    return true;
  }

  /** No write goes farther than the last one, sample (7, 7). */
  lemma LastWriteIsFarthest(xoffset: nat, width: nat, j: nat)
    requires j < 64
    ensures Target(xoffset, width, j) <= Target(xoffset, width, 63)
  {
    var x, y := j % 8, j / 8;
    assert y <= 7;
    assert y * width <= 7 * width by {
      MulMono(y, 7, width);
    }
  }

  /** Multiplying by a natural number keeps the order. */
  lemma MulMono(a: nat, b: nat, c: nat)
    requires a <= b
    ensures a * c <= b * c
  {
  }

  /** All 64 writes fit exactly when the last one does:
      `xoffset + 7 + 7 * width` is inside the buffer. */
  lemma WritesFitIff(len: nat, xoffset: nat, width: nat)
    ensures WritesFit(len, xoffset, width, 64) <==> xoffset + 7 + 7 * width < len
  {
    if xoffset + 7 + 7 * width < len {
      forall j | 0 <= j < 64
        ensures Target(xoffset, width, j) < len
      {
        LastWriteIsFarthest(xoffset, width, j);
      }
    } else {
      assert Target(xoffset, width, 63) >= len;
    }
  }

  /** Byte i of the output lies in the 8 x 8 window the block covers. */
  predicate InBlock(xoffset: nat, width: nat, i: nat)
    requires width > 0
  {
    xoffset <= i && (i - xoffset) / width < 8 && (i - xoffset) % width < 8
  }

  /** The MCU sample that byte i of the window receives. */
  function Pixel(xoffset: nat, width: nat, i: nat): nat
    requires width > 0 && xoffset <= i
  {
    (i - xoffset) % width + 8 * ((i - xoffset) / width)
  }

  /** With rows at least 8 bytes apart, write j is the only one into its
      byte, and every byte of the window is some write's target. */
  lemma TargetPixel(xoffset: nat, width: nat, j: nat)
    requires width >= 8 && j < 64
    ensures InBlock(xoffset, width, Target(xoffset, width, j))
    ensures Pixel(xoffset, width, Target(xoffset, width, j)) == j
  {
    var x, y := j % 8, j / 8;
    var d := Target(xoffset, width, j) - xoffset;
    assert d == x + y * width;
    DivModSplit(x, y, width);
  }

  /** (x + y * w) / w == y and (x + y * w) % w == x for 0 <= x < w. */
  lemma DivModSplit(x: nat, y: nat, w: nat)
    requires x < w
    ensures (x + y * w) / w == y && (x + y * w) % w == x
  {
    var n := x + y * w;
    var q, r := n / w, n % w;
    assert n == q * w + r;
    if q < y {
      MulMono(q + 1, y, w);
    } else if q > y {
      MulMono(y + 1, q, w);
    }
  }

  /** A byte in the window is the target of its Pixel write. */
  lemma PixelTarget(xoffset: nat, width: nat, i: nat)
    requires width >= 8 && InBlock(xoffset, width, i)
    ensures Pixel(xoffset, width, i) < 64 && Target(xoffset, width, Pixel(xoffset, width, i)) == i
  {
    var d := i - xoffset;
    var x, y := d % width, d / width;
    var j := x + 8 * y;
    assert j % 8 == x && j / 8 == y by {
      DivModSplit(x, y, 8);
    }
    assert d == x + y * width;
  }

  /** With width >= 8 the writes do not overlap: after the first n of
      them, byte i of the window holds MCU sample Pixel(i) when that write
      is among them, and every other byte is as it was. */
  lemma {:induction false} GrayWritesPlace(before: seq<byte>, xoffset: nat, width: nat, mcu: seq<byte>, n: nat, i: nat)
    requires |mcu| == 64 && n <= 64 && WritesFit(|before|, xoffset, width, n) && width >= 8 && i < |before|
    ensures GrayWrites(before, xoffset, width, mcu, n)[i] ==
      if InBlock(xoffset, width, i) && Pixel(xoffset, width, i) < n then mcu[Pixel(xoffset, width, i)] else before[i]
  {
    if n > 0 {
      GrayWritesPlace(before, xoffset, width, mcu, n - 1, i);
      TargetPixel(xoffset, width, n - 1);
      if InBlock(xoffset, width, i) {
        PixelTarget(xoffset, width, i);
      }
    }
  }

  /** The whole grayscale placement: byte i of the 8 x 8 window, at row
      (i - xoffset) / width and column (i - xoffset) % width, holds that
      sample of the block, and every byte outside the window keeps its
      value. */
  lemma GrayPlacement(before: seq<byte>, xoffset: nat, width: nat, mcu: seq<byte>)
    requires |mcu| == 64 && width >= 8 && xoffset + 7 + 7 * width < |before|
    ensures WritesFit(|before|, xoffset, width, 64)
    ensures forall i | 0 <= i < |before| ::
      GrayWrites(before, xoffset, width, mcu, 64)[i] ==
        if InBlock(xoffset, width, i) then mcu[Pixel(xoffset, width, i)] else before[i]
  {
    WritesFitIff(|before|, xoffset, width);
    forall i | 0 <= i < |before|
      ensures GrayWrites(before, xoffset, width, mcu, 64)[i] ==
        if InBlock(xoffset, width, i) then mcu[Pixel(xoffset, width, i)] else before[i]
    {
      GrayWritesPlace(before, xoffset, width, mcu, 64, i);
      if InBlock(xoffset, width, i) {
        PixelTarget(xoffset, width, i);
      }
    }
  }
}
