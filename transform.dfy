// The integer transforms of src/jpeg/transform.rs: the SIMD lane helpers
// (interleave, as_i32, transpose, transpose_bytes, cf, madd, sp, ps) and the
// two-pass inverse DCT with its all-zero shortcut. The forward DCT of the
// same file is module ForwardDct. Both transforms are translations of IJG
// libjpeg 9a (jidctint.c and jfdctint.c); the transform itself is section
// A.3.3 of ITU-T T.81.
//
// A SIMD vector is a sequence of its lanes, lane 0 first. Lane arithmetic
// is written out: i16 and i32 lane sums wrap, `packs` saturates, shifts
// of i32 lanes are arithmetic.
module Transform {
  import opened Base

  const CONST_BITS: nat := 13
  const PASS1_BITS: nat := 2

  const FIX_0_298631336: int := 2446
  const FIX_0_390180644: int := 3196
  const FIX_0_541196100: int := 4433
  const FIX_0_765366865: int := 6270
  const FIX_0_899976223: int := 7373
  const FIX_1_175875602: int := 9633
  const FIX_1_501321110: int := 12299
  const FIX_1_847759065: int := 15137
  const FIX_1_961570560: int := 16069
  const FIX_2_053119869: int := 16819
  const FIX_2_562915447: int := 20995
  const FIX_3_072711026: int := 25172

  // ---------------------------------------------------------------------
  // Lanes

  predicate IsI16x8(v: seq<int>)
  {
    |v| == 8 && forall i | 0 <= i < 8 :: IsI16(v[i])
  }

  predicate IsI32x4(v: seq<int>)
  {
    |v| == 4 && forall i | 0 <= i < 4 :: IsI32(v[i])
  }

  /** Eight vectors of eight lanes: a block of coefficients, one row per vector. */
  predicate IsMatrix<T>(m: seq<seq<T>>)
  {
    |m| == 8 && forall i | 0 <= i < 8 :: |m[i]| == 8
  }

  predicate IsBlock16(m: seq<seq<int>>)
  {
    IsMatrix(m) && forall i | 0 <= i < 8 :: IsI16x8(m[i])
  }

  function Splat(n: nat, x: int): (r: seq<int>)
    ensures |r| == n
  {
    seq(n, _ => x)
  }

  /** Lane-wise wrapping i16 addition (`+` of i16x8). */
  function Add16(a: seq<int>, b: seq<int>): (r: seq<int>)
    requires |a| == 8 && |b| == 8
    ensures IsI16x8(r)
  {
    seq(8, i requires 0 <= i < 8 => Wrap16(a[i] + b[i]))
  }

  /** Lane-wise wrapping i16 subtraction (`-` of i16x8). */
  function Sub16(a: seq<int>, b: seq<int>): (r: seq<int>)
    requires |a| == 8 && |b| == 8
    ensures IsI16x8(r)
  {
    seq(8, i requires 0 <= i < 8 => Wrap16(a[i] - b[i]))
  }

  /** `<< n` of i16x8: the bits shifted out are lost. */
  function Shl16(a: seq<int>, n: nat): (r: seq<int>)
    requires |a| == 8
    ensures IsI16x8(r)
  {
    seq(8, i requires 0 <= i < 8 => Wrap16(a[i] * Pow2(n)))
  }

  /** Lane-wise wrapping i32 addition (`+` of i32x4). */
  function Add32(a: seq<int>, b: seq<int>): (r: seq<int>)
    requires |a| == 4 && |b| == 4
    ensures |r| == 4
  {
    seq(4, i requires 0 <= i < 4 => Wrap32(a[i] + b[i]))
  }

  /** Lane-wise wrapping i32 subtraction (`-` of i32x4). */
  function Sub32(a: seq<int>, b: seq<int>): (r: seq<int>)
    requires |a| == 4 && |b| == 4
    ensures |r| == 4
  {
    seq(4, i requires 0 <= i < 4 => Wrap32(a[i] - b[i]))
  }

  /** `<< n` of i32x4. */
  function Shl32(a: seq<int>, n: nat): (r: seq<int>)
    requires |a| == 4
    ensures |r| == 4
  {
    seq(4, i requires 0 <= i < 4 => Wrap32(a[i] * Pow2(n)))
  }

  /** `>> n` of i32x4: arithmetic shift. */
  function Shr32(a: seq<int>, n: nat): (r: seq<int>)
    requires |a| == 4
    ensures |r| == 4
  {
    seq(4, i requires 0 <= i < 4 => Shr(a[i], n))
  }

  // ---------------------------------------------------------------------
  // Permutations of lanes

  /** `interleave` (transform.rs:203-208): the low halves of x and y
      alternate in the first vector, the high halves in the second. */
  function Interleave<T>(x: seq<T>, y: seq<T>): (r: (seq<T>, seq<T>))
    requires |x| == 8 && |y| == 8
    ensures |r.0| == 8 && |r.1| == 8
  {
    (seq(8, i requires 0 <= i < 8 => if i % 2 == 0 then x[i / 2] else y[i / 2]),
     seq(8, i requires 0 <= i < 8 => if i % 2 == 0 then x[4 + i / 2] else y[4 + i / 2]))
  }

  /** Read as one sixteen-lane vector, `interleave` puts x[i] at lane 2i
      and y[i] at lane 2i + 1. */
  lemma InterleaveLanes<T>(x: seq<T>, y: seq<T>)
    requires |x| == 8 && |y| == 8
    ensures var r := Interleave(x, y);
      |r.0 + r.1| == 16 &&
      (forall i | 0 <= i < 8 :: (r.0 + r.1)[2 * i] == x[i]) &&
      (forall i | 0 <= i < 8 :: (r.0 + r.1)[2 * i + 1] == y[i])
  {
    var r := Interleave(x, y);
    forall i | 0 <= i < 8
      ensures (r.0 + r.1)[2 * i] == x[i] && (r.0 + r.1)[2 * i + 1] == y[i]
    {
      assert i == 0 || i == 1 || i == 2 || i == 3 || i == 4 || i == 5 || i == 6 || i == 7;
    }
  }

  /** `transpose` (transform.rs:214-233): three rounds of `interleave`
      make the full 8x8 transpose: lane i of output vector j is lane j of
      input vector i. */
  function Transpose<T>(m: seq<seq<T>>): (r: seq<seq<T>>)
    requires IsMatrix(m)
    ensures IsMatrix(r)
  {
    var (a, b) := Interleave(m[0], m[4]);
    var (c, d) := Interleave(m[1], m[5]);
    var (e, f) := Interleave(m[2], m[6]);
    var (g, h) := Interleave(m[3], m[7]);

    var (a1, b1) := Interleave(a, e);
    var (c1, d1) := Interleave(b, f);
    var (e1, f1) := Interleave(c, g);
    var (g1, h1) := Interleave(d, h);

    var (a2, b2) := Interleave(a1, e1);
    var (c2, d2) := Interleave(b1, f1);
    var (e2, f2) := Interleave(c1, g1);
    var (g2, h2) := Interleave(d1, h1);

    [a2, b2, c2, d2, e2, f2, g2, h2]
  }

  /** Lane i of output vector j of `transpose` is lane j of input vector i
      (the property the test at transform.rs:235-255 samples). */
  lemma TransposeIsTranspose<T>(m: seq<seq<T>>)
    requires IsMatrix(m)
    ensures forall i, j | 0 <= i < 8 && 0 <= j < 8 :: Transpose(m)[j][i] == m[i][j]
  {
    var (a, b) := Interleave(m[0], m[4]);
    var (c, d) := Interleave(m[1], m[5]);
    var (e, f) := Interleave(m[2], m[6]);
    var (g, h) := Interleave(m[3], m[7]);
    InterleaveDisplay(m[0], m[4]);
    InterleaveDisplay(m[1], m[5]);
    InterleaveDisplay(m[2], m[6]);
    InterleaveDisplay(m[3], m[7]);
    var (a1, b1) := Interleave(a, e);
    var (c1, d1) := Interleave(b, f);
    var (e1, f1) := Interleave(c, g);
    var (g1, h1) := Interleave(d, h);
    InterleaveDisplay(a, e);
    InterleaveDisplay(b, f);
    InterleaveDisplay(c, g);
    InterleaveDisplay(d, h);
    InterleaveDisplay(a1, e1);
    InterleaveDisplay(b1, f1);
    InterleaveDisplay(c1, g1);
    InterleaveDisplay(d1, h1);
    var r := Transpose(m);
    forall i, j | 0 <= i < 8 && 0 <= j < 8
      ensures r[j][i] == m[i][j]
    {
      assert i == 0 || i == 1 || i == 2 || i == 3 || i == 4 || i == 5 || i == 6 || i == 7;
      assert j == 0 || j == 1 || j == 2 || j == 3 || j == 4 || j == 5 || j == 6 || j == 7;
    }
  }

  /** `interleave` written out lane by lane. */
  lemma InterleaveDisplay<T>(x: seq<T>, y: seq<T>)
    requires |x| == 8 && |y| == 8
    ensures Interleave(x, y) == ([x[0], y[0], x[1], y[1], x[2], y[2], x[3], y[3]],
                                 [x[4], y[4], x[5], y[5], x[6], y[6], x[7], y[7]])
  {
    var (p, q) := Interleave(x, y);
    assert p == [x[0], y[0], x[1], y[1], x[2], y[2], x[3], y[3]];
    assert q == [x[4], y[4], x[5], y[5], x[6], y[6], x[7], y[7]];
  }

  lemma TransposeKeepsI16(m: seq<seq<int>>)
    requires IsBlock16(m)
    ensures IsBlock16(Transpose(m))
  {
    TransposeIsTranspose(m);
  }

  /** One step of `transpose_bytes` (transform.rs:259-269): `interleave`
      on sixteen-lane vectors. */
  function Interleave8<T>(x: seq<T>, y: seq<T>): (r: (seq<T>, seq<T>))
    requires |x| == 16 && |y| == 16
    ensures |r.0| == 16 && |r.1| == 16
  {
    (seq(16, i requires 0 <= i < 16 => if i % 2 == 0 then x[i / 2] else y[i / 2]),
     seq(16, i requires 0 <= i < 16 => if i % 2 == 0 then x[8 + i / 2] else y[8 + i / 2]))
  }

  predicate IsQuad<T>(v: seq<seq<T>>)
  {
    |v| == 4 && forall k | 0 <= k < 4 :: |v[k]| == 16
  }

  /** Four sixteen-lane vectors read as eight rows of eight bytes: row r
      is half r % 2 of vector r / 2. */
  function RowByte<T>(v: seq<seq<T>>, row: nat, col: nat): T
    requires IsQuad(v) && row < 8 && col < 8
  {
    v[row / 2][8 * (row % 2) + col]
  }

  /** `transpose_bytes` (transform.rs:257-278): the 8x8 transpose of the
      eight rows, so that output row c is input column c. */
  function TransposeBytes<T>(x: seq<T>, y: seq<T>, z: seq<T>, w: seq<T>): (r: seq<seq<T>>)
    requires |x| == 16 && |y| == 16 && |z| == 16 && |w| == 16
    ensures IsQuad(r)
  {
    var (a, b) := Interleave8(x, z);
    var (c, d) := Interleave8(y, w);
    var (a1, b1) := Interleave8(a, c);
    var (c1, d1) := Interleave8(b, d);
    var (a2, b2) := Interleave8(a1, c1);
    var (c2, d2) := Interleave8(b1, d1);
    [a2, b2, c2, d2]
  }

  /** `interleave` of sixteen-lane vectors written out lane by lane. */
  lemma Interleave8Display<T>(x: seq<T>, y: seq<T>)
    requires |x| == 16 && |y| == 16
    ensures Interleave8(x, y) ==
      ([x[0], y[0], x[1], y[1], x[2], y[2], x[3], y[3], x[4], y[4], x[5], y[5], x[6], y[6], x[7], y[7]],
       [x[8], y[8], x[9], y[9], x[10], y[10], x[11], y[11], x[12], y[12], x[13], y[13], x[14], y[14], x[15], y[15]])
  {
    var (p, q) := Interleave8(x, y);
    assert p == [x[0], y[0], x[1], y[1], x[2], y[2], x[3], y[3], x[4], y[4], x[5], y[5], x[6], y[6], x[7], y[7]];
    assert q == [x[8], y[8], x[9], y[9], x[10], y[10], x[11], y[11], x[12], y[12], x[13], y[13], x[14], y[14], x[15], y[15]];
  }

  /** Output row c of `transpose_bytes` is input column c (the property the
      test at transform.rs:280-296 samples). */
  lemma TransposeBytesIsTranspose<T>(x: seq<T>, y: seq<T>, z: seq<T>, w: seq<T>)
    requires |x| == 16 && |y| == 16 && |z| == 16 && |w| == 16
    ensures forall row, col | 0 <= row < 8 && 0 <= col < 8 ::
      RowByte(TransposeBytes(x, y, z, w), col, row) == RowByte([x, y, z, w], row, col)
  {
    var (a, b) := Interleave8(x, z);
    var (c, d) := Interleave8(y, w);
    var (a1, b1) := Interleave8(a, c);
    var (c1, d1) := Interleave8(b, d);
    Interleave8Display(x, z);
    Interleave8Display(y, w);
    Interleave8Display(a, c);
    Interleave8Display(b, d);
    Interleave8Display(a1, c1);
    Interleave8Display(b1, d1);
    var r := TransposeBytes(x, y, z, w);
    forall row, col | 0 <= row < 8 && 0 <= col < 8
      ensures RowByte(r, col, row) == RowByte([x, y, z, w], row, col)
    {
      assert row == 0 || row == 1 || row == 2 || row == 3 || row == 4 || row == 5 || row == 6 || row == 7;
      assert col == 0 || col == 1 || col == 2 || col == 3 || col == 4 || col == 5 || col == 6 || col == 7;
    }
  }

  // ---------------------------------------------------------------------
  // Widening, multiply-add, narrowing

  /** The i32 lanes that `transmute` reads from eight i16 lanes on a
      little-endian machine: i32 lane i has lane 2i, read unsigned, as its
      low half and lane 2i + 1 as its high half. */
  function Reinterpret32(v: seq<int>): (r: seq<int>)
    requires |v| == 8
    ensures |r| == 4
  {
    seq(4, i requires 0 <= i < 4 => ToU16(v[2 * i]) + 0x1_0000 * v[2 * i + 1])
  }

  /** The shift amounts the transforms use, also in the forms in which the
      code writes them. */
  lemma Pow2Values()
    ensures Pow2(2) == 4 && Pow2(10) == 1024 && Pow2(11) == 2048 && Pow2(13) == 8192
    ensures Pow2(15) == 0x8000 && Pow2(16) == 0x1_0000 && Pow2(18) == 0x4_0000
    ensures Pow2(PASS1_BITS) == 4 && Pow2(PASS1_BITS - 1) == 2 && Pow2(CONST_BITS) == 8192
    ensures Pow2(CONST_BITS - PASS1_BITS) == 2048 && Pow2(CONST_BITS - PASS1_BITS - 1) == 1024
    ensures Pow2(CONST_BITS + PASS1_BITS) == 0x8000 && Pow2(CONST_BITS + PASS1_BITS - 1) == 0x4000
    ensures Pow2(CONST_BITS + PASS1_BITS + 3) == 0x4_0000 && Pow2(PASS1_BITS + 2) == 16
  {
  }

  /** `<< 16 >> 16` of the unsigned 16 bits of an i16 gives the i16 back. */
  lemma SignExtend(v: int)
    requires IsI16(v)
    ensures Shr(Wrap32(ToU16(v) * Pow2(16)), 16) == v
  {
    Pow2Values();
    if v < 0 {
      assert ToU16(v) * 0x1_0000 == v * 0x1_0000 + 0x1_0000_0000;
    }
    assert Wrap32(ToU16(v) * 0x1_0000) == v * 0x1_0000;
  }

  /** `as_i32` (transform.rs:210-213): interleave with zero, reinterpret as
      i32 lanes, then `<< 16 >> 16`. The result is the sign extension of
      the eight lanes, the low four first. */
  function AsI32(x: seq<int>): (r: (seq<int>, seq<int>))
    requires IsI16x8(x)
    ensures |r.0| == 4 && |r.1| == 4
  {
    var (a, b) := Interleave(x, Splat(8, 0));
    (Shr32(Shl32(Reinterpret32(a), 16), 16), Shr32(Shl32(Reinterpret32(b), 16), 16))
  }

  /** `as_i32` sign-extends: its lanes are the i16 lanes, unchanged. */
  lemma AsI32SignExtends(x: seq<int>)
    requires IsI16x8(x)
    ensures AsI32(x).0 == x[..4] && AsI32(x).1 == x[4..]
  {
    var (a, b) := Interleave(x, Splat(8, 0));
    InterleaveWithZero(x);
    ReinterpretZeroHigh(a, x[..4]);
    ReinterpretZeroHigh(b, x[4..]);
    ShiftPairSignExtends(Reinterpret32(a), x[..4]);
    ShiftPairSignExtends(Reinterpret32(b), x[4..]);
  }

  lemma InterleaveWithZero(x: seq<int>)
    requires |x| == 8
    ensures var (a, b) := Interleave(x, Splat(8, 0));
      forall i | 0 <= i < 4 :: a[2 * i] == x[i] && a[2 * i + 1] == 0 && b[2 * i] == x[4 + i] && b[2 * i + 1] == 0
  {
    var (a, b) := Interleave(x, Splat(8, 0));
    forall i | 0 <= i < 4
      ensures a[2 * i] == x[i] && a[2 * i + 1] == 0 && b[2 * i] == x[4 + i] && b[2 * i + 1] == 0
    {
      assert i == 0 || i == 1 || i == 2 || i == 3;
    }
  }

  lemma ReinterpretZeroHigh(a: seq<int>, v: seq<int>)
    requires |a| == 8 && |v| == 4
    requires forall i | 0 <= i < 4 :: a[2 * i] == v[i] && a[2 * i + 1] == 0
    ensures forall i | 0 <= i < 4 :: Reinterpret32(a)[i] == ToU16(v[i])
  {
  }

  lemma ShiftPairSignExtends(r: seq<int>, v: seq<int>)
    requires |r| == 4 && |v| == 4
    requires forall i | 0 <= i < 4 :: IsI16(v[i]) && r[i] == ToU16(v[i])
    ensures Shr32(Shl32(r, 16), 16) == v
  {
    Pow2Values();
    forall i | 0 <= i < 4
      ensures Shr(Wrap32(r[i] * Pow2(16)), 16) == v[i]
    {
      SignExtend(v[i]);
    }
  }

  /** `madd` (pmaddwd): i32 lane i is x[2i] * y[2i] + x[2i+1] * y[2i+1]. */
  function Madd(x: seq<int>, y: seq<int>): (r: seq<int>)
    requires |x| == 8 && |y| == 8
    ensures |r| == 4
  {
    seq(4, i requires 0 <= i < 4 => Wrap32(x[2 * i] * y[2 * i] + x[2 * i + 1] * y[2 * i + 1]))
  }

  /** `cf` (transform.rs:310-316): the constant vectors (x+y, x, ...) and
      (x, x+z, ...). The scalar i16 sums must not overflow: a debug build
      panics there. */
  function Cf(x: int, y: int, z: int): (r: (seq<int>, seq<int>))
    requires IsI16(Wrap16(x) + Wrap16(y)) && IsI16(Wrap16(x) + Wrap16(z))
    ensures |r.0| == 8 && |r.1| == 8
  {
    var (x16, y16, z16) := (Wrap16(x), Wrap16(y), Wrap16(z));
    var xy := x16 + y16;
    var xz := x16 + z16;
    ([xy, x16, xy, x16, xy, x16, xy, x16],
     [x16, xz, x16, xz, x16, xz, x16, xz])
  }

  // The four constant pairs of `idct` (transform.rs:317-320).
  const f05_07_05: seq<int> := Cf(FIX_0_541196100, FIX_0_765366865, -FIX_1_847759065).0
  const f05_05_m18: seq<int> := Cf(FIX_0_541196100, FIX_0_765366865, -FIX_1_847759065).1
  const f11_m19_11: seq<int> := Cf(FIX_1_175875602, -FIX_1_961570560, -FIX_0_390180644).0
  const f11_11_m03: seq<int> := Cf(FIX_1_175875602, -FIX_1_961570560, -FIX_0_390180644).1
  const fm08_02_m08: seq<int> := Cf(-FIX_0_899976223, FIX_0_298631336, FIX_1_501321110).0
  const fm08_m08_15: seq<int> := Cf(-FIX_0_899976223, FIX_0_298631336, FIX_1_501321110).1
  const fm25_20_m25: seq<int> := Cf(-FIX_2_562915447, FIX_2_053119869, FIX_3_072711026).0
  const fm25_m25_30: seq<int> := Cf(-FIX_2_562915447, FIX_2_053119869, FIX_3_072711026).1

  /** `packs` of two i32x4 vectors (packssdw): eight saturated i16 lanes. */
  function Packs32(a: seq<int>, b: seq<int>): (r: seq<int>)
    requires |a| == 4 && |b| == 4
    ensures IsI16x8(r)
  {
    var r := seq(8, i requires 0 <= i < 8 => Sat16(if i < 4 then a[i] else b[i - 4]));
    assert forall i | 0 <= i < 8 :: r[i] == Sat16(if i < 4 then a[i] else b[i - 4]);
    r
  }

  /** `packs` of two i16x8 vectors (packsswb): sixteen saturated i8 lanes. */
  function Packs16(a: seq<int>, b: seq<int>): (r: seq<int>)
    requires |a| == 8 && |b| == 8
    ensures |r| == 16
  {
    seq(16, i requires 0 <= i < 16 => Sat8(if i < 8 then a[i] else b[i - 8]))
  }

  // ---------------------------------------------------------------------
  // The inverse DCT

  /** A pair of i32x4 vectors holding the eight lanes of one row: the
      source's `...l` vector (lanes 0..3) and `...h` vector (lanes 4..7). */
  datatype Wide = Wide(l: seq<int>, h: seq<int>)

  predicate IsWide(w: Wide)
  {
    |w.l| == 4 && |w.h| == 4
  }

  /** Lane j of a wide row. */
  function Lane(w: Wide, j: nat): int
    requires IsWide(w) && j < 8
  {
    if j < 4 then w.l[j] else w.h[j - 4]
  }

  function WAdd(a: Wide, b: Wide): (r: Wide)
    requires IsWide(a) && IsWide(b)
    ensures IsWide(r)
  {
    Wide(Add32(a.l, b.l), Add32(a.h, b.h))
  }

  function WSub(a: Wide, b: Wide): (r: Wide)
    requires IsWide(a) && IsWide(b)
    ensures IsWide(r)
  {
    Wide(Sub32(a.l, b.l), Sub32(a.h, b.h))
  }

  function WShl(a: Wide, n: nat): (r: Wide)
    requires IsWide(a)
    ensures IsWide(r)
  {
    Wide(Shl32(a.l, n), Shl32(a.h, n))
  }

  /** `as_i32` of one i16x8 row. */
  function Widen(x: seq<int>): (r: Wide)
    requires IsI16x8(x)
    ensures IsWide(r)
  {
    var (l, h) := AsI32(x);
    Wide(l, h)
  }

  /** `interleave(x, y)` followed by `madd` of both halves with f. */
  function MaddWide(x: seq<int>, y: seq<int>, f: seq<int>): (r: Wide)
    requires |x| == 8 && |y| == 8 && |f| == 8
    ensures IsWide(r)
  {
    var (lo, hi) := Interleave(x, y);
    Wide(Madd(lo, f), Madd(hi, f))
  }

  /** The test `(c0 | c1 | ... | c7).eq(zero).all()`: the bitwise or of
      all lanes is zero exactly when every lane is zero. */
  predicate AllZero(c: seq<seq<int>>)
    requires IsMatrix(c)
  {
    forall i, j | 0 <= i < 8 && 0 <= j < 8 :: c[i][j] == 0
  }

  /** Even part of the first pass (transform.rs:326-377): t10, t11, t12, t13. */
  function EvenPass1(c0: seq<int>, c2: seq<int>, c4: seq<int>, c6: seq<int>): (r: (Wide, Wide, Wide, Wide))
    requires IsI16x8(c0) && IsI16x8(c2) && IsI16x8(c4) && IsI16x8(c6)
    ensures IsWide(r.0) && IsWide(r.1) && IsWide(r.2) && IsWide(r.3)
  {
    var t2 := MaddWide(c2, c6, f05_07_05);
    var t3 := MaddWide(c2, c6, f05_05_m18);
    var z2 := WAdd(WShl(Widen(c0), CONST_BITS), Wide(Splat(4, Pow2(CONST_BITS - PASS1_BITS - 1)),
                                                  Splat(4, Pow2(CONST_BITS - PASS1_BITS - 1))));
    var z3 := WShl(Widen(c4), CONST_BITS);
    var t0 := WAdd(z2, z3);
    var t1 := WSub(z2, z3);
    (WAdd(t0, t2), WAdd(t1, t3), WSub(t1, t3), WSub(t0, t2))
  }

  /** Even part of the second pass (transform.rs:463-499): the rounding
      constant is added with a wrapping i16 sum before widening. */
  function EvenPass2(y0: seq<int>, y2: seq<int>, y4: seq<int>, y6: seq<int>): (r: (Wide, Wide, Wide, Wide))
    requires IsI16x8(y0) && IsI16x8(y2) && IsI16x8(y4) && IsI16x8(y6)
    ensures IsWide(r.0) && IsWide(r.1) && IsWide(r.2) && IsWide(r.3)
  {
    var t2 := MaddWide(y2, y6, f05_07_05);
    var t3 := MaddWide(y2, y6, f05_05_m18);
    var z2 := Add16(y0, Splat(8, Pow2(PASS1_BITS + 2)));
    var z3 := y4;
    var t0 := WShl(Widen(Add16(z2, z3)), CONST_BITS);
    var t1 := WShl(Widen(Sub16(z2, z3)), CONST_BITS);
    (WAdd(t0, t2), WAdd(t1, t3), WSub(t1, t3), WSub(t0, t2))
  }

  /** Odd part, the same in both passes (transform.rs:379-432 and 501-555):
      from t0 = row 7, t1 = row 5, t2 = row 3, t3 = row 1 it yields the
      new t0, t1, t2, t3. The sums z2 = t0 + t2 and z3 = t1 + t3 are i16
      lane sums and wrap. */
  function OddPart(t0: seq<int>, t1: seq<int>, t2: seq<int>, t3: seq<int>): (r: (Wide, Wide, Wide, Wide))
    requires IsI16x8(t0) && IsI16x8(t1) && IsI16x8(t2) && IsI16x8(t3)
    ensures IsWide(r.0) && IsWide(r.1) && IsWide(r.2) && IsWide(r.3)
  {
    var z2 := Add16(t0, t2);
    var z3 := Add16(t1, t3);
    var z2' := MaddWide(z2, z3, f11_m19_11);
    var z3' := MaddWide(z2, z3, f11_11_m03);
    var t0' := WAdd(MaddWide(t0, t3, fm08_02_m08), z2');
    var t3' := WAdd(MaddWide(t0, t3, fm08_m08_15), z3');
    var t1' := WAdd(MaddWide(t1, t2, fm25_20_m25), z3');
    var t2' := WAdd(MaddWide(t1, t2, fm25_m25_30), z2');
    (t0', t1', t2', t3')
  }

  /** `combine` (transform.rs:434-441): (x + y) and (x - y), shifted down by
      CONST_BITS - PASS1_BITS and packed to i16 with saturation. */
  function Combine(x: Wide, y: Wide): (r: (seq<int>, seq<int>))
    requires IsWide(x) && IsWide(y)
    ensures IsI16x8(r.0) && IsI16x8(r.1)
  {
    var s := WAdd(x, y);
    var d := WSub(x, y);
    (Packs32(Shr32(s.l, CONST_BITS - PASS1_BITS), Shr32(s.h, CONST_BITS - PASS1_BITS)),
     Packs32(Shr32(d.l, CONST_BITS - PASS1_BITS), Shr32(d.h, CONST_BITS - PASS1_BITS)))
  }

  /** Eight i16x8 rows as a block. */
  function Rows(r0: seq<int>, r1: seq<int>, r2: seq<int>, r3: seq<int>,
                r4: seq<int>, r5: seq<int>, r6: seq<int>, r7: seq<int>): (m: seq<seq<int>>)
    requires IsI16x8(r0) && IsI16x8(r1) && IsI16x8(r2) && IsI16x8(r3)
    requires IsI16x8(r4) && IsI16x8(r5) && IsI16x8(r6) && IsI16x8(r7)
    ensures IsBlock16(m)
    ensures m[0] == r0 && m[1] == r1 && m[2] == r2 && m[3] == r3
    ensures m[4] == r4 && m[5] == r5 && m[6] == r6 && m[7] == r7
  {
    [r0, r1, r2, r3, r4, r5, r6, r7]
  }

  /** The butterflies of the first pass (transform.rs:324-456) on the
      coefficient rows c0..c7. */
  function Pass1Rows(c: seq<seq<int>>): (tmp: seq<seq<int>>)
    requires IsBlock16(c)
    ensures IsBlock16(tmp)
  {
    var (t10, t11, t12, t13) := EvenPass1(c[0], c[2], c[4], c[6]);
    var (t0, t1, t2, t3) := OddPart(c[7], c[5], c[3], c[1]);
    var (r0, r7) := Combine(t10, t3);
    var (r1, r6) := Combine(t11, t2);
    var (r2, r5) := Combine(t12, t1);
    var (r3, r4) := Combine(t13, t0);
    Rows(r0, r1, r2, r3, r4, r5, r6, r7)
  }

  /** The first pass of `idct` (transform.rs:302-457), from the coefficient
      rows to `tmp`: the all-zero shortcut, or the butterflies. */
  function IdctPass1(c: seq<seq<int>>): (tmp: seq<seq<int>>)
    requires IsBlock16(c)
    ensures IsBlock16(tmp)
  {
    if AllZero(c) then seq(8, _ => Shl16(c[0], PASS1_BITS)) else Pass1Rows(c)
  }

  /** `sp` (transform.rs:557-560): shift down by CONST_BITS + PASS1_BITS + 3
      and pack to i16 with saturation. */
  function Sp(a: Wide): (r: seq<int>)
    requires IsWide(a)
    ensures IsI16x8(r)
  {
    Packs32(Shr32(a.l, CONST_BITS + PASS1_BITS + 3), Shr32(a.h, CONST_BITS + PASS1_BITS + 3))
  }

  /** `ps` (transform.rs:561-564): pack to i8 with saturation, read the
      bytes unsigned, add 128 with u8 wrap-around. */
  function Ps(a: seq<int>, b: seq<int>): (r: seq<byte>)
    requires |a| == 8 && |b| == 8
    ensures |r| == 16
  {
    var p := Packs16(a, b);
    seq(16, i requires 0 <= i < 16 => (p[i] % 0x100 + 128) % 0x100)
  }

  /** The butterflies of the second pass (transform.rs:461-573) on the
      transposed `tmp`: the rows a0..a7, narrowed by `sp`. */
  function Pass2Rows(tmp: seq<seq<int>>): (a: seq<seq<int>>)
    requires IsBlock16(tmp)
    ensures IsBlock16(a)
  {
    TransposeKeepsI16(tmp);
    var y := Transpose(tmp);
    var (t10, t11, t12, t13) := EvenPass2(y[0], y[2], y[4], y[6]);
    var (t0, t1, t2, t3) := OddPart(y[7], y[5], y[3], y[1]);
    Rows(Sp(WAdd(t10, t3)), Sp(WAdd(t11, t2)), Sp(WAdd(t12, t1)), Sp(WAdd(t13, t0)),
         Sp(WSub(t13, t0)), Sp(WSub(t12, t1)), Sp(WSub(t11, t2)), Sp(WSub(t10, t3)))
  }

  /** The second pass of `idct` (transform.rs:461-580): the rows a0..a7
      become bytes with `ps` and are transposed back. */
  function IdctPass2(tmp: seq<seq<int>>): (out: seq<seq<byte>>)
    requires IsBlock16(tmp)
    ensures IsQuad(out)
  {
    var a := Pass2Rows(tmp);
    TransposeBytes(Ps(a[0], a[1]), Ps(a[2], a[3]), Ps(a[4], a[5]), Ps(a[6], a[7]))
  }

  /** The 64 samples `idct` stores, in row-major order (the four stores of
      transform.rs:582-585). */
  function IdctSamples(c: seq<seq<int>>): (s: seq<byte>)
    requires IsBlock16(c)
    ensures |s| == 64
  {
    var out := IdctPass2(IdctPass1(c));
    out[0] + out[1] + out[2] + out[3]
  }

  /** `store` of one u8x16 vector (transform.rs:582-585): `v` overwrites
      the sixteen bytes from `at`; nothing else in `samples` changes. */
  method Store(v: seq<byte>, samples: array<byte>, at: nat)
    requires |v| == 16 && at + 16 <= samples.Length
    modifies samples
    ensures forall i | 0 <= i < samples.Length ::
      samples[i] == if at <= i < at + 16 then v[i - at] else old(samples[i])
  {
    var j := 0;
    while j < 16
      invariant 0 <= j <= 16
      invariant forall i | 0 <= i < samples.Length ::
        samples[i] == if at <= i < at + j then v[i - at] else old(samples[i])
    {
      samples[at + j] := v[j];
      j := j + 1;
    }
  }

  /** `idct` (transform.rs:299-586): the two passes over the coefficient
      rows, then four 16-byte stores into `samples` from `offset`; nothing
      else in `samples` changes. */
  method Idct(coeffs: seq<seq<int>>, samples: array<byte>, offset: nat)
    requires IsBlock16(coeffs)
    requires offset + 64 <= samples.Length
    modifies samples
    ensures Stored(old(samples[..]), samples[..], offset, IdctSamples, coeffs)
  {
    var tmp := IdctPass1(coeffs);
    var out := IdctPass2(tmp);
    StoreAll(out, samples, offset);
  }

  /** `after` is `before` with the 64 bytes from `offset` replaced by
      f(x). The transform is passed as a value so that callers see its
      samples only where they ask for them. */
  ghost predicate Stored<X>(before: seq<byte>, after: seq<byte>, offset: nat, f: X --> seq<byte>, x: X)
  {
    f.requires(x) && |f(x)| == 64 && offset + 64 <= |before| && after == before[..offset] + f(x) + before[offset + 64..]
  }

  /** The four stores that end `idct` (transform.rs:582-585). */
  method StoreAll(out: seq<seq<byte>>, samples: array<byte>, offset: nat)
    requires IsQuad(out)
    requires offset + 64 <= samples.Length
    modifies samples
    ensures samples[..] == old(samples[..])[..offset] + (out[0] + out[1] + out[2] + out[3]) + old(samples[..])[offset + 64..]
  {
    ghost var s := out[0] + out[1] + out[2] + out[3];
    assert forall m | 0 <= m < 16 ::
      s[m] == out[0][m] && s[16 + m] == out[1][m] && s[32 + m] == out[2][m] && s[48 + m] == out[3][m];
    Store(out[0], samples, offset + 0 * 16);
    Store(out[1], samples, offset + 1 * 16);
    Store(out[2], samples, offset + 2 * 16);
    Store(out[3], samples, offset + 3 * 16);
    assert forall i | 0 <= i < samples.Length ::
      samples[i] == if offset <= i < offset + 64 then s[i - offset] else old(samples[i]);
    assert samples[..] == old(samples[..])[..offset] + s + old(samples[..])[offset + 64..];
  }

  // ---------------------------------------------------------------------
  // Properties of the inverse DCT

  /** Every `cf` sum fits in i16, and the constant vectors alternate the
      two scalars (transform.rs:317-320). */
  lemma CfPairs()
    ensures f05_07_05 == Alternate(FIX_0_541196100 + FIX_0_765366865, FIX_0_541196100)
    ensures f05_05_m18 == Alternate(FIX_0_541196100, FIX_0_541196100 - FIX_1_847759065)
    ensures f11_m19_11 == Alternate(FIX_1_175875602 - FIX_1_961570560, FIX_1_175875602)
    ensures f11_11_m03 == Alternate(FIX_1_175875602, FIX_1_175875602 - FIX_0_390180644)
    ensures fm08_02_m08 == Alternate(FIX_0_298631336 - FIX_0_899976223, -FIX_0_899976223)
    ensures fm08_m08_15 == Alternate(-FIX_0_899976223, FIX_1_501321110 - FIX_0_899976223)
    ensures fm25_20_m25 == Alternate(FIX_2_053119869 - FIX_2_562915447, -FIX_2_562915447)
    ensures fm25_m25_30 == Alternate(-FIX_2_562915447, FIX_3_072711026 - FIX_2_562915447)
  {
  }

  function Alternate(f0: int, f1: int): (r: seq<int>)
  {
    [f0, f1, f0, f1, f0, f1, f0, f1]
  }

  function Abs(x: int): nat
  {
    if x < 0 then -x else x
  }

  lemma MulBound(x: int, f: int)
    requires IsI16(x)
    ensures -0x8000 * Abs(f) <= x * f <= 0x8000 * Abs(f)
  {
    if f >= 0 {
      assert x * f <= 0x8000 * f;
      assert -0x8000 * f <= x * f;
    } else {
      assert x * f <= 0x8000 * -f;
      assert -0x8000 * -f <= x * f;
    }
  }

  /** A two-term product sum of i16 lanes fits in an i32 lane when the
      constants are small enough, as all `cf` pairs are. */
  lemma LaneFits(x: int, y: int, f0: int, f1: int)
    requires IsI16(x) && IsI16(y) && Abs(f0) + Abs(f1) <= 0xFFFF
    ensures IsI32(x * f0 + y * f1)
  {
    MulBound(x, f0);
    MulBound(y, f1);
  }

  /** `madd` of `interleave(x, y)` with a constant pair (f0, f1, f0, f1, ...)
      is the exact scalar x[j] * f0 + y[j] * f1 in every lane j. */
  lemma MaddWideLanes(x: seq<int>, y: seq<int>, f0: int, f1: int)
    requires IsI16x8(x) && IsI16x8(y) && Abs(f0) + Abs(f1) <= 0xFFFF
    ensures forall j | 0 <= j < 8 :: Lane(MaddWide(x, y, Alternate(f0, f1)), j) == x[j] * f0 + y[j] * f1
  {
    var w := MaddWide(x, y, Alternate(f0, f1));
    forall j | 0 <= j < 8
      ensures Lane(w, j) == x[j] * f0 + y[j] * f1
    {
      if j < 4 {
        MaddLane(x, y, f0, f1, j);
      } else {
        MaddLane(x, y, f0, f1, j - 4);
      }
    }
  }

  /** Lane k of each half of that `madd`: the low half pairs x[k] with
      y[k], the high half x[4 + k] with y[4 + k]. */
  lemma MaddLane(x: seq<int>, y: seq<int>, f0: int, f1: int, k: nat)
    requires IsI16x8(x) && IsI16x8(y) && Abs(f0) + Abs(f1) <= 0xFFFF && k < 4
    ensures Madd(Interleave(x, y).0, Alternate(f0, f1))[k] == x[k] * f0 + y[k] * f1
    ensures Madd(Interleave(x, y).1, Alternate(f0, f1))[k] == x[4 + k] * f0 + y[4 + k] * f1
  {
    LaneFits(x[k], y[k], f0, f1);
    LaneFits(x[4 + k], y[4 + k], f0, f1);
    var (lo, hi) := Interleave(x, y);
    assert lo[2 * k] == x[k] && lo[2 * k + 1] == y[k];
    assert hi[2 * k] == x[4 + k] && hi[2 * k + 1] == y[4 + k];
  }

  // Ring identities that regroup a `madd` lane into the jidctint.c form.

  lemma RegroupAdd(a: int, b: int, p: int, q: int)
    ensures a * (p + q) + b * p == (a + b) * p + a * q
  {
  }

  lemma RegroupSubFirst(a: int, b: int, p: int, q: int)
    ensures a * (p - q) + b * p == (a + b) * p - a * q
  {
  }

  lemma RegroupSubSecond(a: int, b: int, p: int, q: int)
    ensures a * p + b * (p - q) == (a + b) * p - b * q
  {
  }

  lemma RegroupNegFirst(a: int, b: int, p: int, q: int)
    ensures a * (q - p) + b * -p == a * q - (a + b) * p
  {
  }

  lemma RegroupNegSecond(a: int, b: int, p: int, q: int)
    ensures a * -p + b * (q - p) == b * q - (a + b) * p
  {
  }

  /** The rotations of the even part are the scalar formulas of jidctint.c
      kept in comments at transform.rs:331-336 and 467-472:
      tmp2 = z2 * (FIX_0_541196100 + FIX_0_765366865) + z3 * FIX_0_541196100 and
      tmp3 = z2 * FIX_0_541196100 + z3 * (FIX_0_541196100 - FIX_1_847759065). */
  lemma EvenRotation(z2: seq<int>, z3: seq<int>)
    requires IsI16x8(z2) && IsI16x8(z3)
    ensures forall j | 0 <= j < 8 ::
      Lane(MaddWide(z2, z3, f05_07_05), j) == (z2[j] + z3[j]) * FIX_0_541196100 + z2[j] * FIX_0_765366865
    ensures forall j | 0 <= j < 8 ::
      Lane(MaddWide(z2, z3, f05_05_m18), j) == (z2[j] + z3[j]) * FIX_0_541196100 - z3[j] * FIX_1_847759065
  {
    CfPairs();
    MaddWideLanes(z2, z3, FIX_0_541196100 + FIX_0_765366865, FIX_0_541196100);
    MaddWideLanes(z2, z3, FIX_0_541196100, FIX_0_541196100 - FIX_1_847759065);
    forall j | 0 <= j < 8
      ensures z2[j] * (FIX_0_541196100 + FIX_0_765366865) + z3[j] * FIX_0_541196100
              == (z2[j] + z3[j]) * FIX_0_541196100 + z2[j] * FIX_0_765366865
      ensures z2[j] * FIX_0_541196100 + z3[j] * (FIX_0_541196100 - FIX_1_847759065)
              == (z2[j] + z3[j]) * FIX_0_541196100 - z3[j] * FIX_1_847759065
    {
      RegroupAdd(z2[j], z3[j], FIX_0_541196100, FIX_0_765366865);
      RegroupSubSecond(z2[j], z3[j], FIX_0_541196100, FIX_1_847759065);
    }
  }

  /** The rotations of the odd part (transform.rs:394-395, 410-411, 425-426
      and the same lines of the second pass): with z2 = t0 + t2 and
      z3 = t1 + t3 they are the jidctint.c formulas
      z5 = (z2 + z3) * FIX_1_175875602, z2' = z5 - z2 * FIX_1_961570560,
      z3' = z5 - z3 * FIX_0_390180644, and
      t0 * FIX_0_298631336 + (t0 + t3) * -FIX_0_899976223, ... */
  lemma OddRotation(t0: seq<int>, t1: seq<int>, t2: seq<int>, t3: seq<int>, z2: seq<int>, z3: seq<int>)
    requires IsI16x8(t0) && IsI16x8(t1) && IsI16x8(t2) && IsI16x8(t3) && IsI16x8(z2) && IsI16x8(z3)
    ensures forall j | 0 <= j < 8 ::
      Lane(MaddWide(z2, z3, f11_m19_11), j) == (z2[j] + z3[j]) * FIX_1_175875602 - z2[j] * FIX_1_961570560
    ensures forall j | 0 <= j < 8 ::
      Lane(MaddWide(z2, z3, f11_11_m03), j) == (z2[j] + z3[j]) * FIX_1_175875602 - z3[j] * FIX_0_390180644
    ensures forall j | 0 <= j < 8 ::
      Lane(MaddWide(t0, t3, fm08_02_m08), j) == t0[j] * FIX_0_298631336 - (t0[j] + t3[j]) * FIX_0_899976223
    ensures forall j | 0 <= j < 8 ::
      Lane(MaddWide(t0, t3, fm08_m08_15), j) == t3[j] * FIX_1_501321110 - (t0[j] + t3[j]) * FIX_0_899976223
    ensures forall j | 0 <= j < 8 ::
      Lane(MaddWide(t1, t2, fm25_20_m25), j) == t1[j] * FIX_2_053119869 - (t1[j] + t2[j]) * FIX_2_562915447
    ensures forall j | 0 <= j < 8 ::
      Lane(MaddWide(t1, t2, fm25_m25_30), j) == t2[j] * FIX_3_072711026 - (t1[j] + t2[j]) * FIX_2_562915447
  {
    CfPairs();
    MaddWideLanes(z2, z3, FIX_1_175875602 - FIX_1_961570560, FIX_1_175875602);
    MaddWideLanes(z2, z3, FIX_1_175875602, FIX_1_175875602 - FIX_0_390180644);
    MaddWideLanes(t0, t3, FIX_0_298631336 - FIX_0_899976223, -FIX_0_899976223);
    MaddWideLanes(t0, t3, -FIX_0_899976223, FIX_1_501321110 - FIX_0_899976223);
    MaddWideLanes(t1, t2, FIX_2_053119869 - FIX_2_562915447, -FIX_2_562915447);
    MaddWideLanes(t1, t2, -FIX_2_562915447, FIX_3_072711026 - FIX_2_562915447);
    forall j | 0 <= j < 8
      ensures z2[j] * (FIX_1_175875602 - FIX_1_961570560) + z3[j] * FIX_1_175875602
              == (z2[j] + z3[j]) * FIX_1_175875602 - z2[j] * FIX_1_961570560
      ensures z2[j] * FIX_1_175875602 + z3[j] * (FIX_1_175875602 - FIX_0_390180644)
              == (z2[j] + z3[j]) * FIX_1_175875602 - z3[j] * FIX_0_390180644
      ensures t0[j] * (FIX_0_298631336 - FIX_0_899976223) + t3[j] * -FIX_0_899976223
              == t0[j] * FIX_0_298631336 - (t0[j] + t3[j]) * FIX_0_899976223
      ensures t0[j] * -FIX_0_899976223 + t3[j] * (FIX_1_501321110 - FIX_0_899976223)
              == t3[j] * FIX_1_501321110 - (t0[j] + t3[j]) * FIX_0_899976223
      ensures t1[j] * (FIX_2_053119869 - FIX_2_562915447) + t2[j] * -FIX_2_562915447
              == t1[j] * FIX_2_053119869 - (t1[j] + t2[j]) * FIX_2_562915447
      ensures t1[j] * -FIX_2_562915447 + t2[j] * (FIX_3_072711026 - FIX_2_562915447)
              == t2[j] * FIX_3_072711026 - (t1[j] + t2[j]) * FIX_2_562915447
    {
      RegroupSubFirst(z2[j], z3[j], FIX_1_175875602, FIX_1_961570560);
      RegroupSubSecond(z2[j], z3[j], FIX_1_175875602, FIX_0_390180644);
      RegroupNegFirst(t0[j], t3[j], FIX_0_899976223, FIX_0_298631336);
      RegroupNegSecond(t0[j], t3[j], FIX_0_899976223, FIX_1_501321110);
      RegroupNegFirst(t1[j], t2[j], FIX_2_562915447, FIX_2_053119869);
      RegroupNegSecond(t1[j], t2[j], FIX_2_562915447, FIX_3_072711026);
    }
  }

  /** Lane j of `sp(a)` is the i16 saturation of lane j of a >> 18. */
  lemma SpLanes(a: Wide)
    requires IsWide(a)
    ensures forall j | 0 <= j < 8 :: Sp(a)[j] == Sat16(Shr(Lane(a, j), 18))
  {
    var r := Sp(a);
    forall j | 0 <= j < 8
      ensures r[j] == Sat16(Shr(Lane(a, j), 18))
    {
      assert j == 0 || j == 1 || j == 2 || j == 3 || j == 4 || j == 5 || j == 6 || j == 7;
    }
  }

  /** Byte j of `ps(p, q)` is the i8 saturation of lane j, plus 128. */
  lemma PsLanes(p: seq<int>, q: seq<int>)
    requires |p| == 8 && |q| == 8
    ensures forall j | 0 <= j < 8 :: Ps(p, q)[j] == Sat8(p[j]) + 128 && Ps(p, q)[8 + j] == Sat8(q[j]) + 128
  {
    var r := Ps(p, q);
    var k := Packs16(p, q);
    assert forall i | 0 <= i < 16 :: k[i] == Sat8(if i < 8 then p[i] else q[i - 8]);
    assert forall i | 0 <= i < 16 :: r[i] == (k[i] % 0x100 + 128) % 0x100;
  }

  /** `ps(sp(a), sp(b))` gives clamp(v >> 18, -128, 127) + 128 in every
      lane: the i16 saturation of `sp` never cuts below the i8 saturation
      of `ps`, and the wrapping +128 of the i8 bytes is the level shift to
      [0, 255]. */
  lemma SamplesAreClampedShifts(a: Wide, b: Wide)
    requires IsWide(a) && IsWide(b)
    ensures forall j | 0 <= j < 8 ::
      Ps(Sp(a), Sp(b))[j] == Clamp(Shr(Lane(a, j), 18), -128, 127) + 128 &&
      Ps(Sp(a), Sp(b))[8 + j] == Clamp(Shr(Lane(b, j), 18), -128, 127) + 128
  {
    SpLanes(a);
    SpLanes(b);
    PsLanes(Sp(a), Sp(b));
  }

  /** The i16 lane sums of the odd part wrap instead of failing
      (transform.rs:384-385, 506-507): rows 7 and 3 holding 0x7FFF and 1
      give z2 = -0x8000. */
  lemma OddSumWraps()
    ensures Add16(Splat(8, 0x7FFF), Splat(8, 1)) == Splat(8, -0x8000)
  {
  }

  // Lane arithmetic on splatted vectors, for the zero block.

  function WSplat(v: int): (r: Wide)
    ensures IsWide(r)
  {
    Wide(Splat(4, v), Splat(4, v))
  }

  lemma Add16Splat(a: int, b: int)
    ensures Add16(Splat(8, a), Splat(8, b)) == Splat(8, Wrap16(a + b))
    ensures Sub16(Splat(8, a), Splat(8, b)) == Splat(8, Wrap16(a - b))
  {
  }

  lemma WideSplat(a: int, b: int)
    ensures WAdd(WSplat(a), WSplat(b)) == WSplat(Wrap32(a + b))
    ensures WSub(WSplat(a), WSplat(b)) == WSplat(Wrap32(a - b))
  {
  }

  lemma MaddZero(f: seq<int>)
    requires |f| == 8
    ensures MaddWide(Splat(8, 0), Splat(8, 0), f) == WSplat(0)
  {
  }

  lemma WidenSplat(v: int)
    requires IsI16(v)
    ensures WShl(Widen(Splat(8, v)), CONST_BITS) == WSplat(Wrap32(v * 0x2000))
  {
    AsI32SignExtends(Splat(8, v));
    Pow2Values();
  }

  lemma SpSplat(v: int)
    ensures Sp(WSplat(v)) == Splat(8, Sat16(Shr(v, 18)))
  {
    SpLanes(WSplat(v));
  }

  /** n samples of value v. */
  function Fill(n: nat, v: byte): (r: seq<byte>)
    ensures |r| == n && forall i | 0 <= i < n :: r[i] == v
  {
    seq(n, _ => v)
  }

  lemma PsSplat(v: int, w: byte)
    requires w == Sat8(v) + 128
    ensures Ps(Splat(8, v), Splat(8, v)) == Fill(16, w)
  {
    PsLanes(Splat(8, v), Splat(8, v));
  }

  /** The even part of the second pass on zero rows: every t1x is 16 << 13. */
  lemma EvenPass2Zero()
    ensures var z := Splat(8, 0);
      EvenPass2(z, z, z, z) == (WSplat(0x2_0000), WSplat(0x2_0000), WSplat(0x2_0000), WSplat(0x2_0000))
  {
    var z := Splat(8, 0);
    Pow2Values();
    MaddZero(f05_07_05);
    MaddZero(f05_05_m18);
    Add16Splat(0, 16);
    Add16Splat(16, 0);
    WidenSplat(16);
    WideSplat(0x2_0000, 0);
  }

  /** The odd part on zero rows is zero. */
  lemma OddPartZero()
    ensures var z := Splat(8, 0);
      OddPart(z, z, z, z) == (WSplat(0), WSplat(0), WSplat(0), WSplat(0))
  {
    Add16Splat(0, 0);
    MaddZero(f11_m19_11);
    MaddZero(f11_11_m03);
    MaddZero(fm08_02_m08);
    MaddZero(fm08_m08_15);
    MaddZero(fm25_20_m25);
    MaddZero(fm25_m25_30);
    WideSplat(0, 0);
  }

  /** Eight zero rows: the all-zero coefficient block. */
  function ZeroRows(): (c: seq<seq<int>>)
    ensures IsBlock16(c)
  {
    seq(8, _ => Splat(8, 0))
  }

  lemma IdctPass1Zero()
    ensures IdctPass1(ZeroRows()) == ZeroRows()
  {
    var z := Splat(8, 0);
    assert Shl16(z, PASS1_BITS) == z;
  }

  lemma TransposeZero()
    ensures Transpose(ZeroRows()) == ZeroRows()
  {
    var c := ZeroRows();
    TransposeIsTranspose(c);
    var y := Transpose(c);
    forall i | 0 <= i < 8
      ensures y[i] == c[i]
    {
      assert forall j | 0 <= j < 8 :: y[i][j] == c[j][i];
    }
  }

  lemma Interleave8Fill(v: byte)
    ensures Interleave8(Fill(16, v), Fill(16, v)) == (Fill(16, v), Fill(16, v))
  {
    var (a, b) := Interleave8(Fill(16, v), Fill(16, v));
    assert a == Fill(16, v);
    assert b == Fill(16, v);
  }

  lemma TransposeBytesFlat(row: seq<byte>, v: byte)
    requires row == Fill(16, v)
    ensures TransposeBytes(row, row, row, row) == [row, row, row, row]
  {
    Interleave8Fill(v);
  }

  /** The second pass on zero rows: every `sp` row is zero. */
  lemma Pass2RowsZero()
    ensures Pass2Rows(ZeroRows()) == ZeroRows()
  {
    var c := ZeroRows();
    var z := Splat(8, 0);
    TransposeZero();
    var y := Transpose(c);
    assert y[0] == z && y[1] == z && y[2] == z && y[3] == z;
    assert y[4] == z && y[5] == z && y[6] == z && y[7] == z;
    EvenPass2Zero();
    OddPartZero();
    SpZero();
    assert Pass2Rows(c) == Rows(z, z, z, z, z, z, z, z);
  }

  /** The descaled sums and differences of the zero block are zero. */
  lemma SpZero()
    ensures Sp(WAdd(WSplat(0x2_0000), WSplat(0))) == Splat(8, 0)
    ensures Sp(WSub(WSplat(0x2_0000), WSplat(0))) == Splat(8, 0)
  {
    WideSplat(0x2_0000, 0);
    assert Wrap32(0x2_0000 + 0) == 0x2_0000 && Wrap32(0x2_0000 - 0) == 0x2_0000;
    SpSplat(0x2_0000);
    Pow2Values();
    assert Sat16(Shr(0x2_0000, 18)) == 0;
  }

  /** The second pass on zero rows gives 128 everywhere. */
  lemma IdctPass2Zero()
    ensures var f := Fill(16, 128); IdctPass2(ZeroRows()) == [f, f, f, f]
  {
    var a := Pass2Rows(ZeroRows());
    var f := Fill(16, 128);
    Pass2RowsZero();
    assert a[0] == Splat(8, 0) && a[2] == Splat(8, 0) && a[4] == Splat(8, 0) && a[6] == Splat(8, 0);
    assert a[1] == Splat(8, 0) && a[3] == Splat(8, 0) && a[5] == Splat(8, 0) && a[7] == Splat(8, 0);
    PsSplat(0, 128);
    TransposeBytesFlat(f, 128);
  }

  /** A block of zero coefficients takes the shortcut of transform.rs:322-323
      and decodes to 64 samples of 128, the level-shifted zero. */
  lemma ZeroBlockIsFlat()
    ensures IdctSamples(ZeroRows()) == Fill(64, 128)
  {
    IdctPass1Zero();
    IdctPass2Zero();
    FillConcat(128);
  }

  lemma FillConcat(v: byte)
    ensures var f := Fill(16, v); f + f + f + f == Fill(64, v)
  {
    var f := Fill(16, v);
    var s := f + f + f + f;
    forall i | 0 <= i < 64
      ensures s[i] == v
    {
      if i < 16 {
        assert s[i] == f[i];
      } else if i < 32 {
        assert s[i] == f[i - 16];
      } else if i < 48 {
        assert s[i] == f[i - 32];
      } else {
        assert s[i] == f[i - 48];
      }
    }
  }
}
