// The scalar forward DCT `fdct` of src/jpeg/transform.rs, a translation
// of IJG libjpeg's jfdctint.c: two passes of a butterfly factorisation of
// the 8-point DCT of section A.3.3 of ITU-T T.81, in 32-bit integers with
// 13 fraction bits, over the rows and then the columns of a block.
module ForwardDct {
  import opened Base
  import opened Transform

  /** The value of an i32 expression in a debug build, which panics when
      the value leaves the i32 range: every call below is a proof
      obligation that the source's arithmetic does not overflow there. */
  function I32(x: int): int
    requires IsI32(x)
  {
    x
  }

  /** `x << n` of an i32: the bits shifted out are lost, without a panic. */
  function Shl(x: int, n: nat): int
  {
    Wrap32(x * Pow2(n))
  }

  predicate IsSampleRow(s: seq<int>)
  {
    |s| == 8 && forall i | 0 <= i < 8 :: 0 <= s[i] < 0x100
  }

  /** A vector of eight pass-1 coefficients, each within 4096 of zero. */
  predicate IsPass1Vector(v: seq<int>)
  {
    |v| == 8 && forall i | 0 <= i < 8 :: -4096 <= v[i] <= 4096
  }

  /** The first rotation of the odd part (transform.rs:109-119 and
      171-181), with the rounding constant `fudge` added through z1. */
  function OddRotation(t12: int, t13: int, fudge: int): (r: (int, int))
    requires -0x4000 <= t12 <= 0x4000 && -0x4000 <= t13 <= 0x4000
    requires 0 <= fudge <= 0x4000
    ensures r.0 == 6437 * t12 + 9633 * t13 + fudge
    ensures r.1 == 9633 * t12 - 6436 * t13 + fudge
  {
    var z1 := I32(I32(I32(t12 + t13) * FIX_1_175875602) + fudge);
    (I32(I32(t12 * -FIX_0_390180644) + z1), I32(I32(t13 * -FIX_1_961570560) + z1))
  }

  /** The odd part shared by both passes of `fdct` (transform.rs:108-136
      and 170-198), from the differences d0..d3 (the source reuses the
      names t0..t3 for them). Its factorisation computes the odd rows of
      the DCT basis scaled by 2^13 * sqrt(2) (11363 = 8192 * sqrt(2) *
      cos(pi/16), ...), plus the rounding constant `fudge`, added once to
      each result through z1. */
  function FdctOdd(d0: int, d1: int, d2: int, d3: int, fudge: int): (r: (int, int, int, int))
    requires -8192 <= d0 <= 8192 && -8192 <= d1 <= 8192 && -8192 <= d2 <= 8192 && -8192 <= d3 <= 8192
    requires 0 <= fudge <= 0x4000
    ensures r.0 == 11363 * d0 + 9633 * d1 + 6437 * d2 + 2260 * d3 + fudge
    ensures r.1 == 9633 * d0 - 2259 * d1 - 11362 * d2 - 6436 * d3 + fudge
    ensures r.2 == 6437 * d0 - 11362 * d1 + 2261 * d2 + 9633 * d3 + fudge
    ensures r.3 == 2260 * d0 - 6436 * d1 + 9633 * d2 - 11363 * d3 + fudge
  {
    var (u12, u13) := OddRotation(I32(d0 + d2), I32(d1 + d3), fudge);
    var z2 := I32(I32(d0 + d3) * -FIX_0_899976223);
    var o0 := I32(I32(d0 * FIX_1_501321110) + I32(z2 + u12));
    var o3 := I32(I32(d3 * FIX_0_298631336) + I32(z2 + u13));
    var z3 := I32(I32(d1 + d2) * -FIX_2_562915447);
    var o1 := I32(I32(d1 * FIX_3_072711026) + I32(z3 + u13));
    var o2 := I32(I32(d2 * FIX_2_053119869) + I32(z3 + u12));
    (o0, o1, o2, o3)
  }

  /** The rotation of the even part shared by both passes of `fdct`
      (transform.rs:101-106 and 163-168): the rows 2 and 6 of the DCT basis,
      scaled by 2^13 * sqrt(2) (10703 = 8192 * sqrt(2) * cos(pi/8), 4433 =
      8192 * sqrt(2) * sin(pi/8)), plus the rounding constant `fudge`. */
  function FdctEven(t12: int, t13: int, fudge: int): (r: (int, int))
    requires -0x4000 <= t12 <= 0x4000 && -0x4000 <= t13 <= 0x4000
    requires 0 <= fudge <= 0x4000
    ensures r.0 == 10703 * t12 + 4433 * t13 + fudge
    ensures r.1 == 4433 * t12 - 10704 * t13 + fudge
  {
    var z1 := I32(I32(I32(t12 + t13) * FIX_0_541196100) + fudge);
    (I32(z1 + I32(t12 * FIX_0_765366865)), I32(z1 - I32(t13 * FIX_1_847759065)))
  }

  /** A pass-1 value shifted down by CONST_BITS - PASS1_BITS is within
      4096 of zero when the value is within 2^23. */
  lemma Pass1ShiftBound(x: int)
    requires -0x80_0000 <= x < 0x80_0000
    ensures -4096 <= Shr(x, CONST_BITS - PASS1_BITS) < 4096
  {
    Pow2Values();
  }

  /** A level-shifted even sum shifted up by PASS1_BITS loses no bits. */
  lemma Pass1ScaleExact(x: int)
    requires -1024 <= x <= 1024
    ensures Shl(x, PASS1_BITS) == x * 4
    ensures -4096 <= Shl(x, PASS1_BITS) <= 4096
  {
    Pow2Values();
  }

  /** Pass-1 even part (transform.rs:81-106): coefficients 0, 2, 4 and 6
      of a row. */
  function RowEven(s: seq<int>): (r: (int, int, int, int))
    requires IsSampleRow(s)
    ensures r.0 == (s[0] + s[1] + s[2] + s[3] + s[4] + s[5] + s[6] + s[7] - 8 * 128) * 4
    ensures -4096 <= r.0 <= 4096 && -4096 <= r.1 <= 4096 && -4096 <= r.2 <= 4096 && -4096 <= r.3 <= 4096
  {
    var t0 := I32(s[0] + s[7]);
    var t1 := I32(s[1] + s[6]);
    var t2 := I32(s[2] + s[5]);
    var t3 := I32(s[3] + s[4]);
    var t10 := I32(t0 + t3);
    var t12 := I32(t0 - t3);
    var t11 := I32(t1 + t2);
    var t13 := I32(t1 - t2);
    var dc := I32(I32(t10 + t11) - 8 * 128);
    var ac := I32(t10 - t11);
    Pass1ScaleExact(dc);
    Pass1ScaleExact(ac);
    Pow2Values();
    var (e2, e6) := FdctEven(t12, t13, Pow2(CONST_BITS - PASS1_BITS - 1));
    Pass1ShiftBound(e2);
    Pass1ShiftBound(e6);
    (Shl(dc, PASS1_BITS), Shr(e2, CONST_BITS - PASS1_BITS), Shl(ac, PASS1_BITS), Shr(e6, CONST_BITS - PASS1_BITS))
  }

  /** The odd sums of pass 1 for differences of samples stay within the
      range Pass1ShiftBound asks for. */
  lemma RowOddRange(d0: int, d1: int, d2: int, d3: int, fudge: int)
    requires -255 <= d0 <= 255 && -255 <= d1 <= 255 && -255 <= d2 <= 255 && -255 <= d3 <= 255
    requires 0 <= fudge <= 0x4000
    ensures -0x80_0000 <= 11363 * d0 + 9633 * d1 + 6437 * d2 + 2260 * d3 + fudge < 0x80_0000
    ensures -0x80_0000 <= 9633 * d0 - 2259 * d1 - 11362 * d2 - 6436 * d3 + fudge < 0x80_0000
    ensures -0x80_0000 <= 6437 * d0 - 11362 * d1 + 2261 * d2 + 9633 * d3 + fudge < 0x80_0000
    ensures -0x80_0000 <= 2260 * d0 - 6436 * d1 + 9633 * d2 - 11363 * d3 + fudge < 0x80_0000
  {
  }

  /** Pass-1 odd part (transform.rs:92-95 and 108-136): coefficients 1, 3,
      5 and 7 of a row. */
  function RowOdd(s: seq<int>): (r: (int, int, int, int))
    requires IsSampleRow(s)
    ensures -4096 <= r.0 <= 4096 && -4096 <= r.1 <= 4096 && -4096 <= r.2 <= 4096 && -4096 <= r.3 <= 4096
  {
    Pow2Values();
    var (o0, o1, o2, o3) := FdctOdd(I32(s[0] - s[7]), I32(s[1] - s[6]), I32(s[2] - s[5]), I32(s[3] - s[4]),
                                    Pow2(CONST_BITS - PASS1_BITS - 1));
    RowOddRange(s[0] - s[7], s[1] - s[6], s[2] - s[5], s[3] - s[4], Pow2(CONST_BITS - PASS1_BITS - 1));
    Pass1ShiftBound(o0);
    Pass1ShiftBound(o1);
    Pass1ShiftBound(o2);
    Pass1ShiftBound(o3);
    (Shr(o0, CONST_BITS - PASS1_BITS), Shr(o1, CONST_BITS - PASS1_BITS),
     Shr(o2, CONST_BITS - PASS1_BITS), Shr(o3, CONST_BITS - PASS1_BITS))
  }

  /** Pass 1 of `fdct` on one row of samples (transform.rs:78-137): the
      eight coefficients of the row, in index order. Coefficient 0 is the
      level-shifted row sum scaled by 2^PASS1_BITS, and every coefficient
      lies within 4096 of zero. */
  function FdctRow(s: seq<int>): (r: seq<int>)
    requires IsSampleRow(s)
    ensures IsPass1Vector(r)
    ensures r[0] == (s[0] + s[1] + s[2] + s[3] + s[4] + s[5] + s[6] + s[7] - 8 * 128) * 4
  {
    var e := RowEven(s);
    var o := RowOdd(s);
    [e.0, o.0, e.1, o.1, e.2, o.2, e.3, o.3]
  }

  /** Pass-2 even part (transform.rs:143-168): coefficients 0, 2, 4 and 6
      of a column of pass-1 values. */
  function ColumnEven(v: seq<int>): (r: (int, int, int, int))
    requires IsPass1Vector(v)
    ensures r.0 == Shr(v[0] + v[1] + v[2] + v[3] + v[4] + v[5] + v[6] + v[7] + Pow2(PASS1_BITS - 1), PASS1_BITS)
  {
    var t0 := I32(v[0] + v[7]);
    var t1 := I32(v[1] + v[6]);
    var t2 := I32(v[2] + v[5]);
    var t3 := I32(v[3] + v[4]);
    Pow2Values();
    var t10 := I32(I32(t0 + t3) + Pow2(PASS1_BITS - 1));
    var t12 := I32(t0 - t3);
    var t11 := I32(t1 + t2);
    var t13 := I32(t1 - t2);
    var (e2, e6) := FdctEven(t12, t13, Pow2(CONST_BITS + PASS1_BITS - 1));
    (Shr(I32(t10 + t11), PASS1_BITS), Shr(e2, CONST_BITS + PASS1_BITS),
     Shr(I32(t10 - t11), PASS1_BITS), Shr(e6, CONST_BITS + PASS1_BITS))
  }

  /** Pass-2 odd part (transform.rs:155-158 and 170-198): coefficients 1,
      3, 5 and 7 of a column are the basis rows 1, 3, 5, 7 applied to the
      column, plus the rounding constant `fudge`, shifted down by
      CONST_BITS + PASS1_BITS. */
  function ColumnOdd(v: seq<int>, fudge: int): (r: (int, int, int, int))
    requires IsPass1Vector(v)
    requires 0 <= fudge <= 0x4000
    ensures r.0 == Shr(Dot(FDCT_BASIS[1], v) + fudge, CONST_BITS + PASS1_BITS)
    ensures r.1 == Shr(Dot(FDCT_BASIS[3], v) + fudge, CONST_BITS + PASS1_BITS)
    ensures r.2 == Shr(Dot(FDCT_BASIS[5], v) + fudge, CONST_BITS + PASS1_BITS)
    ensures r.3 == Shr(Dot(FDCT_BASIS[7], v) + fudge, CONST_BITS + PASS1_BITS)
  {
    var (o0, o1, o2, o3) := FdctOdd(I32(v[0] - v[7]), I32(v[1] - v[6]), I32(v[2] - v[5]), I32(v[3] - v[4]), fudge);
    (Shr(o0, CONST_BITS + PASS1_BITS), Shr(o1, CONST_BITS + PASS1_BITS),
     Shr(o2, CONST_BITS + PASS1_BITS), Shr(o3, CONST_BITS + PASS1_BITS))
  }

  /** Pass 2 of `fdct` on one column, in index order, with the odd part's
      rounding constant as a parameter: the code adds 2^10 there, where
      the shift that follows calls for 2^14 (see FdctColumnAsWritten). */
  function FdctColumnWith(v: seq<int>, oddFudge: int): (r: seq<int>)
    requires IsPass1Vector(v)
    requires 0 <= oddFudge <= 0x4000
    ensures |r| == 8
  {
    var e := ColumnEven(v);
    var o := ColumnOdd(v, oddFudge);
    [e.0, o.0, e.1, o.1, e.2, o.2, e.3, o.3]
  }

  /** Pass 2 as transform.rs:176 writes it: the odd part adds
      1 << (CONST_BITS - PASS1_BITS - 1) before shifting by
      CONST_BITS + PASS1_BITS. */
  function FdctColumnAsWritten(v: seq<int>): (r: seq<int>)
    requires IsPass1Vector(v)
    ensures |r| == 8
  {
    Pow2Values();
    FdctColumnWith(v, Pow2(CONST_BITS - PASS1_BITS - 1))
  }

  /** Pass 2 with the odd part rounded as the even part is, by
      1 << (CONST_BITS + PASS1_BITS - 1), as in IJG's jfdctint.c. */
  function FdctColumn(v: seq<int>): (r: seq<int>)
    requires IsPass1Vector(v)
    ensures |r| == 8
  {
    Pow2Values();
    FdctColumnWith(v, Pow2(CONST_BITS + PASS1_BITS - 1))
  }

  // ---------------------------------------------------------------------
  // The factorisation against the DCT matrix

  /** The 8-point DCT basis the factorisation multiplies by, scaled by
      2^13: row k, column n is 2^13 * sqrt(2) * c(k) * cos((2n + 1) k pi / 16)
      with c(0) = 1 / sqrt(2) and c(k) = 1 otherwise, as the products of
      the FIX_ constants round it (row 3 has -2259 where the cosine gives
      -2260, row 5 has 2261). Rows 1 to 7 sum to zero. */
  const FDCT_BASIS: seq<seq<int>> := [
    [8192, 8192, 8192, 8192, 8192, 8192, 8192, 8192],
    [11363, 9633, 6437, 2260, -2260, -6437, -9633, -11363],
    [10703, 4433, -4433, -10703, -10703, -4433, 4433, 10703],
    [9633, -2259, -11362, -6436, 6436, 11362, 2259, -9633],
    [8192, -8192, -8192, 8192, 8192, -8192, -8192, 8192],
    [6437, -11362, 2261, 9633, -9633, -2261, 11362, -6437],
    [4433, -10704, 10704, -4433, -4433, 10704, -10704, 4433],
    [2260, -6436, 9633, -11363, 11363, -9633, 6436, -2260]
  ]

  function Dot(b: seq<int>, v: seq<int>): int
    requires |b| == 8 && |v| == 8
  {
    b[0] * v[0] + b[1] * v[1] + b[2] * v[2] + b[3] * v[3] +
    b[4] * v[4] + b[5] * v[5] + b[6] * v[6] + b[7] * v[7]
  }

  /** The "unsigned -> signed conversion" of the samples: minus 128 each. */
  function LevelShift(s: seq<int>): (r: seq<int>)
    ensures |r| == |s|
    ensures forall i | 0 <= i < |s| :: r[i] == s[i] - 128
  {
    seq(|s|, i requires 0 <= i < |s| => s[i] - 128)
  }

  /** x / 2^n rounded to the nearest integer, halves upwards: the descale
      of the IJG integer DCT, a shift after adding half of the divisor. */
  function RoundShift(x: int, n: nat): int
    requires n >= 1
  {
    Shr(x + Pow2(n - 1), n)
  }

  /** RoundShift(x, n) is a nearest integer to x / 2^n. */
  lemma RoundShiftNearest(x: int, n: nat)
    requires n >= 1
    ensures var r := RoundShift(x, n); r * Pow2(n) - Pow2(n - 1) <= x < r * Pow2(n) + Pow2(n - 1)
  {
    var h, p := Pow2(n - 1), Pow2(n);
    RoundShiftBounds(x, h, p);
    assert RoundShift(x, n) == (x + h) / p;
  }

  lemma RoundShiftBounds(x: int, h: int, p: int)
    requires p > 0 && p == 2 * h
    ensures ((x + h) / p) * p - h <= x < ((x + h) / p) * p + h
  {
    var q := (x + h) / p;
    var m := (x + h) % p;
    assert x + h == q * p + m && 0 <= m < p;
  }

  /** The reference the passes are measured against: the DCT basis
      applied to eight values, each product divided by 2^n and rounded to
      the nearest integer. */
  function RoundedDct(v: seq<int>, n: nat): (r: seq<int>)
    requires |v| == 8 && n >= 1
    ensures |r| == 8
    ensures forall k | 0 <= k < 8 :: r[k] == RoundShift(Dot(FDCT_BASIS[k], v), n)
  {
    seq(8, k requires 0 <= k < 8 => RoundShift(Dot(FDCT_BASIS[k], v), n))
  }

  /** Division by a power of two undoes a multiplication by it. */
  lemma ShrOfMultiple(q: int, f: int)
    requires 0 <= f < 2048
    ensures Shr(q * 8192 + f, CONST_BITS - PASS1_BITS) == q * 4
  {
    Pow2Values();
  }

  /** Scaling by 2^13 before the pass-2 shift by 15 is the shift by 2. */
  lemma ShrScaled(x: int)
    ensures Shr(x, PASS1_BITS) == Shr(x * 8192, CONST_BITS + PASS1_BITS)
  {
    Pow2Values();
  }

  /** Pass 1, even part, is the DCT matrix product: coefficients 0, 2, 4
      and 6 of a row are the basis rows 0, 2, 4, 6 applied to the
      level-shifted samples, descaled by 2^11 with rounding. */
  lemma {:induction false} RowEvenIsMatrixProduct(s: seq<int>)
    requires IsSampleRow(s)
    ensures RowEven(s).0 == RoundShift(Dot(FDCT_BASIS[0], LevelShift(s)), CONST_BITS - PASS1_BITS)
    ensures RowEven(s).1 == RoundShift(Dot(FDCT_BASIS[2], LevelShift(s)), CONST_BITS - PASS1_BITS)
    ensures RowEven(s).2 == RoundShift(Dot(FDCT_BASIS[4], LevelShift(s)), CONST_BITS - PASS1_BITS)
    ensures RowEven(s).3 == RoundShift(Dot(FDCT_BASIS[6], LevelShift(s)), CONST_BITS - PASS1_BITS)
  {
    var l := LevelShift(s);
    Pow2Values();
    var dc := s[0] + s[1] + s[2] + s[3] + s[4] + s[5] + s[6] + s[7] - 8 * 128;
    var ac := s[0] + s[7] + s[3] + s[4] - s[1] - s[6] - s[2] - s[5];
    assert Dot(FDCT_BASIS[0], l) == dc * 8192;
    assert Dot(FDCT_BASIS[4], l) == ac * 8192;
    ShrOfMultiple(dc, 1024);
    ShrOfMultiple(ac, 1024);
    Pass1ScaleExact(ac);
  }

  /** Pass 1, odd part: basis rows 1, 3, 5, 7, descaled with rounding. */
  lemma {:induction false} RowOddIsMatrixProduct(s: seq<int>)
    requires IsSampleRow(s)
    ensures RowOdd(s).0 == RoundShift(Dot(FDCT_BASIS[1], LevelShift(s)), CONST_BITS - PASS1_BITS)
    ensures RowOdd(s).1 == RoundShift(Dot(FDCT_BASIS[3], LevelShift(s)), CONST_BITS - PASS1_BITS)
    ensures RowOdd(s).2 == RoundShift(Dot(FDCT_BASIS[5], LevelShift(s)), CONST_BITS - PASS1_BITS)
    ensures RowOdd(s).3 == RoundShift(Dot(FDCT_BASIS[7], LevelShift(s)), CONST_BITS - PASS1_BITS)
  {
    Pow2Values();
    var l := LevelShift(s);
    var d0, d1, d2, d3 := s[0] - s[7], s[1] - s[6], s[2] - s[5], s[3] - s[4];
    assert l[0] - l[7] == d0 && l[1] - l[6] == d1 && l[2] - l[5] == d2 && l[3] - l[4] == d3;
    OddDot(l, d0, d1, d2, d3);
    var o := FdctOdd(I32(s[0] - s[7]), I32(s[1] - s[6]), I32(s[2] - s[5]), I32(s[3] - s[4]),
                     Pow2(CONST_BITS - PASS1_BITS - 1));
    assert RowOdd(s) == (Shr(o.0, CONST_BITS - PASS1_BITS), Shr(o.1, CONST_BITS - PASS1_BITS),
                         Shr(o.2, CONST_BITS - PASS1_BITS), Shr(o.3, CONST_BITS - PASS1_BITS));
  }

  /** The odd rows of the basis read only the differences of mirrored
      entries. */
  lemma OddDot(l: seq<int>, d0: int, d1: int, d2: int, d3: int)
    requires |l| == 8
    requires l[0] - l[7] == d0 && l[1] - l[6] == d1 && l[2] - l[5] == d2 && l[3] - l[4] == d3
    ensures Dot(FDCT_BASIS[1], l) == 11363 * d0 + 9633 * d1 + 6437 * d2 + 2260 * d3
    ensures Dot(FDCT_BASIS[3], l) == 9633 * d0 - 2259 * d1 - 11362 * d2 - 6436 * d3
    ensures Dot(FDCT_BASIS[5], l) == 6437 * d0 - 11362 * d1 + 2261 * d2 + 9633 * d3
    ensures Dot(FDCT_BASIS[7], l) == 2260 * d0 - 6436 * d1 + 9633 * d2 - 11363 * d3
  {
  }

  /** Pass 2, even part: basis rows 0, 2, 4, 6 applied to the column,
      descaled by 2^15 with rounding. */
  lemma {:induction false} ColumnEvenIsMatrixProduct(v: seq<int>)
    requires IsPass1Vector(v)
    ensures ColumnEven(v).0 == RoundShift(Dot(FDCT_BASIS[0], v), CONST_BITS + PASS1_BITS)
    ensures ColumnEven(v).1 == RoundShift(Dot(FDCT_BASIS[2], v), CONST_BITS + PASS1_BITS)
    ensures ColumnEven(v).2 == RoundShift(Dot(FDCT_BASIS[4], v), CONST_BITS + PASS1_BITS)
    ensures ColumnEven(v).3 == RoundShift(Dot(FDCT_BASIS[6], v), CONST_BITS + PASS1_BITS)
  {
    Pow2Values();
    var dc := v[0] + v[1] + v[2] + v[3] + v[4] + v[5] + v[6] + v[7];
    var ac := v[0] + v[7] + v[3] + v[4] - v[1] - v[6] - v[2] - v[5];
    assert Dot(FDCT_BASIS[0], v) + 0x4000 == (dc + 2) * 8192;
    assert Dot(FDCT_BASIS[4], v) + 0x4000 == (ac + 2) * 8192;
    ShrScaled(dc + 2);
    ShrScaled(ac + 2);
  }

  /** Pass 1 of `fdct` on a row is the DCT matrix product: each coefficient
      is its basis row applied to the level-shifted samples, divided by
      2^11 and rounded to the nearest integer. */
  lemma {:induction false} FdctRowIsMatrixProduct(s: seq<int>)
    requires IsSampleRow(s)
    ensures FdctRow(s) == RoundedDct(LevelShift(s), CONST_BITS - PASS1_BITS)
  {
    RowEvenIsMatrixProduct(s);
    RowOddIsMatrixProduct(s);
    var r := FdctRow(s);
    assert r[0] == RowEven(s).0 && r[2] == RowEven(s).1 && r[4] == RowEven(s).2 && r[6] == RowEven(s).3;
    assert r[1] == RowOdd(s).0 && r[3] == RowOdd(s).1 && r[5] == RowOdd(s).2 && r[7] == RowOdd(s).3;
    assert forall k | 0 <= k < 8 :: r[k] == RoundedDct(LevelShift(s), CONST_BITS - PASS1_BITS)[k];
  }

  /** Pass 2 with the corrected rounding is the DCT matrix product on a
      column: each coefficient is its basis row applied to the column,
      divided by 2^15 and rounded to the nearest integer. */
  lemma {:induction false} FdctColumnIsMatrixProduct(v: seq<int>)
    requires IsPass1Vector(v)
    ensures FdctColumn(v) == RoundedDct(v, CONST_BITS + PASS1_BITS)
  {
    Pow2Values();
    ColumnEvenIsMatrixProduct(v);
    var r := FdctColumn(v);
    var e := ColumnEven(v);
    var o := ColumnOdd(v, 0x4000);
    assert r == [e.0, o.0, e.1, o.1, e.2, o.2, e.3, o.3];
    assert forall k | 0 <= k < 8 :: r[k] == RoundedDct(v, CONST_BITS + PASS1_BITS)[k];
  }

  /** Pass 2 as written rounds the even coefficients to the nearest, but
      adds only 2^10 before the odd coefficients' shift by 2^15, so that
      those are rounded towards minus infinity, except within 2^10 below
      a multiple of 2^15. */
  lemma {:induction false} FdctColumnAsWrittenOdd(v: seq<int>)
    requires IsPass1Vector(v)
    ensures forall k | 0 <= k < 8 && k % 2 == 0 ::
      FdctColumnAsWritten(v)[k] == RoundShift(Dot(FDCT_BASIS[k], v), CONST_BITS + PASS1_BITS)
    ensures forall k | 0 <= k < 8 && k % 2 == 1 ::
      FdctColumnAsWritten(v)[k] == Shr(Dot(FDCT_BASIS[k], v) + Pow2(CONST_BITS - PASS1_BITS - 1), CONST_BITS + PASS1_BITS)
  {
    Pow2Values();
    ColumnEvenIsMatrixProduct(v);
    var r := FdctColumnAsWritten(v);
    var e := ColumnEven(v);
    var o := ColumnOdd(v, 1024);
    assert r == [e.0, o.0, e.1, o.1, e.2, o.2, e.3, o.3];
  }

  /** A column the odd part of pass 2 rounds the wrong way: its basis-3
      product is -2259, less than half of 2^15 away from zero, so the
      rounded coefficient 3 is 0; the code yields -1. */
  lemma AsWrittenColumnRoundsDown()
    ensures Dot(FDCT_BASIS[3], [0, 1, 0, 0, 0, 0, 0, 0]) == -2259
    ensures FdctColumn([0, 1, 0, 0, 0, 0, 0, 0])[3] == 0
    ensures FdctColumnAsWritten([0, 1, 0, 0, 0, 0, 0, 0])[3] == -1
  {
    var v := [0, 1, 0, 0, 0, 0, 0, 0];
    assert IsPass1Vector(v);
    CorrectedColumnRoundsToZero(v);
    AsWrittenColumnIsMinusOne(v);
  }

  lemma CorrectedColumnRoundsToZero(v: seq<int>)
    requires v == [0, 1, 0, 0, 0, 0, 0, 0] && IsPass1Vector(v)
    ensures Dot(FDCT_BASIS[3], v) == -2259
    ensures FdctColumn(v)[3] == 0
  {
    FdctColumnIsMatrixProduct(v);
    Pow2Values();
  }

  lemma AsWrittenColumnIsMinusOne(v: seq<int>)
    requires v == [0, 1, 0, 0, 0, 0, 0, 0] && IsPass1Vector(v)
    ensures FdctColumnAsWritten(v)[3] == -1
  {
    FdctColumnAsWrittenOdd(v);
    assert Dot(FDCT_BASIS[3], v) == -2259;
    Pow2Values();
  }

  // ---------------------------------------------------------------------
  // The whole block

  /** 64 samples of a block in row order, each an unsigned byte. */
  predicate IsSampleBlock(s: seq<int>)
  {
    |s| == 64 && forall i | 0 <= i < 64 :: 0 <= s[i] < 0x100
  }

  function SampleRow(s: seq<int>, y: int): (r: seq<int>)
    requires IsSampleBlock(s) && 0 <= y < 8
    ensures IsSampleRow(r)
  {
    s[8 * y .. 8 * y + 8]
  }

  /** Eight rows of pass-1 values. */
  predicate IsPass1Block(p: seq<seq<int>>)
  {
    |p| == 8 && forall y | 0 <= y < 8 :: IsPass1Vector(p[y])
  }

  /** Row y of the block after pass 1: the rounded DCT of sample row y,
      level-shifted. */
  function Pass1Row(s: seq<int>, y: int): (r: seq<int>)
    requires IsSampleBlock(s) && 0 <= y < 8
    ensures r == RoundedDct(LevelShift(SampleRow(s, y)), CONST_BITS - PASS1_BITS)
    ensures IsPass1Vector(r)
  {
    FdctRowIsMatrixProduct(SampleRow(s, y));
    RoundedDct(LevelShift(SampleRow(s, y)), CONST_BITS - PASS1_BITS)
  }

  /** The block after pass 1. */
  function Pass1(s: seq<int>): (p: seq<seq<int>>)
    requires IsSampleBlock(s)
    ensures IsPass1Block(p)
    ensures forall y | 0 <= y < 8 :: p[y] == Pass1Row(s, y)
  {
    seq(8, y requires 0 <= y < 8 => Pass1Row(s, y))
  }

  /** Column x of a block. */
  function ColumnOf(p: seq<seq<int>>, x: int): (v: seq<int>)
    requires IsMatrix(p) && 0 <= x < 8
    ensures |v| == 8
    ensures forall k | 0 <= k < 8 :: v[k] == p[k][x]
    ensures IsPass1Block(p) ==> IsPass1Vector(v)
  {
    seq(8, k requires 0 <= k < 8 => p[k][x])
  }

  /** Pass 2 over every column of a pass-1 block with the corrected
      rounding: the rounded DCT of each column. */
  function Pass2(p: seq<seq<int>>): (c: seq<seq<int>>)
    requires IsMatrix(p)
    ensures |c| == 8 && forall x | 0 <= x < 8 :: c[x] == RoundedDct(ColumnOf(p, x), CONST_BITS + PASS1_BITS)
  {
    seq(8, x requires 0 <= x < 8 => RoundedDct(ColumnOf(p, x), CONST_BITS + PASS1_BITS))
  }

  /** The corrected reference for `fdct`: the separable two-dimensional
      DCT of the level-shifted block, the rows first, each pass rounded to
      the nearest as jfdctint.c descales it. Row u, column x is
      coefficient u of pass 2 on column x of pass 1. The code differs from
      it in the odd rows (see FdctAsWritten). */
  function FdctSpec(s: seq<int>): (c: seq<seq<int>>)
    requires IsSampleBlock(s)
    ensures IsMatrix(c)
    ensures forall u | 0 <= u < 8 :: c[u] == ColumnOf(Pass2(Pass1(s)), u)
  {
    var cols := Pass2(Pass1(s));
    seq(8, u requires 0 <= u < 8 => ColumnOf(cols, u))
  }

  /** Pass 2 over every column of a pass-1 block as transform.rs:139-199
      computes it, with the rounding term of line 176. */
  function Pass2AsWritten(p: seq<seq<int>>): (c: seq<seq<int>>)
    requires IsPass1Block(p)
    ensures IsMatrix(c)
  {
    seq(8, x requires 0 <= x < 8 => FdctColumnAsWritten(ColumnOf(p, x)))
  }

  /** The coefficients `fdct` leaves: row u, column x is coefficient u of
      the as-written pass 2 on column x of pass 1. */
  function FdctAsWritten(s: seq<int>): (c: seq<seq<int>>)
    requires IsSampleBlock(s)
    ensures IsMatrix(c)
  {
    var cols := Pass2AsWritten(Pass1(s));
    seq(8, u requires 0 <= u < 8 => ColumnOf(cols, u))
  }

  /** Adding 2^10 instead of 2^14 before a shift by 15 yields the rounded
      value or one less. */
  lemma SmallFudgeRoundsDown(d: int)
    ensures RoundShift(d, CONST_BITS + PASS1_BITS) - 1 <= Shr(d + 1024, CONST_BITS + PASS1_BITS)
    ensures Shr(d + 1024, CONST_BITS + PASS1_BITS) <= RoundShift(d, CONST_BITS + PASS1_BITS)
  {
    Pow2Values();
  }

  /** Coefficient k of a column as written, against the rounded DCT. */
  lemma ColumnAsWrittenEntry(v: seq<int>, k: int)
    requires IsPass1Vector(v) && 0 <= k < 8
    ensures k % 2 == 0 ==> FdctColumnAsWritten(v)[k] == RoundedDct(v, CONST_BITS + PASS1_BITS)[k]
    ensures k % 2 == 1 ==> FdctColumnAsWritten(v)[k] == Shr(Dot(FDCT_BASIS[k], v) + 1024, CONST_BITS + PASS1_BITS)
    ensures k % 2 == 1 ==> RoundedDct(v, CONST_BITS + PASS1_BITS)[k] - 1 <= FdctColumnAsWritten(v)[k]
    ensures FdctColumnAsWritten(v)[k] <= RoundedDct(v, CONST_BITS + PASS1_BITS)[k]
  {
    Pow2Values();
    FdctColumnAsWrittenOdd(v);
    SmallFudgeRoundsDown(Dot(FDCT_BASIS[k], v));
  }

  /** Entry (u, x) of both block functions is coefficient u of column x of
      pass 1, as written and rounded. */
  lemma {:induction false} BlockEntries(s: seq<int>, u: int, x: int)
    requires IsSampleBlock(s) && 0 <= u < 8 && 0 <= x < 8
    ensures FdctAsWritten(s)[u][x] == FdctColumnAsWritten(ColumnOf(Pass1(s), x))[u]
    ensures FdctSpec(s)[u][x] == RoundedDct(ColumnOf(Pass1(s), x), CONST_BITS + PASS1_BITS)[u]
  {
    var p := Pass1(s);
    assert FdctAsWritten(s)[u][x] == Pass2AsWritten(p)[x][u];
    assert FdctSpec(s)[u][x] == Pass2(p)[x][u];
  }

  /** What `fdct` computes, against the corrected reference: the even rows
      (the DC among them) are the rounded DCT, and each odd coefficient is
      the rounded DCT coefficient or one less (ColumnAsWrittenEntry gives
      its exact value). */
  lemma {:induction false} FdctAsWrittenAgainstSpec(s: seq<int>, u: int, x: int)
    requires IsSampleBlock(s) && 0 <= u < 8 && 0 <= x < 8
    ensures u % 2 == 0 ==> FdctAsWritten(s)[u][x] == FdctSpec(s)[u][x]
    ensures FdctSpec(s)[u][x] - 1 <= FdctAsWritten(s)[u][x] <= FdctSpec(s)[u][x]
  {
    BlockEntries(s, u, x);
    ColumnAsWrittenEntry(ColumnOf(Pass1(s), x), u);
  }

  /** The DC coefficient `fdct` leaves is the level-shifted sum of the
      block, as in the corrected reference. */
  lemma {:induction false} FdctAsWrittenDc(s: seq<int>)
    requires IsSampleBlock(s)
    ensures FdctAsWritten(s)[0][0] == Sum(s) - 64 * 128
  {
    FdctAsWrittenAgainstSpec(s, 0, 0);
    FdctDc(s);
  }

  /** The sum of a sequence. */
  function Sum(s: seq<int>): int
  {
    if |s| == 0 then 0 else Sum(s[..|s| - 1]) + s[|s| - 1]
  }

  lemma {:induction false} SumConcat(a: seq<int>, b: seq<int>)
    ensures Sum(a + b) == Sum(a) + Sum(b)
    decreases |b|
  {
    if |b| == 0 {
      assert a + b == a;
    } else {
      assert (a + b)[..|a + b| - 1] == a + b[..|b| - 1];
      SumConcat(a, b[..|b| - 1]);
    }
  }

  lemma Sum8(s: seq<int>)
    requires |s| == 8
    ensures Sum(s) == s[0] + s[1] + s[2] + s[3] + s[4] + s[5] + s[6] + s[7]
  {
    assert Sum(s[..1]) == s[0] by { assert s[..1][..0] == []; }
    assert Sum(s[..2]) == Sum(s[..1]) + s[1] by { assert s[..2][..1] == s[..1]; }
    assert Sum(s[..3]) == Sum(s[..2]) + s[2] by { assert s[..3][..2] == s[..2]; }
    assert Sum(s[..4]) == Sum(s[..3]) + s[3] by { assert s[..4][..3] == s[..3]; }
    assert Sum(s[..5]) == Sum(s[..4]) + s[4] by { assert s[..5][..4] == s[..4]; }
    assert Sum(s[..6]) == Sum(s[..5]) + s[5] by { assert s[..6][..5] == s[..5]; }
    assert Sum(s[..7]) == Sum(s[..6]) + s[6] by { assert s[..7][..6] == s[..6]; }
  }

  /** Row 0 of the basis is flat: its product is 2^13 times the sum. */
  lemma DotFlatRow(v: seq<int>)
    requires |v| == 8
    ensures Dot(FDCT_BASIS[0], v) == 8192 * Sum(v)
  {
    Sum8(v);
  }

  /** Rounding an exact multiple of the divisor loses nothing. */
  lemma RoundShiftExact(q: int, n: nat)
    requires n == CONST_BITS - PASS1_BITS || n == CONST_BITS + PASS1_BITS
    ensures RoundShift(q * Pow2(n), n) == q
  {
    Pow2Values();
  }

  /** The DC coefficient of `fdct` is the sum of the 64 samples, level-
      shifted: eight times the mean DC term of the DCT of section A.3.3
      of ITU-T T.81. */
  lemma {:induction false} FdctDc(s: seq<int>)
    requires IsSampleBlock(s)
    ensures FdctSpec(s)[0][0] == Sum(s) - 64 * 128
  {
    var p := Pass1(s);
    var col := ColumnOf(p, 0);
    forall y | 0 <= y < 8
      ensures col[y] == 4 * (Sum(SampleRow(s, y)) - 8 * 128)
    {
      var row := SampleRow(s, y);
      DotFlatRow(LevelShift(row));
      Sum8(LevelShift(row));
      Sum8(row);
      Pow2Values();
      RoundShiftExact(4 * (Sum(row) - 8 * 128), CONST_BITS - PASS1_BITS);
    }
    DotFlatRow(col);
    Sum8(col);
    var rows := Sum(SampleRow(s, 0)) + Sum(SampleRow(s, 1)) + Sum(SampleRow(s, 2)) + Sum(SampleRow(s, 3)) +
                Sum(SampleRow(s, 4)) + Sum(SampleRow(s, 5)) + Sum(SampleRow(s, 6)) + Sum(SampleRow(s, 7));
    Pow2Values();
    RoundShiftExact(rows - 64 * 128, CONST_BITS + PASS1_BITS);
    SumRows(s);
  }

  /** The sum of a block is the sum of its row sums. */
  lemma SumRows(s: seq<int>)
    requires IsSampleBlock(s)
    ensures Sum(s) == Sum(SampleRow(s, 0)) + Sum(SampleRow(s, 1)) + Sum(SampleRow(s, 2)) + Sum(SampleRow(s, 3)) +
                      Sum(SampleRow(s, 4)) + Sum(SampleRow(s, 5)) + Sum(SampleRow(s, 6)) + Sum(SampleRow(s, 7))
  {
    var r := seq(8, y requires 0 <= y < 8 => SampleRow(s, y));
    assert s == r[0] + r[1] + r[2] + r[3] + r[4] + r[5] + r[6] + r[7];
    SumConcat(r[0], r[1]);
    SumConcat(r[0] + r[1], r[2]);
    SumConcat(r[0] + r[1] + r[2], r[3]);
    SumConcat(r[0] + r[1] + r[2] + r[3], r[4]);
    SumConcat(r[0] + r[1] + r[2] + r[3] + r[4], r[5]);
    SumConcat(r[0] + r[1] + r[2] + r[3] + r[4] + r[5], r[6]);
    SumConcat(r[0] + r[1] + r[2] + r[3] + r[4] + r[5] + r[6], r[7]);
  }

  /** The rows p[0], ..., p[y - 1] one after the other. */
  function RowsPrefix(p: seq<seq<int>>, y: nat): (a: seq<int>)
    requires IsMatrix(p) && y <= 8
    ensures |a| == 8 * y
  {
    if y == 0 then [] else RowsPrefix(p, y - 1) + p[y - 1]
  }

  lemma {:induction false} RowsPrefixAt(p: seq<seq<int>>, y: nat)
    requires IsMatrix(p) && y <= 8
    ensures forall k, x | 0 <= k < y && 0 <= x < 8 :: RowsPrefix(p, y)[8 * k + x] == p[k][x]
  {
    if y > 0 {
      RowsPrefixAt(p, y - 1);
      var a := RowsPrefix(p, y);
      assert a == RowsPrefix(p, y - 1) + p[y - 1];
      forall k, x | 0 <= k < y && 0 <= x < 8
        ensures a[8 * k + x] == p[k][x]
      {
        if k < y - 1 {
          assert a[8 * k + x] == RowsPrefix(p, y - 1)[8 * k + x];
        } else {
          assert a[8 * k + x] == p[y - 1][x];
        }
      }
    }
  }

  /** Row k, column j of a flat block in row order. */
  function At(a: seq<int>, k: int, j: int): int
    requires |a| >= 64 && 0 <= k < 8 && 0 <= j < 8
  {
    a[8 * k + j]
  }

  /** Column x of the first 64 values of a flat block in row order. */
  function Strided(a: seq<int>, x: int): (v: seq<int>)
    requires |a| >= 64 && 0 <= x < 8
    ensures |v| == 8
  {
    seq(8, k requires 0 <= k < 8 => a[x + 8 * k])
  }

  /** A flat block whose rows are those of `p` has the columns of `p`. */
  lemma RowsGiveColumns(a: seq<int>, p: seq<seq<int>>)
    requires |a| >= 64 && IsMatrix(p)
    requires a[..64] == RowsPrefix(p, 8)
    ensures forall x | 0 <= x < 8 :: Strided(a, x) == ColumnOf(p, x)
  {
    RowsPrefixAt(p, 8);
    forall x | 0 <= x < 8
      ensures Strided(a, x) == ColumnOf(p, x)
    {
      forall k | 0 <= k < 8
        ensures a[8 * k + x] == p[k][x]
      {
        assert a[8 * k + x] == RowsPrefix(p, 8)[8 * k + x];
      }
    }
  }

  /** A flat block whose columns are the rows of `c` holds the transpose of `c`. */
  lemma ColumnsGiveEntries(a: seq<int>, c: seq<seq<int>>)
    requires |a| >= 64 && IsMatrix(c)
    requires forall x | 0 <= x < 8 :: Strided(a, x) == c[x]
    ensures forall u, x | 0 <= u < 8 && 0 <= x < 8 :: a[8 * u + x] == c[x][u]
  {
    forall u, x | 0 <= u < 8 && 0 <= x < 8
      ensures a[8 * u + x] == c[x][u]
    {
      assert Strided(a, x)[u] == a[8 * u + x];
    }
  }

  /** `fdct` (transform.rs:74-200): pass 1 over the rows of `samples`,
      then pass 2 over the columns, in place in the first 64 entries of
      `coeffs`, row by row. A slice shorter than 64 is an index out of
      bounds in the code. What it leaves is FdctAsWritten, which
      FdctAsWrittenAgainstSpec compares with the rounded DCT. */
  method Fdct(samples: seq<byte>, coeffs: array<int>)
    requires |samples| >= 64 && coeffs.Length >= 64
    modifies coeffs
    ensures forall u, x | 0 <= u < 8 && 0 <= x < 8 :: coeffs[8 * u + x] == FdctAsWritten(samples[..64])[u][x]
    ensures coeffs[64..] == old(coeffs[64..])
  {
    FdctRows(samples, coeffs);
    FdctColumns(coeffs, Pass1(samples[..64]));
    EntriesFromColumns(coeffs[..], samples[..64]);
  }

  /** A flat block whose columns are those of the as-written pass 2 holds
      FdctAsWritten. */
  lemma EntriesFromColumns(a: seq<int>, s: seq<int>)
    requires |a| >= 64 && IsSampleBlock(s)
    requires forall x | 0 <= x < 8 :: Strided(a, x) == Pass2AsWritten(Pass1(s))[x]
    ensures forall u, x | 0 <= u < 8 && 0 <= x < 8 :: a[8 * u + x] == FdctAsWritten(s)[u][x]
  {
    var c := Pass2AsWritten(Pass1(s));
    ColumnsGiveEntries(a, c);
    forall u, x | 0 <= u < 8 && 0 <= x < 8
      ensures a[8 * u + x] == FdctAsWritten(s)[u][x]
    {
      assert FdctAsWritten(s)[u][x] == ColumnOf(c, u)[x] == c[x][u];
    }
  }

  /** Pass 1 of `fdct` (transform.rs:75-137): each row of samples in turn
      becomes its eight pass-1 values. */
  method FdctRows(samples: seq<byte>, coeffs: array<int>)
    requires |samples| >= 64 && coeffs.Length >= 64
    modifies coeffs
    ensures coeffs[..] == RowsPrefix(Pass1(samples[..64]), 8) + old(coeffs[..])[64..]
  {
    ghost var p := Pass1(samples[..64]);
    ghost var orig := coeffs[..];
    for y := 0 to 8
      invariant coeffs[..] == RowsPrefix(p, y) + orig[8 * y..]
    {
      SampleRowOfPrefix(samples, y);
      var r := FdctRow(samples[8 * y .. 8 * y + 8]);
      FdctRowIsMatrixProduct(samples[8 * y .. 8 * y + 8]);
      ghost var before := coeffs[..];
      StoreRow(coeffs, y, r);
      StoredRow(p, y, orig, before, coeffs[..]);
    }
  }

  /** Pass 2 of `fdct` (transform.rs:139-199): each column of pass-1
      values in turn, last column first, becomes its eight coefficients. */
  method FdctColumns(coeffs: array<int>, ghost p: seq<seq<int>>)
    requires coeffs.Length >= 64 && IsPass1Block(p)
    requires coeffs[..64] == RowsPrefix(p, 8)
    modifies coeffs
    ensures forall x | 0 <= x < 8 :: Strided(coeffs[..], x) == Pass2AsWritten(p)[x]
    ensures coeffs[64..] == old(coeffs[64..])
  {
    RowsGiveColumns(coeffs[..], p);
    ghost var c := Pass2AsWritten(p);
    ghost var orig := coeffs[..];
    for x := 8 downto 0
      invariant forall j | 0 <= j < x :: Strided(coeffs[..], j) == ColumnOf(p, j)
      invariant forall j | x <= j < 8 :: Strided(coeffs[..], j) == c[j]
      invariant coeffs[64..] == orig[64..]
    {
      var v := ReadColumn(coeffs, x);
      var r := FdctColumnAsWritten(v);
      ghost var before := coeffs[..];
      StoreColumn(coeffs, x, r);
      StoredColumn(p, c, x, before, coeffs[..]);
    }
  }

  lemma SampleRowOfPrefix(samples: seq<byte>, y: int)
    requires |samples| >= 64 && 0 <= y < 8
    ensures IsSampleRow(samples[8 * y .. 8 * y + 8])
    ensures samples[8 * y .. 8 * y + 8] == SampleRow(samples[..64], y)
  {
  }

  /** Storing row y of pass 1 after the rows before it extends the prefix
      of finished rows by one. */
  lemma StoredRow(p: seq<seq<int>>, y: int, orig: seq<int>, before: seq<int>, after: seq<int>)
    requires IsMatrix(p) && 0 <= y < 8 && |orig| >= 64
    requires before == RowsPrefix(p, y) + orig[8 * y..]
    requires |after| == |before|
    requires forall i | 0 <= i < |after| :: after[i] == if 8 * y <= i < 8 * y + 8 then p[y][i - 8 * y] else before[i]
    ensures after == RowsPrefix(p, y + 1) + orig[8 * (y + 1)..]
  {
    assert after == before[..8 * y] + p[y] + before[8 * y + 8..];
    assert before[..8 * y] == RowsPrefix(p, y);
    assert before[8 * y + 8..] == orig[8 * y + 8..];
  }

  /** Storing column x of pass 2, when the columns after it are done,
      leaves the columns from x on done and those before it untouched. */
  lemma StoredColumn(p: seq<seq<int>>, c: seq<seq<int>>, x: int, before: seq<int>, after: seq<int>)
    requires |before| >= 64 && IsMatrix(c) && IsMatrix(p) && 0 <= x < 8
    requires forall j | 0 <= j <= x :: Strided(before, j) == ColumnOf(p, j)
    requires forall j | x < j < 8 :: Strided(before, j) == c[j]
    requires after == before[x := c[x][0]][x + 32 := c[x][4]][x + 16 := c[x][2]][x + 48 := c[x][6]]
                            [x + 8 := c[x][1]][x + 24 := c[x][3]][x + 40 := c[x][5]][x + 56 := c[x][7]]
    ensures forall j | 0 <= j < x :: Strided(after, j) == ColumnOf(p, j)
    ensures forall j | x <= j < 8 :: Strided(after, j) == c[j]
    ensures after[64..] == before[64..]
  {
    forall j | 0 <= j < 8
      ensures Strided(after, j) == if j == x then c[x] else Strided(before, j)
    {
      forall k | 0 <= k < 8
        ensures Strided(after, j)[k] == if j == x then c[x][k] else Strided(before, j)[k]
      {
        StoredColumnEntry(c[x], x, before, after, j, k);
      }
    }
  }

  lemma StoredColumnEntry(col: seq<int>, x: int, before: seq<int>, after: seq<int>, j: int, k: int)
    requires |before| >= 64 && |col| == 8 && 0 <= x < 8 && 0 <= j < 8 && 0 <= k < 8
    requires after == before[x := col[0]][x + 32 := col[4]][x + 16 := col[2]][x + 48 := col[6]]
                            [x + 8 := col[1]][x + 24 := col[3]][x + 40 := col[5]][x + 56 := col[7]]
    ensures after[j + 8 * k] == if j == x then col[k] else before[j + 8 * k]
  {
    if j == x {
      assert k == 0 || k == 1 || k == 2 || k == 3 || k == 4 || k == 5 || k == 6 || k == 7;
    }
  }

  /** The eight loads at the start of one column of pass 2. */
  method ReadColumn(coeffs: array<int>, x: int) returns (v: seq<int>)
    requires 0 <= x < 8 && coeffs.Length >= 64
    ensures v == Strided(coeffs[..], x)
  {
    v := [coeffs[x + 8 * 0], coeffs[x + 8 * 1], coeffs[x + 8 * 2], coeffs[x + 8 * 3],
          coeffs[x + 8 * 4], coeffs[x + 8 * 5], coeffs[x + 8 * 6], coeffs[x + 8 * 7]];
  }

  /** The eight stores at the end of one row of pass 1, in the code's order. */
  method StoreRow(coeffs: array<int>, y: int, r: seq<int>)
    requires 0 <= y < 8 && coeffs.Length >= 64 && |r| == 8
    modifies coeffs
    ensures forall i | 0 <= i < coeffs.Length ::
      coeffs[..][i] == if 8 * y <= i < 8 * y + 8 then r[i - 8 * y] else old(coeffs[..])[i]
  {
    var y0 := y * 8;
    coeffs[y0 + 0] := r[0];
    coeffs[y0 + 4] := r[4];
    coeffs[y0 + 2] := r[2];
    coeffs[y0 + 6] := r[6];
    coeffs[y0 + 1] := r[1];
    coeffs[y0 + 3] := r[3];
    coeffs[y0 + 5] := r[5];
    coeffs[y0 + 7] := r[7];
  }

  /** The eight stores at the end of one column of pass 2, in the code's
      order. */
  method StoreColumn(coeffs: array<int>, x: int, r: seq<int>)
    requires 0 <= x < 8 && coeffs.Length >= 64 && |r| == 8
    modifies coeffs
    ensures coeffs[..] == old(coeffs[..])[x := r[0]][x + 32 := r[4]][x + 16 := r[2]][x + 48 := r[6]]
                                         [x + 8 := r[1]][x + 24 := r[3]][x + 40 := r[5]][x + 56 := r[7]]
  {
    coeffs[x + 8 * 0] := r[0];
    coeffs[x + 8 * 4] := r[4];
    coeffs[x + 8 * 2] := r[2];
    coeffs[x + 8 * 6] := r[6];
    coeffs[x + 8 * 1] := r[1];
    coeffs[x + 8 * 3] := r[3];
    coeffs[x + 8 * 5] := r[5];
    coeffs[x + 8 * 7] := r[7];
  }
}
