// Decoding the 64 coefficients of one block (src/jpeg/decoder.rs): the
// zig-zag permutation, the EXTEND procedure of section F.2.2.1 of ITU-T
// T.81, and the body of `decode_block` with its DC predictor and its AC
// run/size loop (sections F.2.2.1 and F.2.2.2, Figures F.13 and F.14).
//
// The Huffman layer is not modelled: `decode_symbol` and `receive` are
// foreign calls. What the loop consumes is a supply of codes, one per call
// of `decode_symbol`, each holding the symbol and the value a following
// `receive` yields; the supply running out is the stream's `IoError`.
module Coefficients {
  import opened Base

  type i32 = x: int | IsI32(x)

  // ---------------------------------------------------------------------
  // The zig-zag order

  /** UNZIGZAG (decoder.rs:25-34): entry k is the row-major index, in the
      8x8 block, of the k-th coefficient in zig-zag order. The table is
      written as its eight lines, one after the other. */
  const UNZIGZAG: seq<int> :=
    [ 0,  1,  8, 16,  9,  2,  3, 10] +
    [17, 24, 32, 25, 18, 11,  4,  5] +
    [12, 19, 26, 33, 40, 48, 41, 34] +
    [27, 20, 13,  6,  7, 14, 21, 28] +
    [35, 42, 49, 56, 57, 50, 43, 36] +
    [29, 22, 15, 23, 30, 37, 44, 51] +
    [58, 59, 52, 45, 38, 31, 39, 46] +
    [53, 60, 61, 54, 47, 55, 62, 63]

  /** The zig-zag sequence of Figure A.6 of ITU-T T.81, computed: the
      position in zig-zag order of the coefficient at row-major index n.
      The anti-diagonals d = row + column are visited one after the other,
      the odd ones from the top row down, the even ones from the bottom
      row up. */
  function ZigzagPosition(n: int): (k: int)
    requires 0 <= n < 64
  {
    var r, c := n / 8, n % 8;
    var d := r + c;
    if d < 8 then
      d * (d + 1) / 2 + (if d % 2 == 1 then r else c)
    else
      64 - (15 - d) * (16 - d) / 2 + (if d % 2 == 1 then r - (d - 7) else c - (d - 7))
  }

  /** The entries of UNZIGZAG one by one. */
  lemma UnzigzagEntriesFrom0()
    ensures UNZIGZAG[0] == 0
    ensures UNZIGZAG[1] == 1
    ensures UNZIGZAG[2] == 8
    ensures UNZIGZAG[3] == 16
    ensures UNZIGZAG[4] == 9
    ensures UNZIGZAG[5] == 2
    ensures UNZIGZAG[6] == 3
    ensures UNZIGZAG[7] == 10
  {
  }

  lemma UnzigzagEntriesFrom8()
    ensures UNZIGZAG[8] == 17
    ensures UNZIGZAG[9] == 24
    ensures UNZIGZAG[10] == 32
    ensures UNZIGZAG[11] == 25
    ensures UNZIGZAG[12] == 18
    ensures UNZIGZAG[13] == 11
    ensures UNZIGZAG[14] == 4
    ensures UNZIGZAG[15] == 5
  {
  }

  lemma UnzigzagEntriesFrom16()
    ensures UNZIGZAG[16] == 12
    ensures UNZIGZAG[17] == 19
    ensures UNZIGZAG[18] == 26
    ensures UNZIGZAG[19] == 33
    ensures UNZIGZAG[20] == 40
    ensures UNZIGZAG[21] == 48
    ensures UNZIGZAG[22] == 41
    ensures UNZIGZAG[23] == 34
  {
  }

  lemma UnzigzagEntriesFrom24()
    ensures UNZIGZAG[24] == 27
    ensures UNZIGZAG[25] == 20
    ensures UNZIGZAG[26] == 13
    ensures UNZIGZAG[27] == 6
    ensures UNZIGZAG[28] == 7
    ensures UNZIGZAG[29] == 14
    ensures UNZIGZAG[30] == 21
    ensures UNZIGZAG[31] == 28
  {
  }

  lemma UnzigzagEntriesFrom32()
    ensures UNZIGZAG[32] == 35
    ensures UNZIGZAG[33] == 42
    ensures UNZIGZAG[34] == 49
    ensures UNZIGZAG[35] == 56
    ensures UNZIGZAG[36] == 57
    ensures UNZIGZAG[37] == 50
    ensures UNZIGZAG[38] == 43
    ensures UNZIGZAG[39] == 36
  {
  }

  lemma UnzigzagEntriesFrom40()
    ensures UNZIGZAG[40] == 29
    ensures UNZIGZAG[41] == 22
    ensures UNZIGZAG[42] == 15
    ensures UNZIGZAG[43] == 23
    ensures UNZIGZAG[44] == 30
    ensures UNZIGZAG[45] == 37
    ensures UNZIGZAG[46] == 44
    ensures UNZIGZAG[47] == 51
  {
  }

  lemma UnzigzagEntriesFrom48()
    ensures UNZIGZAG[48] == 58
    ensures UNZIGZAG[49] == 59
    ensures UNZIGZAG[50] == 52
    ensures UNZIGZAG[51] == 45
    ensures UNZIGZAG[52] == 38
    ensures UNZIGZAG[53] == 31
    ensures UNZIGZAG[54] == 39
    ensures UNZIGZAG[55] == 46
  {
  }

  lemma UnzigzagEntriesFrom56()
    ensures UNZIGZAG[56] == 53
    ensures UNZIGZAG[57] == 60
    ensures UNZIGZAG[58] == 61
    ensures UNZIGZAG[59] == 54
    ensures UNZIGZAG[60] == 47
    ensures UNZIGZAG[61] == 55
    ensures UNZIGZAG[62] == 62
    ensures UNZIGZAG[63] == 63
  {
  }

  lemma UnzigzagEntries()
    ensures UNZIGZAG[0] == 0
    ensures UNZIGZAG[1] == 1
    ensures UNZIGZAG[2] == 8
    ensures UNZIGZAG[3] == 16
    ensures UNZIGZAG[4] == 9
    ensures UNZIGZAG[5] == 2
    ensures UNZIGZAG[6] == 3
    ensures UNZIGZAG[7] == 10
    ensures UNZIGZAG[8] == 17
    ensures UNZIGZAG[9] == 24
    ensures UNZIGZAG[10] == 32
    ensures UNZIGZAG[11] == 25
    ensures UNZIGZAG[12] == 18
    ensures UNZIGZAG[13] == 11
    ensures UNZIGZAG[14] == 4
    ensures UNZIGZAG[15] == 5
    ensures UNZIGZAG[16] == 12
    ensures UNZIGZAG[17] == 19
    ensures UNZIGZAG[18] == 26
    ensures UNZIGZAG[19] == 33
    ensures UNZIGZAG[20] == 40
    ensures UNZIGZAG[21] == 48
    ensures UNZIGZAG[22] == 41
    ensures UNZIGZAG[23] == 34
    ensures UNZIGZAG[24] == 27
    ensures UNZIGZAG[25] == 20
    ensures UNZIGZAG[26] == 13
    ensures UNZIGZAG[27] == 6
    ensures UNZIGZAG[28] == 7
    ensures UNZIGZAG[29] == 14
    ensures UNZIGZAG[30] == 21
    ensures UNZIGZAG[31] == 28
    ensures UNZIGZAG[32] == 35
    ensures UNZIGZAG[33] == 42
    ensures UNZIGZAG[34] == 49
    ensures UNZIGZAG[35] == 56
    ensures UNZIGZAG[36] == 57
    ensures UNZIGZAG[37] == 50
    ensures UNZIGZAG[38] == 43
    ensures UNZIGZAG[39] == 36
    ensures UNZIGZAG[40] == 29
    ensures UNZIGZAG[41] == 22
    ensures UNZIGZAG[42] == 15
    ensures UNZIGZAG[43] == 23
    ensures UNZIGZAG[44] == 30
    ensures UNZIGZAG[45] == 37
    ensures UNZIGZAG[46] == 44
    ensures UNZIGZAG[47] == 51
    ensures UNZIGZAG[48] == 58
    ensures UNZIGZAG[49] == 59
    ensures UNZIGZAG[50] == 52
    ensures UNZIGZAG[51] == 45
    ensures UNZIGZAG[52] == 38
    ensures UNZIGZAG[53] == 31
    ensures UNZIGZAG[54] == 39
    ensures UNZIGZAG[55] == 46
    ensures UNZIGZAG[56] == 53
    ensures UNZIGZAG[57] == 60
    ensures UNZIGZAG[58] == 61
    ensures UNZIGZAG[59] == 54
    ensures UNZIGZAG[60] == 47
    ensures UNZIGZAG[61] == 55
    ensures UNZIGZAG[62] == 62
    ensures UNZIGZAG[63] == 63
    {
    UnzigzagEntriesFrom0();
    UnzigzagEntriesFrom8();
    UnzigzagEntriesFrom16();
    UnzigzagEntriesFrom24();
    UnzigzagEntriesFrom32();
    UnzigzagEntriesFrom40();
    UnzigzagEntriesFrom48();
    UnzigzagEntriesFrom56();
  }

  lemma ZigzagPositionsFrom0()
    ensures ZigzagPosition(0) == 0
    ensures ZigzagPosition(1) == 1
    ensures ZigzagPosition(8) == 2
    ensures ZigzagPosition(16) == 3
    ensures ZigzagPosition(9) == 4
    ensures ZigzagPosition(2) == 5
    ensures ZigzagPosition(3) == 6
    ensures ZigzagPosition(10) == 7
  {
  }

  lemma ZigzagPositionsFrom8()
    ensures ZigzagPosition(17) == 8
    ensures ZigzagPosition(24) == 9
    ensures ZigzagPosition(32) == 10
    ensures ZigzagPosition(25) == 11
    ensures ZigzagPosition(18) == 12
    ensures ZigzagPosition(11) == 13
    ensures ZigzagPosition(4) == 14
    ensures ZigzagPosition(5) == 15
  {
  }

  lemma ZigzagPositionsFrom16()
    ensures ZigzagPosition(12) == 16
    ensures ZigzagPosition(19) == 17
    ensures ZigzagPosition(26) == 18
    ensures ZigzagPosition(33) == 19
    ensures ZigzagPosition(40) == 20
    ensures ZigzagPosition(48) == 21
    ensures ZigzagPosition(41) == 22
    ensures ZigzagPosition(34) == 23
  {
  }

  lemma ZigzagPositionsFrom24()
    ensures ZigzagPosition(27) == 24
    ensures ZigzagPosition(20) == 25
    ensures ZigzagPosition(13) == 26
    ensures ZigzagPosition(6) == 27
    ensures ZigzagPosition(7) == 28
    ensures ZigzagPosition(14) == 29
    ensures ZigzagPosition(21) == 30
    ensures ZigzagPosition(28) == 31
  {
  }

  lemma ZigzagPositionsFrom32()
    ensures ZigzagPosition(35) == 32
    ensures ZigzagPosition(42) == 33
    ensures ZigzagPosition(49) == 34
    ensures ZigzagPosition(56) == 35
    ensures ZigzagPosition(57) == 36
    ensures ZigzagPosition(50) == 37
    ensures ZigzagPosition(43) == 38
    ensures ZigzagPosition(36) == 39
  {
  }

  lemma ZigzagPositionsFrom40()
    ensures ZigzagPosition(29) == 40
    ensures ZigzagPosition(22) == 41
    ensures ZigzagPosition(15) == 42
    ensures ZigzagPosition(23) == 43
    ensures ZigzagPosition(30) == 44
    ensures ZigzagPosition(37) == 45
    ensures ZigzagPosition(44) == 46
    ensures ZigzagPosition(51) == 47
  {
  }

  lemma ZigzagPositionsFrom48()
    ensures ZigzagPosition(58) == 48
    ensures ZigzagPosition(59) == 49
    ensures ZigzagPosition(52) == 50
    ensures ZigzagPosition(45) == 51
    ensures ZigzagPosition(38) == 52
    ensures ZigzagPosition(31) == 53
    ensures ZigzagPosition(39) == 54
    ensures ZigzagPosition(46) == 55
  {
  }

  lemma ZigzagPositionsFrom56()
    ensures ZigzagPosition(53) == 56
    ensures ZigzagPosition(60) == 57
    ensures ZigzagPosition(61) == 58
    ensures ZigzagPosition(54) == 59
    ensures ZigzagPosition(47) == 60
    ensures ZigzagPosition(55) == 61
    ensures ZigzagPosition(62) == 62
    ensures ZigzagPosition(63) == 63
  {
  }

  lemma ZigzagPositions()
    ensures ZigzagPosition(0) == 0
    ensures ZigzagPosition(1) == 1
    ensures ZigzagPosition(8) == 2
    ensures ZigzagPosition(16) == 3
    ensures ZigzagPosition(9) == 4
    ensures ZigzagPosition(2) == 5
    ensures ZigzagPosition(3) == 6
    ensures ZigzagPosition(10) == 7
    ensures ZigzagPosition(17) == 8
    ensures ZigzagPosition(24) == 9
    ensures ZigzagPosition(32) == 10
    ensures ZigzagPosition(25) == 11
    ensures ZigzagPosition(18) == 12
    ensures ZigzagPosition(11) == 13
    ensures ZigzagPosition(4) == 14
    ensures ZigzagPosition(5) == 15
    ensures ZigzagPosition(12) == 16
    ensures ZigzagPosition(19) == 17
    ensures ZigzagPosition(26) == 18
    ensures ZigzagPosition(33) == 19
    ensures ZigzagPosition(40) == 20
    ensures ZigzagPosition(48) == 21
    ensures ZigzagPosition(41) == 22
    ensures ZigzagPosition(34) == 23
    ensures ZigzagPosition(27) == 24
    ensures ZigzagPosition(20) == 25
    ensures ZigzagPosition(13) == 26
    ensures ZigzagPosition(6) == 27
    ensures ZigzagPosition(7) == 28
    ensures ZigzagPosition(14) == 29
    ensures ZigzagPosition(21) == 30
    ensures ZigzagPosition(28) == 31
    ensures ZigzagPosition(35) == 32
    ensures ZigzagPosition(42) == 33
    ensures ZigzagPosition(49) == 34
    ensures ZigzagPosition(56) == 35
    ensures ZigzagPosition(57) == 36
    ensures ZigzagPosition(50) == 37
    ensures ZigzagPosition(43) == 38
    ensures ZigzagPosition(36) == 39
    ensures ZigzagPosition(29) == 40
    ensures ZigzagPosition(22) == 41
    ensures ZigzagPosition(15) == 42
    ensures ZigzagPosition(23) == 43
    ensures ZigzagPosition(30) == 44
    ensures ZigzagPosition(37) == 45
    ensures ZigzagPosition(44) == 46
    ensures ZigzagPosition(51) == 47
    ensures ZigzagPosition(58) == 48
    ensures ZigzagPosition(59) == 49
    ensures ZigzagPosition(52) == 50
    ensures ZigzagPosition(45) == 51
    ensures ZigzagPosition(38) == 52
    ensures ZigzagPosition(31) == 53
    ensures ZigzagPosition(39) == 54
    ensures ZigzagPosition(46) == 55
    ensures ZigzagPosition(53) == 56
    ensures ZigzagPosition(60) == 57
    ensures ZigzagPosition(61) == 58
    ensures ZigzagPosition(54) == 59
    ensures ZigzagPosition(47) == 60
    ensures ZigzagPosition(55) == 61
    ensures ZigzagPosition(62) == 62
    ensures ZigzagPosition(63) == 63
  {
    ZigzagPositionsFrom0();
    ZigzagPositionsFrom8();
    ZigzagPositionsFrom16();
    ZigzagPositionsFrom24();
    ZigzagPositionsFrom32();
    ZigzagPositionsFrom40();
    ZigzagPositionsFrom48();
    ZigzagPositionsFrom56();
  }

  /** UNZIGZAG undoes the zig-zag numbering. */
  lemma UnzigzagInvertsZigzag()
    ensures |UNZIGZAG| == 64
    ensures forall k | 0 <= k < 64 :: 0 <= UNZIGZAG[k] < 64 && ZigzagPosition(UNZIGZAG[k]) == k
  {
    UnzigzagEntries();
    ZigzagPositions();
    forall k | 0 <= k < 64
      ensures 0 <= UNZIGZAG[k] < 64 && ZigzagPosition(UNZIGZAG[k]) == k
    {
      Enumerate64(k);
    }
  }

  /** The zig-zag numbering undoes UNZIGZAG. */
  lemma ZigzagInvertsUnzigzag()
    ensures forall n | 0 <= n < 64 :: 0 <= ZigzagPosition(n) < 64 && UNZIGZAG[ZigzagPosition(n)] == n
  {
    UnzigzagEntries();
    ZigzagPositions();
    forall n | 0 <= n < 64
      ensures 0 <= ZigzagPosition(n) < 64 && UNZIGZAG[ZigzagPosition(n)] == n
    {
      Enumerate64(n);
    }
  }

  /** A case split over the 64 positions of a block. */
  lemma Enumerate64(k: int)
    requires 0 <= k < 64
    ensures k == 0 || k == 1 || k == 2 || k == 3 || k == 4 || k == 5 || k == 6 || k == 7 ||
            k == 8 || k == 9 || k == 10 || k == 11 || k == 12 || k == 13 || k == 14 || k == 15 ||
            k == 16 || k == 17 || k == 18 || k == 19 || k == 20 || k == 21 || k == 22 || k == 23 ||
            k == 24 || k == 25 || k == 26 || k == 27 || k == 28 || k == 29 || k == 30 || k == 31 ||
            k == 32 || k == 33 || k == 34 || k == 35 || k == 36 || k == 37 || k == 38 || k == 39 ||
            k == 40 || k == 41 || k == 42 || k == 43 || k == 44 || k == 45 || k == 46 || k == 47 ||
            k == 48 || k == 49 || k == 50 || k == 51 || k == 52 || k == 53 || k == 54 || k == 55 ||
            k == 56 || k == 57 || k == 58 || k == 59 || k == 60 || k == 61 || k == 62 || k == 63
  {
  }

  /** UNZIGZAG is a permutation of the 64 positions that keeps the DC
      coefficient first and the last coefficient last. */
  lemma UnzigzagIsPermutation()
    ensures |UNZIGZAG| == 64 && UNZIGZAG[0] == 0 && UNZIGZAG[63] == 63
    ensures forall k | 0 <= k < 64 :: 0 <= UNZIGZAG[k] < 64
    ensures forall j, k | 0 <= j < k < 64 :: UNZIGZAG[j] != UNZIGZAG[k]
    ensures forall n | 0 <= n < 64 :: n in UNZIGZAG
  {
    UnzigzagInvertsZigzag();
    ZigzagInvertsUnzigzag();
    forall n | 0 <= n < 64
      ensures n in UNZIGZAG
    {
      var k := ZigzagPosition(n);
      assert UNZIGZAG[k] == n;
    }
  }

  // ---------------------------------------------------------------------
  // EXTEND

  /** `extend` (decoder.rs:790-806), the EXTEND procedure of Figure F.12:
      v holds the t additional bits of a difference; values below
      2^(t - 1) stand for negative differences. `1 << shift` is taken only
      for shift < 31, with the shift t - 1 wrapping to usize::MAX at t = 0.
      `(-1) << t` panics for t >= 32 in a debug build, and the two i32
      additions panic on overflow. Every panic is `Err(Panic)`. */
  function Extend(v: int, t: int): (r: Result<int>)
    requires IsI32(v) && 0 <= t < 0x100
    ensures r.Ok? ==> IsI32(r.value)
    ensures r.Err? ==> r.error == Panic
    ensures v >= 0 ==> r.Ok?
    ensures t == 0 ==> r == if v == -0x8000_0000 then Err(Panic) else Ok(v)
    ensures t >= 32 ==> r == if v < 0 then Err(Panic) else Ok(v)
  {
    var vt := if 1 <= t <= 31 then Pow2(t - 1) else 0;
    if v < vt then
      if t >= 32 then Err(Panic)
      else
        Pow2Step(t);
        var s := v + Wrap32(-(Pow2(t) as int));
        if !IsI32(s) || !IsI32(s + 1) then Err(Panic) else Ok(s + 1)
    else
      Ok(v)
  }

  /** 2^t doubles 2^(t - 1) and stays within i32's magnitude up to t = 31. */
  lemma Pow2Step(t: nat)
    requires t <= 31
    ensures t >= 1 ==> Pow2(t) == 2 * Pow2(t - 1)
    ensures Pow2(t) <= 0x8000_0000
  {
    PowMonotone(t, 31);
    Pow2Of31();
  }

  lemma Pow2Of31()
    ensures Pow2(31) == 0x8000_0000
  {
    Pow2Of15();
    assert Pow2(23) == 0x80_0000;
  }

  lemma Pow2Of15()
    ensures Pow2(15) == 0x8000
  {
    assert Pow2(1) == 2;
    assert Pow2(2) == 4;
    assert Pow2(3) == 8;
    assert Pow2(4) == 16;
    assert Pow2(5) == 32;
    assert Pow2(6) == 64;
    assert Pow2(7) == 128;
    assert Pow2(8) == 256;
    assert Pow2(9) == 512;
    assert Pow2(10) == 1024;
    assert Pow2(11) == 2048;
    assert Pow2(12) == 4096;
    assert Pow2(13) == 8192;
    assert Pow2(14) == 16384;
    assert Pow2(15) == 32768;
  }

  lemma {:induction false} PowMonotone(a: nat, b: nat)
    requires a <= b
    ensures Pow2(a) <= Pow2(b)
    decreases b
  {
    if a < b {
      PowMonotone(a, b - 1);
      assert Pow2(b) == 2 * Pow2(b - 1);
    }
  }

  /** Section F.1.2.1 of ITU-T T.81, the encoder's side: the size category
      SSSS of a value is the bit length of its magnitude, ... */
  function BitLength(m: nat): (t: nat)
  {
    if m == 0 then 0 else 1 + BitLength(m / 2)
  }

  function Abs(x: int): nat
  {
    if x < 0 then -x else x
  }

  /** ... and its additional bits are the value itself when it is
      positive, and the low t bits of x - 1 when it is negative. */
  function AdditionalBits(x: int, t: nat): (v: int)
    requires Abs(x) < Pow2(t)
    ensures 0 <= v < Pow2(t)
  {
    if x >= 0 then x else x + Pow2(t) - 1
  }

  /** A positive magnitude lies between 2^(t - 1) and 2^t exactly when t
      is its bit length. */
  lemma {:induction false} BitLengthBounds(m: nat)
    requires m >= 1
    ensures var t := BitLength(m); t >= 1 && Pow2(t - 1) <= m < Pow2(t)
    decreases m
  {
    var t := BitLength(m);
    if m >= 2 {
      BitLengthBounds(m / 2);
      var h := Pow2(t - 2);
      assert Pow2(t - 1) == 2 * h && Pow2(t) == 4 * h;
      assert h <= m / 2 < 2 * h;
    }
  }

  lemma {:induction false} BitLengthOf(m: nat, t: nat)
    requires t >= 1 && Pow2(t - 1) <= m < Pow2(t)
    ensures BitLength(m) == t
    decreases t
  {
    if t > 1 {
      var h := Pow2(t - 2);
      assert Pow2(t - 1) == 2 * h && Pow2(t) == 4 * h;
      assert h <= m / 2 < 2 * h;
      BitLengthOf(m / 2, t - 1);
    } else {
      assert Pow2(1) == 2;
    }
  }

  /** EXTEND decodes what the encoder writes: a nonzero value of category
      t between 1 and 15 comes back from its additional bits. */
  lemma ExtendInvertsAdditionalBits(x: int)
    requires x != 0 && Abs(x) < Pow2(15)
    ensures var t := BitLength(Abs(x));
      1 <= t <= 15 && Abs(x) < Pow2(t) <= 0x8000 && Extend(AdditionalBits(x, t), t) == Ok(x)
  {
    var t := BitLength(Abs(x));
    BitLengthBounds(Abs(x));
    if t > 15 {
      PowMonotone(15, t - 1);
    }
    Pow2Step(t);
    PowMonotone(t, 15);
    Pow2Of15();
  }

  /** Every t-bit pattern, 1 <= t <= 15, is the additional bits of exactly
      the value EXTEND gives it, and that value has category t. */
  lemma ExtendIsDecoding(v: int, t: int)
    requires 1 <= t <= 15 && 0 <= v < Pow2(t)
    ensures Pow2(t) <= 0x8000 && Extend(v, t).Ok?
    ensures var x := Extend(v, t).value;
      x != 0 && Abs(x) < Pow2(t) && BitLength(Abs(x)) == t && AdditionalBits(x, t) == v
  {
    Pow2Step(t);
    PowMonotone(t, 15);
    Pow2Of15();
    var h, p := Pow2(t - 1), Pow2(t);
    var x := ExtendOfCategory(v, t, h, p);
    BitLengthOf(Abs(x), t);
  }

  /** The value EXTEND gives a t-bit pattern, with h = 2^(t - 1) and
      p = 2^t, lies between h and p in magnitude. */
  lemma ExtendOfCategory(v: int, t: int, h: int, p: int) returns (x: int)
    requires 1 <= t <= 15 && h == Pow2(t - 1) && p == Pow2(t) == 2 * h <= 0x8000
    requires 0 <= v < p
    ensures Extend(v, t) == Ok(x) && x != 0 && h <= Abs(x) < p && Abs(x) < Pow2(t)
    ensures AdditionalBits(x, t) == v
  {
    x := if v < h then v - p + 1 else v;
  }

  /** The values of the examples worked by hand: extend(0, 0) = 0,
      extend(0, 4) = -15, extend(8, 4) = 8 and extend(15, 4) = 15. */
  lemma ExtendExamples()
    ensures Extend(0, 0) == Ok(0)
    ensures Extend(0, 4) == Ok(-15)
    ensures Extend(8, 4) == Ok(8)
    ensures Extend(15, 4) == Ok(15)
  {
    assert Pow2(3) == 8 && Pow2(4) == 16;
  }

  // ---------------------------------------------------------------------
  // One block

  /** What one `decode_symbol` of the block loop yields: the symbol, and
      the value the `receive` that may follow it yields. */
  datatype Coded = Coded(symbol: byte, bits: i32)

  /** A decoded block: the 64 coefficients in row-major order, the DC
      value (the component's next predictor) and how many codes it used. */
  datatype Block = Block(coeffs: seq<int>, dc: int, used: nat)

  function Zeros(): (z: seq<int>)
    ensures |z| == 64 && forall n | 0 <= n < 64 :: z[n] == 0
  {
    seq(64, n => 0)
  }

  predicate AllI16(tmp: seq<int>)
  {
    forall n | 0 <= n < |tmp| :: IsI16(tmp[n])
  }

  lemma UnzigzagEntry(k: int)
    requires 0 <= k < 64
    ensures 0 <= UNZIGZAG[k] < 64
  {
    UnzigzagInvertsZigzag();
  }

  /** The DC difference (decoder.rs:225-237, section F.2.2.1): the symbol
      is the size category t, a `receive(t)` follows when t > 0, EXTEND
      gives the difference, and adding the predictor is an i32 addition. */
  function DecodeDc(c: Coded, pred: i32): (r: Result<int>)
    ensures r.Ok? ==> IsI32(r.value)
    ensures r.Err? ==> r.error == Panic
    ensures c.symbol == 0 ==> r == Ok(pred)
  {
    var t := c.symbol;
    var diff := if t > 0 then c.bits else 0;
    var e :- Extend(diff, t);
    if IsI32(e + pred) then Ok(e + pred) else Err(Panic)
  }

  /** The AC loop of decode_block (decoder.rs:239-261, Figure F.14), from
      zig-zag position k with the i-th code next: the low nibble of a
      symbol is the size SSSS, the high nibble the run RRRR; size 0 is an
      end of block, or with run 15 a skip of 16 zeros; otherwise the run is
      skipped and the value written, dequantised by the i16 product with
      the table entry at its zig-zag position, at its row-major place.
      Returns the coefficients and the index of the first unused code.
      A run past position 63 indexes out of bounds (a panic); so does an
      overflowing product. */
  function AcFrom(codes: seq<Coded>, i: nat, k: nat, tmp: seq<int>, q: seq<byte>): (r: Result<(seq<int>, nat)>)
    requires |tmp| == 64 && |q| == 64 && i <= |codes|
    ensures r.Ok? ==> |r.value.0| == 64 && i <= r.value.1 <= |codes|
    ensures r.Ok? && AllI16(tmp) ==> AllI16(r.value.0)
    ensures r.Err? ==> r.error == IoError || r.error == Panic
    decreases 64 - k, 1
  {
    if k >= 64 then Ok((tmp, i))
    else if i == |codes| then Err(IoError)
    else AcStep(codes, i, k, tmp, q)
  }

  /** One iteration of the AC loop, on the i-th code at zig-zag position
      k < 64. */
  function AcStep(codes: seq<Coded>, i: nat, k: nat, tmp: seq<int>, q: seq<byte>): (r: Result<(seq<int>, nat)>)
    requires |tmp| == 64 && |q| == 64 && i < |codes| && k < 64
    ensures r.Ok? ==> |r.value.0| == 64 && i < r.value.1 <= |codes|
    ensures r.Ok? && AllI16(tmp) ==> AllI16(r.value.0)
    ensures r.Err? ==> r.error == IoError || r.error == Panic
    decreases 64 - k, 0
  {
    var ssss, rrrr := codes[i].symbol % 16, codes[i].symbol / 16;
    if ssss == 0 then
      if rrrr != 15 then Ok((tmp, i + 1))
      else AcFrom(codes, i + 1, k + 16, tmp, q)
    else
      var k' := k + rrrr;
      if k' >= 64 then Err(Panic)
      else
        var e :- Extend(codes[i].bits, ssss);
        var x := Wrap16(e) * q[k'];
        if !IsI16(x) then Err(Panic)
        else
          UnzigzagEntry(k');
          AcFrom(codes, i + 1, k' + 1, tmp[UNZIGZAG[k'] := x], q)
  }

  /** `decode_block`'s coefficient decoding (decoder.rs:213-262): the DC
      difference from the first code, written as `dc as i16` at position
      0, then the AC loop from zig-zag position 1. */
  function DecodeBlockSpec(codes: seq<Coded>, pred: i32, q: seq<byte>): (r: Result<Block>)
    requires |q| == 64
    ensures r.Ok? ==> |r.value.coeffs| == 64 && AllI16(r.value.coeffs) && IsI32(r.value.dc)
    ensures r.Ok? ==> 1 <= r.value.used <= |codes|
    ensures r.Err? ==> r.error == IoError || r.error == Panic
  {
    if |codes| == 0 then Err(IoError)
    else
      var dc :- DecodeDc(codes[0], pred);
      var start := Zeros()[0 := Wrap16(dc)];
      assert AllI16(start);
      var ac :- AcFrom(codes, 1, 1, start, q);
      Ok(Block(ac.0, dc, ac.1))
  }

  /** The loop as decode_block runs it, on a local array of 64 i16. */
  method DecodeBlockCoefficients(codes: seq<Coded>, pred: i32, q: seq<byte>) returns (r: Result<Block>)
    requires |q| == 64
    ensures r == DecodeBlockSpec(codes, pred, q)
  {
    if |codes| == 0 {
      return Err(IoError);
    }
    var dc :- DecodeDc(codes[0], pred);
    var tmp := new int[64](_ => 0);
    tmp[0] := Wrap16(dc);
    ghost var start := tmp[..];
    assert start == Zeros()[0 := Wrap16(dc)];
    var i, k := 1, 1;
    while k < 64
      invariant 1 <= i <= |codes|
      invariant AcFrom(codes, i, k, tmp[..], q) == AcFrom(codes, 1, 1, start, q)
      decreases 64 - k
    {
      if i == |codes| {
        return Err(IoError);
      }
      var ssss, rrrr := codes[i].symbol % 16, codes[i].symbol / 16;
      if ssss == 0 {
        if rrrr != 15 {
          return Ok(Block(tmp[..], dc, i + 1));
        }
        k := k + 16;
      } else {
        k := k + rrrr;
        if k >= 64 {
          return Err(Panic);
        }
        var e :- Extend(codes[i].bits, ssss);
        var x := Wrap16(e) * q[k];
        if !IsI16(x) {
          return Err(Panic);
        }
        UnzigzagEntry(k);
        tmp[UNZIGZAG[k]] := x;
        k := k + 1;
      }
      i := i + 1;
    }
    return Ok(Block(tmp[..], dc, i));
  }

  /** The writes the AC loop makes from zig-zag position k, as a map from
      zig-zag position to the value written: each position at most once,
      all at or after k, all i16. */
  function AcWrites(codes: seq<Coded>, i: nat, k: nat, q: seq<byte>): (w: map<int, int>)
    requires |q| == 64 && i <= |codes|
    ensures forall j | j in w :: k <= j < 64 && IsI16(w[j])
    decreases 64 - k
  {
    if k >= 64 || i == |codes| then map[]
    else
      var ssss, rrrr := codes[i].symbol % 16, codes[i].symbol / 16;
      if ssss == 0 then
        if rrrr != 15 then map[] else AcWrites(codes, i + 1, k + 16, q)
      else
        var k' := k + rrrr;
        var e := Extend(codes[i].bits, ssss);
        if k' >= 64 || e.Err? || !IsI16(Wrap16(e.value) * q[k']) then map[]
        else AcWrites(codes, i + 1, k' + 1, q)[k' := Wrap16(e.value) * q[k']]
  }

  /** A successful AC loop leaves the block it started from with its
      writes laid over it: position UNZIGZAG[j] holds the value written at
      zig-zag position j, or its old value when nothing was. */
  lemma {:induction false} AcIsOverlay(codes: seq<Coded>, i: nat, k: nat, tmp: seq<int>, q: seq<byte>)
    requires |tmp| == 64 && |q| == 64 && i <= |codes|
    requires AcFrom(codes, i, k, tmp, q).Ok?
    ensures var t := AcFrom(codes, i, k, tmp, q).value.0; var w := AcWrites(codes, i, k, q);
      forall j | 0 <= j < 64 :: t[UNZIGZAG[j]] == if j in w then w[j] else tmp[UNZIGZAG[j]]
    decreases 64 - k
  {
    if k < 64 && i < |codes| {
      var ssss, rrrr := codes[i].symbol % 16, codes[i].symbol / 16;
      if ssss == 0 {
        if rrrr == 15 {
          AcIsOverlay(codes, i + 1, k + 16, tmp, q);
        }
      } else {
        var k' := k + rrrr;
        var x := Wrap16(Extend(codes[i].bits, ssss).value) * q[k'];
        UnzigzagInjective(k');
        var tmp' := tmp[UNZIGZAG[k'] := x];
        AcIsOverlay(codes, i + 1, k' + 1, tmp', q);
        var t := AcFrom(codes, i + 1, k' + 1, tmp', q).value.0;
        var w' := AcWrites(codes, i + 1, k' + 1, q);
        var w := AcWrites(codes, i, k, q);
        assert w == w'[k' := x];
        assert AcFrom(codes, i, k, tmp, q).value.0 == t;
        OverlayStep(UNZIGZAG, k', x, tmp, t, w');
      }
    }
  }

  /** One write of the AC loop: if the rest of the loop lays the writes w
      over tmp[u[k] := x], and none of them is at k, the whole loop lays
      w[k := x] over tmp. */
  lemma OverlayStep(u: seq<int>, k: int, x: int, tmp: seq<int>, t: seq<int>, w: map<int, int>)
    requires |u| == 64 && |tmp| == 64 && |t| == 64 && 0 <= k < 64
    requires forall j | 0 <= j < 64 :: 0 <= u[j] < 64
    requires forall j | 0 <= j < 64 && j != k :: u[j] != u[k]
    requires k !in w
    requires forall j | 0 <= j < 64 :: t[u[j]] == if j in w then w[j] else tmp[u[k] := x][u[j]]
    ensures forall j | 0 <= j < 64 :: t[u[j]] == if j in w[k := x] then w[k := x][j] else tmp[u[j]]
  {
  }

  /** The coefficient at zig-zag position j of a block in row-major order. */
  function At(coeffs: seq<int>, j: int): int
    requires |coeffs| == 64 && 0 <= j < 64
  {
    UnzigzagEntry(j);
    coeffs[UNZIGZAG[j]]
  }

  lemma UnzigzagInjective(k: int)
    requires 0 <= k < 64
    ensures forall j | 0 <= j < 64 :: 0 <= UNZIGZAG[j] < 64
    ensures forall j | 0 <= j < 64 && j != k :: UNZIGZAG[j] != UNZIGZAG[k]
  {
    UnzigzagIsPermutation();
  }

  /** A decoded block holds `dc as i16` at position 0 and, at the
      row-major place of each zig-zag position j >= 1, the value the AC
      loop wrote there or zero; every coefficient is an i16. */
  lemma DecodedBlockIsOverlay(codes: seq<Coded>, pred: i32, q: seq<byte>)
    requires |q| == 64 && DecodeBlockSpec(codes, pred, q).Ok?
    ensures var b := DecodeBlockSpec(codes, pred, q).value; var w := AcWrites(codes, 1, 1, q);
      |b.coeffs| == 64 && AllI16(b.coeffs) && 1 <= b.used <= |codes| &&
      b.coeffs[0] == Wrap16(b.dc) &&
      forall j | 1 <= j < 64 :: At(b.coeffs, j) == if j in w then w[j] else 0
  {
    var dc := DecodeDc(codes[0], pred).value;
    var start := Zeros()[0 := Wrap16(dc)];
    assert AllI16(start);
    AcIsOverlay(codes, 1, 1, start, q);
    UnzigzagInjective(0);
    assert UNZIGZAG[0] == 0;
  }

  function FlatTable(v: byte): (q: seq<byte>)
    ensures |q| == 64 && forall k | 0 <= k < 64 :: q[k] == v
  {
    seq(64, k => v)
  }

  /** A zero DC difference and an immediate end of block give the flat
      block of the predictor, after two codes. */
  lemma EndOfBlockOnly(pred: i32)
    requires IsI16(pred)
    ensures DecodeBlockSpec([Coded(0, 0), Coded(0x00, 0)], pred, FlatTable(1))
         == Ok(Block(Zeros()[0 := pred], pred, 2))
  {
  }

  /** Four runs of 16 zeros end the block without an end-of-block code. */
  lemma FourZeroRunsEndBlock()
    ensures DecodeBlockSpec([Coded(0, 0)] + seq(4, _ => Coded(0xF0, 0)), 0, FlatTable(1))
         == Ok(Block(Zeros(), 0, 5))
  {
    var codes := [Coded(0, 0)] + seq(4, _ => Coded(0xF0, 0));
    var z := Zeros()[0 := 0];
    assert z == Zeros();
    assert AcFrom(codes, 5, 65, z, FlatTable(1)) == Ok((z, 5));
  }

  /** Three runs of 16 zeros reach position 49; a run of 15 more then
      lands at 64, past the table, which panics. */
  lemma RunPastEndPanics()
    ensures DecodeBlockSpec([Coded(0, 0)] + seq(3, _ => Coded(0xF0, 0)) + [Coded(0xF1, 1)], 0, FlatTable(1))
         == Err(Panic)
  {
    var codes := [Coded(0, 0)] + seq(3, _ => Coded(0xF0, 0)) + [Coded(0xF1, 1)];
    assert codes[4].symbol % 16 == 1 && codes[4].symbol / 16 == 15;
    assert AcFrom(codes, 4, 49, Zeros()[0 := 0], FlatTable(1)) == Err(Panic);
  }

  /** The largest 15-bit coefficient times a table entry of 2 overflows
      the i16 product, which panics. */
  lemma DequantisationOverflowPanics()
    ensures DecodeBlockSpec([Coded(0, 0), Coded(0x0F, 0x7FFF)], 0, FlatTable(2)) == Err(Panic)
  {
    assert Pow2(14) == 0x4000;
    assert Extend(0x7FFF, 15) == Ok(0x7FFF);
  }
}
