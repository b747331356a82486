// What the segment readers of decoder.rs compute from the bytes that
// follow a marker, as functions of the input and a position in it: the
// tables of a DQT and a DHT segment (sections B.2.4.1 and B.2.4.2 of ITU-T
// T.81), the components of a frame header (B.2.2) and of a scan header
// (B.2.3), and the scan for the next restart marker. The methods of
// Decoder (decoder.dfy) read the same bytes step by step and are proved
// to agree with these.
module Segments {
  import opened Base
  import opened Markers
  import opened Geometry

  /** A big-endian u16 at position i (`read_u16::<BigEndian>`). */
  function U16At(d: seq<byte>, i: int): (r: int)
    requires 0 <= i && i + 2 <= |d|
    ensures IsU16(r)
  {
    d[i] as int * 0x100 + d[i + 1] as int
  }

  /** How many whole records of w bytes, up to n, the input still holds
      from p. */
  function Whole(d: seq<byte>, p: nat, n: nat, w: nat): (a: nat)
    requires p <= |d| && w > 0
    ensures a <= n && p + w * a <= |d|
    ensures a < n ==> |d| < p + w * (a + 1)
  {
    if p + w * n <= |d| then n else (|d| - p) / w
  }

  /** An APPn or COM segment (decoder.rs:293-296): a length, then
      `take(length - 2).read_to_end`, which stops at the end of the input;
      the u16 `length - 2` panics below 2. Returns the position after. */
  function SkipSegment(d: seq<byte>, p: nat): (r: Result<nat>)
    requires p <= |d|
    ensures r.Ok? ==> p + 2 <= r.value <= |d|
    ensures r.Ok? ==> r.value == |d| || r.value == p + U16At(d, p)
    ensures p + 2 <= |d| && U16At(d, p) < 2 ==> r == Err(Panic)
  {
    if p + 2 > |d| then Err(IoError)
    else if U16At(d, p) < 2 then Err(Panic)
    else if p + U16At(d, p) <= |d| then Ok(p + U16At(d, p))
    else Ok(|d|)
  }

  /** The bytes read_metadata passes over before a marker
      (decoder.rs:270-277): a byte other than 0xFF is skipped, and the byte
      after an 0xFF is the marker, whatever it is. Returns the marker and
      the position after it. */
  function NextMarker(d: seq<byte>, p: nat): (r: Result<(byte, nat)>)
    requires p <= |d|
    ensures r.Ok? ==> p + 2 <= r.value.1 <= |d|
    ensures r.Err? ==> r.error == IoError
    decreases |d| - p
  {
    if p == |d| then Err(IoError)
    else if d[p] != 0xFF then NextMarker(d, p + 1)
    else if p + 1 == |d| then Err(IoError)
    else Ok((d[p + 1], p + 2))
  }

  /** The marker found is the byte after the first 0xFF from p: every
      byte before that 0xFF is skipped, and nothing else is found. */
  lemma {:induction false} NextMarkerIsFirstFF(d: seq<byte>, p: nat, m: byte, q: nat)
    requires p <= |d|
    ensures NextMarker(d, p) == Ok((m, q)) <==>
      p + 2 <= q <= |d| && d[q - 2] == 0xFF && d[q - 1] == m && forall i | p <= i < q - 2 :: d[i] != 0xFF
    decreases |d| - p
  {
    if p < |d| && d[p] != 0xFF {
      NextMarkerIsFirstFF(d, p + 1, m, q);
    }
  }

  // ---------------------------------------------------------------------
  // Quantization tables

  /** Quantization table slot s of the 256-byte table store. */
  function Slot(qt: seq<byte>, s: int): seq<byte>
    requires |qt| == 256 && 0 <= s < 4
  {
    qt[64 * s .. 64 * s + 64]
  }

  /** One table of read_quantization_tables (decoder.rs:425-438) at p: a
      Pq/Tq byte, an error for an 8-bit precision other than 0 or a slot
      above 3, then 64 bytes into slot Tq. Returns the table store and the
      position after the table. */
  function QuantTable(d: seq<byte>, p: nat, qt: seq<byte>): (r: Result<(seq<byte>, nat)>)
    requires |qt| == 256 && p <= |d|
    ensures r.Ok? ==> |r.value.0| == 256 && r.value.1 == p + 65 <= |d|
    ensures r.Err? ==> r.error == IoError || r.error == FormatError
  {
    if p == |d| then Err(IoError)
    else
      var pq, tq := d[p] / 16, d[p] % 16;
      if pq != 0 || tq > 3 then Err(FormatError)
      else if p + 65 > |d| then Err(IoError)
      else Ok((qt[..64 * tq] + d[p + 1 .. p + 65] + qt[64 * tq + 64..], p + 65))
  }

  /** The loop of read_quantization_tables (decoder.rs:424-440) from
      position p with len bytes of the segment left: it reads tables while
      len > 0 and takes 65 from len per table. */
  function QuantSegment(d: seq<byte>, p: nat, len: int, qt: seq<byte>): (r: Result<(seq<byte>, nat)>)
    requires |qt| == 256 && p <= |d|
    ensures r.Ok? ==> |r.value.0| == 256 && p <= r.value.1 <= |d|
    ensures r.Err? ==> r.error == IoError || r.error == FormatError
    decreases len
  {
    if len <= 0 then Ok((qt, p))
    else
      var t :- QuantTable(d, p, qt);
      QuantSegment(d, t.1, len - 65, t.0)
  }

  /** The slots the tables of a segment name, in the same walk. */
  function QuantSlots(d: seq<byte>, p: nat, len: int): set<int>
    requires p <= |d|
    decreases len
  {
    if len <= 0 || p == |d| then {}
    else if p + 65 > |d| then {d[p] % 16}
    else {d[p] % 16} + QuantSlots(d, p + 65, len - 65)
  }

  /** A segment leaves every slot none of its tables names as it was. */
  lemma {:induction false} QuantSegmentKeepsOtherSlots(d: seq<byte>, p: nat, len: int, qt: seq<byte>, s: int)
    requires |qt| == 256 && p <= |d| && 0 <= s < 4
    requires QuantSegment(d, p, len, qt).Ok? && s !in QuantSlots(d, p, len)
    ensures Slot(QuantSegment(d, p, len, qt).value.0, s) == Slot(qt, s)
    decreases len
  {
    if len > 0 {
      var tq := d[p] % 16;
      var qt' := qt[..64 * tq] + d[p + 1 .. p + 65] + qt[64 * tq + 64..];
      SlotOfWrite(qt, tq, d[p + 1 .. p + 65], s);
      QuantSegmentKeepsOtherSlots(d, p + 65, len - 65, qt', s);
    }
  }

  /** Writing slot tq sets that slot and no other. */
  lemma SlotOfWrite(qt: seq<byte>, tq: int, t: seq<byte>, s: int)
    requires |qt| == 256 && 0 <= tq < 4 && |t| == 64 && 0 <= s < 4
    ensures var qt' := qt[..64 * tq] + t + qt[64 * tq + 64..];
      |qt'| == 256 && Slot(qt', s) == if s == tq then t else Slot(qt, s)
  {
    var qt' := qt[..64 * tq] + t + qt[64 * tq + 64..];
    if s < tq {
      assert Slot(qt', s) == qt'[..64 * tq][64 * s .. 64 * s + 64];
    } else if s > tq {
      assert qt'[64 * tq + 64..] == qt[64 * tq + 64..];
      assert Slot(qt', s) == qt[64 * tq + 64..][64 * (s - tq - 1) .. 64 * (s - tq - 1) + 64];
    }
  }

  /** The length field counts tables by what is left: 65 bytes after the
      length read one table; 64 still read a whole table of 65 bytes,
      running past the segment; 66 read a second table after the first,
      since one byte is still left. */
  lemma QuantSegmentCounts(d: seq<byte>, qt: seq<byte>)
    requires |qt| == 256 && |d| == 130 && d[0] == 0x00 && d[65] == 0x01
    ensures QuantSegment(d, 0, 65, qt).Ok? && QuantSegment(d, 0, 65, qt).value.1 == 65
    ensures QuantSegment(d, 0, 64, qt).Ok? && QuantSegment(d, 0, 64, qt).value.1 == 65
    ensures QuantSegment(d, 0, 66, qt).Ok? && QuantSegment(d, 0, 66, qt).value.1 == 130
  {
  }

  /** read_quantization_tables from its length field at p: the u16 length,
      as an i32 less 2, is what the tables of the segment may take. */
  function QuantTables(d: seq<byte>, p: nat, qt: seq<byte>): (r: Result<(seq<byte>, nat)>)
    requires |qt| == 256 && p <= |d|
    ensures r.Ok? ==> |r.value.0| == 256 && p + 2 <= r.value.1 <= |d|
    ensures r.Err? ==> r.error == IoError || r.error == FormatError
  {
    if p + 2 > |d| then Err(IoError) else QuantSegment(d, p + 2, U16At(d, p) - 2, qt)
  }

  // ---------------------------------------------------------------------
  // Huffman tables

  /** The two lists a DHT segment gives for one table: the 16 code-length
      counts and the symbol values, handed to `derive_tables`. */
  datatype HuffSpec = HuffSpec(bits: seq<byte>, values: seq<byte>)

  /** `bits.iter().fold(0, |a, b| a + *b)` (decoder.rs:464) with its u8
      accumulator, which panics on the first sum above 255. */
  function SumU8(bits: seq<byte>, acc: int): (r: Result<int>)
    requires 0 <= acc <= 0xFF
    ensures r.Ok? ==> acc <= r.value <= 0xFF
    ensures r.Err? ==> r.error == Panic
  {
    if |bits| == 0 then Ok(acc)
    else if acc + bits[0] > 0xFF then Err(Panic)
    else SumU8(bits[1..], acc + bits[0])
  }

  function Sum(bits: seq<byte>): nat
  {
    if |bits| == 0 then 0 else bits[0] + Sum(bits[1..])
  }

  /** The fold succeeds exactly when the total fits in a u8. */
  lemma {:induction false} SumU8IsSum(bits: seq<byte>, acc: nat)
    requires acc <= 0xFF
    ensures SumU8(bits, acc) == if acc + Sum(bits) <= 0xFF then Ok(acc + Sum(bits)) else Err(Panic)
    decreases |bits|
  {
    if |bits| > 0 && acc + bits[0] <= 0xFF {
      SumU8IsSum(bits[1..], acc + bits[0]);
    }
  }

  /** `take(n).read_to_end`: the next n bytes, or as many as are left. */
  function Take(d: seq<byte>, p: nat, n: nat): (r: seq<byte>)
    requires p <= |d|
    ensures |r| == if p + n <= |d| then n else |d| - p
  {
    if p + n <= |d| then d[p .. p + n] else d[p..]
  }

  /** One table of read_huffman_tables (decoder.rs:450-475) at p with len
      bytes of the segment left: a Tc/Th byte (a class other than 0 or 1
      is unsupported), up to 16 counts, up to their sum of values; a table
      slot Th above 1 indexes out of bounds, and the u16 length left
      underflows when the table is longer than it. Returns the tables, the
      position after the table and the length left. */
  function HuffTable(d: seq<byte>, p: nat, len: int, dc: seq<HuffSpec>, ac: seq<HuffSpec>)
    : (r: Result<(seq<HuffSpec>, seq<HuffSpec>, nat, int)>)
    requires p <= |d| && |dc| == 2 && |ac| == 2
    ensures r.Ok? ==> |r.value.0| == 2 && |r.value.1| == 2 && p < r.value.2 <= |d|
    ensures r.Ok? ==> 0 <= r.value.3 < len
  {
    if p == |d| then Err(IoError)
    else
      var tc, th := d[p] / 16, d[p] % 16;
      if tc != 0 && tc != 1 then Err(UnsupportedError)
      else
        var bits := Take(d, p + 1, 16);
        var sum := SumU8(bits, 0);
        if sum.Err? then Err(Panic)
        else
          var values := Take(d, p + 1 + |bits|, sum.value);
          var p' := p + 1 + |bits| + |values|;
          if th >= 2 then Err(Panic)
          else
            var len' := len - (1 + |bits| + sum.value);
            if len' < 0 then Err(Panic)
            else if tc == 0 then Ok((dc[th := HuffSpec(bits, values)], ac, p', len'))
            else Ok((dc, ac[th := HuffSpec(bits, values)], p', len'))
  }

  /** The loop of read_huffman_tables (decoder.rs:449-475): tables while
      the length left is above 0. */
  function HuffSegment(d: seq<byte>, p: nat, len: int, dc: seq<HuffSpec>, ac: seq<HuffSpec>)
    : (r: Result<(seq<HuffSpec>, seq<HuffSpec>, nat)>)
    requires p <= |d| && |dc| == 2 && |ac| == 2
    ensures r.Ok? ==> |r.value.0| == 2 && |r.value.1| == 2 && p <= r.value.2 <= |d|
    decreases len
  {
    if len <= 0 then Ok((dc, ac, p))
    else
      var t :- HuffTable(d, p, len, dc, ac);
      HuffSegment(d, t.2, t.3, t.0, t.1)
  }

  /** A table whose counts sum to more than its segment has left panics:
      a segment length of 19 (17 after the length field) with one count
      of 1 leaves 17 - 18 for the u16. */
  lemma HuffSegmentUnderflowPanics(dc: seq<HuffSpec>, ac: seq<HuffSpec>)
    requires |dc| == 2 && |ac| == 2
    ensures var d := [0x00] + [1] + seq(15, _ => 0) + [7];
      HuffSegment(d, 0, 17, dc, ac) == Err(Panic)
  {
    var d := [0x00] + [1] + seq(15, _ => 0) + [7];
    var bits := d[1..17];
    assert bits == [1] + seq(15, _ => 0);
    SumU8IsSum(bits, 0);
    assert Sum(bits) == 1 by {
      assert bits[1..] == seq(15, _ => 0);
      ZeroSum(15);
    }
  }

  lemma {:induction false} ZeroSum(n: nat)
    ensures Sum(seq(n, _ => 0)) == 0
  {
    if n > 0 {
      assert seq(n, _ => 0)[1..] == seq(n - 1, _ => 0);
      ZeroSum(n - 1);
    }
  }

  /** A segment with one valid table sets exactly the slot its Tc/Th byte
      names and leaves the other three tables alone. */
  lemma OneHuffTable(d: seq<byte>, p: nat, dc: seq<HuffSpec>, ac: seq<HuffSpec>)
    requires p <= |d| && |dc| == 2 && |ac| == 2
    requires p + 17 <= |d| && (d[p] == 0x00 || d[p] == 0x01 || d[p] == 0x10 || d[p] == 0x11)
    requires Sum(d[p + 1 .. p + 17]) <= 0xFF
    ensures var mt := Sum(d[p + 1 .. p + 17]); var th := d[p] % 16;
      var t := HuffSpec(d[p + 1 .. p + 17], Take(d, p + 17, mt));
      HuffSegment(d, p, 17 + mt, dc, ac) ==
        Ok(if d[p] / 16 == 0 then (dc[th := t], ac, p + 17 + |t.values|) else (dc, ac[th := t], p + 17 + |t.values|))
  {
    SumU8IsSum(d[p + 1 .. p + 17], 0);
  }

  /** read_huffman_tables from its length field at p: the u16
      `table_length -= 2` panics below 2. */
  function HuffTables(d: seq<byte>, p: nat, dc: seq<HuffSpec>, ac: seq<HuffSpec>)
    : (r: Result<(seq<HuffSpec>, seq<HuffSpec>, nat)>)
    requires p <= |d| && |dc| == 2 && |ac| == 2
    ensures r.Ok? ==> |r.value.0| == 2 && |r.value.1| == 2 && p + 2 <= r.value.2 <= |d|
    ensures p + 2 <= |d| && U16At(d, p) < 2 ==> r == Err(Panic)
  {
    if p + 2 > |d| then Err(IoError)
    else if U16At(d, p) < 2 then Err(Panic)
    else HuffSegment(d, p + 2, U16At(d, p) - 2, dc, ac)
  }

  // ---------------------------------------------------------------------
  // Frame and scan components

  /** The components of this model's frames: the Component struct of
      decoder.rs:36-58. */
  datatype Component = Component(id: byte, h: int, v: int, tq: byte, dcTable: int, acTable: int, dcPred: int)

  /** The component of a frame header's triple at p (decoder.rs:343-355). */
  function FrameComponent(d: seq<byte>, p: nat): (c: Component)
    requires p + 3 <= |d|
    ensures c.id == d[p] && c.h == HFactor(d[p + 1]) && c.v == VFactor(d[p + 1]) && c.tq == d[p + 2]
    ensures c.dcTable == 0 && c.acTable == 0 && c.dcPred == 0
  {
    Component(d[p], d[p + 1] / 16, d[p + 1] % 16, d[p + 2], 0, 0, 0)
  }

  /** The components map after inserting the first n triples from p, in
      order, so a repeated id keeps its last triple. */
  function InsertComponents(m: map<int, Component>, d: seq<byte>, p: nat, n: nat): map<int, Component>
    requires p + 3 * n <= |d|
  {
    if n == 0 then m
    else InsertComponents(m, d, p, n - 1)[d[p + 3 * (n - 1)] := FrameComponent(d, p + 3 * (n - 1))]
  }

  /** Inserting adds exactly the ids read, each with its last triple. */
  lemma {:induction false} InsertComponentsKeys(m: map<int, Component>, d: seq<byte>, p: nat, n: nat)
    requires p + 3 * n <= |d|
    ensures InsertComponents(m, d, p, n).Keys == m.Keys + set j | 0 <= j < n :: d[p + 3 * j] as int
    ensures forall k | k in m && (forall j | 0 <= j < n :: d[p + 3 * j] != k) ::
      InsertComponents(m, d, p, n)[k] == m[k]
    decreases n
  {
    if n > 0 {
      InsertComponentsKeys(m, d, p, n - 1);
      var s := set j | 0 <= j < n :: d[p + 3 * j] as int;
      var s' := set j | 0 <= j < n - 1 :: d[p + 3 * j] as int;
      assert s == s' + {d[p + 3 * (n - 1)] as int};
    }
  }

  /** The sampling factors of the first n triples from p. */
  function HvBytes(d: seq<byte>, p: nat, n: nat): (r: seq<byte>)
    requires p + 3 * n <= |d|
    ensures |r| == n
  {
    seq(n, j requires 0 <= j < n => d[p + 3 * j + 1])
  }

  /** Every component's sampling factors set to 1 (decoder.rs:369-373). */
  function Unsampled(m: map<int, Component>): (r: map<int, Component>)
    ensures r.Keys == m.Keys
    ensures forall k | k in r :: r[k] == m[k].(h := 1, v := 1)
  {
    map k | k in m :: m[k].(h := 1, v := 1)
  }

  /** The fields of a frame header before its components (decoder.rs:308-320):
      the length (not used), the sample precision, the height, the width
      and the number of components. */
  datatype FrameFields = FrameFields(height: u16, width: u16, n: byte)

  /** read_frame_header up to its components (decoder.rs:307-333): a
      precision other than 8 bits is refused before the dimensions are
      read; a zero height or width is a dimension error, and a frame of
      other than one or three components is refused. Returns the fields;
      the components start 8 bytes after p. */
  function FrameHeader(d: seq<byte>, p: nat): (r: Result<FrameFields>)
    requires p <= |d|
    ensures r.Ok? ==> p + 8 <= |d| && d[p + 2] == 8 && r.value == FrameFields(U16At(d, p + 3), U16At(d, p + 5), d[p + 7])
    ensures r.Ok? ==> r.value.height > 0 && r.value.width > 0 && (r.value.n == 1 || r.value.n == 3)
    ensures p + 3 <= |d| && d[p + 2] != 8 ==> r == Err(UnsupportedError)
    ensures p + 8 <= |d| && d[p + 2] == 8 && (U16At(d, p + 3) == 0 || U16At(d, p + 5) == 0) ==> r == Err(DimensionError)
    ensures r.Err? ==> r.error in {IoError, UnsupportedError, DimensionError}
  {
    if p + 3 > |d| then Err(IoError)
    else if d[p + 2] != 8 then Err(UnsupportedError)
    else if p + 8 > |d| then Err(IoError)
    else
      var f := FrameFields(U16At(d, p + 3), U16At(d, p + 5), d[p + 7]);
      if f.height == 0 || f.width == 0 then Err(DimensionError)
      else if f.n != 1 && f.n != 3 then Err(UnsupportedError)
      else Ok(f)
  }

  /** The loop of read_frame_components (decoder.rs:342-359) over n
      triples from p: the u8 count of blocks panics on the first triple
      that takes it past 255, and the input running out is an IoError.
      Since no partial sum exceeds the whole, it panics exactly when the
      triples the input holds sum past 255. Returns the components map and
      the number of blocks of an MCU. */
  function FrameComponents(m: map<int, Component>, d: seq<byte>, p: nat, n: nat)
    : (r: Result<(map<int, Component>, int)>)
    requires p <= |d|
    ensures r.Ok? ==> p + 3 * n <= |d| && 0 <= r.value.1 <= 0xFF
    ensures r.Err? ==> r.error == IoError || r.error == Panic
  {
    var a := Whole(d, p, n, 3);
    if SumHV(HvBytes(d, p, a)) > 0xFF then Err(Panic)
    else if a < n then Err(IoError)
    else Ok((InsertComponents(m, d, p, n), SumHV(HvBytes(d, p, n))))
  }

  /** The input ending inside triple i, with no overflow before it, is
      an I/O error. */
  lemma FrameComponentsShort(m: map<int, Component>, d: seq<byte>, p: nat, n: nat, i: nat)
    requires i < n && p + 3 * i <= |d| < p + 3 * (i + 1)
    requires SumHV(HvBytes(d, p, i)) <= 0xFF
    ensures FrameComponents(m, d, p, n) == Err(IoError)
  {
  }

  /** Triple i taking the count past 255 panics, whatever follows. */
  lemma FrameComponentsOverflow(m: map<int, Component>, d: seq<byte>, p: nat, n: nat, i: nat)
    requires i < n && p + 3 * (i + 1) <= |d|
    requires SumHV(HvBytes(d, p, i + 1)) > 0xFF
    ensures FrameComponents(m, d, p, n) == Err(Panic)
  {
    var a := Whole(d, p, n, 3);
    HvBytesPrefix(d, p, a, i + 1);
    SumHVPrefix(HvBytes(d, p, a), i + 1);
  }

  /** All n triples read without overflow give the components and the
      count. */
  lemma FrameComponentsWhole(m: map<int, Component>, d: seq<byte>, p: nat, n: nat)
    requires p + 3 * n <= |d| && SumHV(HvBytes(d, p, n)) <= 0xFF
    ensures FrameComponents(m, d, p, n) == Ok((InsertComponents(m, d, p, n), SumHV(HvBytes(d, p, n))))
  {
  }

  /** The sampling bytes of the first k triples are a prefix of those of
      more triples. */
  lemma HvBytesPrefix(d: seq<byte>, p: nat, a: nat, k: nat)
    requires k <= a && p + 3 * a <= |d|
    ensures HvBytes(d, p, a)[..k] == HvBytes(d, p, k)
  {
  }

  /** One more triple adds its h * v to the count. */
  lemma SumHVStep(d: seq<byte>, p: nat, k: nat)
    requires p + 3 * (k + 1) <= |d|
    ensures SumHV(HvBytes(d, p, k + 1)) == SumHV(HvBytes(d, p, k)) + HFactor(d[p + 3 * k + 1]) * VFactor(d[p + 3 * k + 1])
  {
    HvBytesPrefix(d, p, k + 1, k);
  }

  /** The ids of the first n (id, tables) pairs of a scan header from p. */
  function ScanIds(d: seq<byte>, p: nat, n: nat): (r: seq<byte>)
    requires p + 2 * n <= |d|
    ensures |r| == n
  {
    seq(n, j requires 0 <= j < n => d[p + 2 * j])
  }

  /** The components map after the first n pairs of a scan header, each
      setting its component's DC and AC table selectors
      (decoder.rs:398-406); an unknown id is left to the caller. */
  function SetTables(m: map<int, Component>, d: seq<byte>, p: nat, n: nat): (r: map<int, Component>)
    requires p + 2 * n <= |d|
    ensures r.Keys == m.Keys
  {
    if n == 0 then m
    else
      var r := SetTables(m, d, p, n - 1);
      var id, t := d[p + 2 * (n - 1)], d[p + 2 * (n - 1) + 1];
      if id in r then r[id as int := r[id].(dcTable := t / 16, acTable := t % 16)] else r
  }

  /** Setting the table selectors changes nothing else of a component. */
  lemma {:induction false} SetTablesOnlySelectors(m: map<int, Component>, d: seq<byte>, p: nat, n: nat)
    requires p + 2 * n <= |d|
    ensures forall k | k in m ::
      SetTables(m, d, p, n)[k] == m[k].(dcTable := SetTables(m, d, p, n)[k].dcTable,
                                        acTable := SetTables(m, d, p, n)[k].acTable)
    ensures forall k | k in m && k !in ScanIds(d, p, n) :: SetTables(m, d, p, n)[k] == m[k]
    decreases n
  {
    if n > 0 {
      SetTablesOnlySelectors(m, d, p, n - 1);
      assert forall k | k in ScanIds(d, p, n - 1) :: k in ScanIds(d, p, n) by {
        forall k | k in ScanIds(d, p, n - 1)
          ensures k in ScanIds(d, p, n)
        {
          var j :| 0 <= j < n - 1 && ScanIds(d, p, n - 1)[j] == k;
          assert ScanIds(d, p, n)[j] == k;
        }
      }
      assert ScanIds(d, p, n)[n - 1] == d[p + 2 * (n - 1)];
    }
  }

  /** Every id of `ids` names a component of `m`. */
  predicate KnownIds(m: map<int, Component>, ids: seq<byte>)
  {
    forall j | 0 <= j < |ids| :: ids[j] as int in m
  }

  /** read_scan_header from its length field at p (decoder.rs:391-418):
      the length (not used), the number of components, a (component id,
      table selectors) pair per component, where an id the frame did not
      define is an `unwrap` of None, and three bytes of spectral selection
      and approximation (not used). Returns the components map, the ids
      of the scan and the position after the header. */
  function ScanHeader(m: map<int, Component>, d: seq<byte>, p: nat)
    : (r: Result<(map<int, Component>, seq<byte>, nat)>)
    requires p <= |d|
    ensures r.Ok? ==> p + 3 <= |d| && var n := d[p + 2] as int;
      p + 3 + 2 * n + 3 <= |d| && r.value.2 == p + 3 + 2 * n + 3 &&
      r.value.0.Keys == m.Keys && |r.value.1| == n
    ensures r.Ok? ==> forall id | id in r.value.1 :: id as int in m
    ensures r.Err? ==> r.error == IoError || r.error == Panic
  {
    if p + 3 > |d| then Err(IoError)
    else
      var n, q := d[p + 2] as int, p + 3;
      var a := Whole(d, q, n, 2);
      if !KnownIds(m, ScanIds(d, q, a)) then Err(Panic)
      else if a < n || q + 2 * n + 3 > |d| then Err(IoError)
      else Ok((SetTables(m, d, q, n), ScanIds(d, q, n), q + 2 * n + 3))
  }

  /** The input ending inside pair i, with every id before it known, is
      an I/O error. */
  lemma ScanHeaderShort(m: map<int, Component>, d: seq<byte>, p: nat, i: nat)
    requires p + 3 <= |d| && i < d[p + 2] as int && p + 3 + 2 * i <= |d| < p + 3 + 2 * (i + 1)
    requires KnownIds(m, ScanIds(d, p + 3, i))
    ensures ScanHeader(m, d, p) == Err(IoError)
  {
  }

  /** Pair i naming an id the frame did not define panics, whatever
      follows. */
  lemma ScanHeaderUnknownId(m: map<int, Component>, d: seq<byte>, p: nat, i: nat)
    requires p + 3 <= |d| && i < d[p + 2] as int && p + 3 + 2 * (i + 1) <= |d|
    requires d[p + 3 + 2 * i] as int !in m
    ensures ScanHeader(m, d, p) == Err(Panic)
  {
    var a := Whole(d, p + 3, d[p + 2] as int, 2);
    assert ScanIds(d, p + 3, a)[i] as int !in m;
  }

  /** With every pair read and every id known, only the three bytes after
      the pairs are left to read. */
  lemma ScanHeaderEnd(m: map<int, Component>, d: seq<byte>, p: nat)
    requires p + 3 <= |d| && p + 3 + 2 * d[p + 2] as int <= |d|
    requires KnownIds(m, ScanIds(d, p + 3, d[p + 2] as int))
    ensures var n := d[p + 2] as int; var q: nat := p + 3 + 2 * n + 3;
      ScanHeader(m, d, p) ==
        if q > |d| then Err(IoError) else Ok((SetTables(m, d, p + 3, n), ScanIds(d, p + 3, n), q))
  {
  }

  /** One more pair appends its id. */
  lemma ScanIdsStep(d: seq<byte>, p: nat, i: nat)
    requires p + 2 * (i + 1) <= |d|
    ensures ScanIds(d, p, i + 1) == ScanIds(d, p, i) + [d[p + 2 * i]]
  {
  }

  /** The ids of the first k pairs are a prefix of those of more pairs. */
  lemma ScanIdsPrefix(d: seq<byte>, p: nat, a: nat, k: nat)
    requires k <= a && p + 2 * a <= |d|
    ensures ScanIds(d, p, a)[..k] == ScanIds(d, p, k)
  {
  }

  // ---------------------------------------------------------------------
  // The scan for a restart marker

  /** The loop of find_restart_marker (decoder.rs:523-535) from p: bytes
      other than 0xFF are skipped; after an 0xFF the next byte is taken
      as a marker, RSTm ends the scan, EOI is a format error, and any
      other byte is passed over. Returns the marker and the position
      after it. */
  function ScanRst(d: seq<byte>, p: nat): (r: Result<(byte, nat)>)
    requires p <= |d|
    ensures r.Ok? ==> IsRst(r.value.0) && p + 2 <= r.value.1 <= |d|
    ensures r.Err? ==> r.error == IoError || r.error == FormatError
    decreases |d| - p
  {
    if p == |d| then Err(IoError)
    else if d[p] != 0xFF then ScanRst(d, p + 1)
    else if p + 1 == |d| then Err(IoError)
    else if IsRst(d[p + 1]) then Ok((d[p + 1], p + 2))
    else if d[p + 1] == EOI then Err(FormatError)
    else ScanRst(d, p + 2)
  }

  /** find_restart_marker (decoder.rs:515-538) with the Huffman decoder's
      cached marker `cached` (0 for none): a cached marker is returned
      before any byte is read, and otherwise the bytes are scanned. */
  function FoundMarker(d: seq<byte>, p: nat, cached: byte): Result<(byte, nat)>
    requires p <= |d|
  {
    if cached != 0 then Ok((cached, p)) else ScanRst(d, p)
  }

  /** The scan ends just after an 0xFF byte followed by the marker it
      returns. */
  lemma {:induction false} ScanRstEndsAtMarker(d: seq<byte>, p: nat)
    requires p <= |d| && ScanRst(d, p).Ok?
    ensures var (m, q) := ScanRst(d, p).value; d[q - 2] == 0xFF && d[q - 1] == m
    decreases |d| - p
  {
    if d[p] != 0xFF {
      ScanRstEndsAtMarker(d, p + 1);
    } else if !IsRst(d[p + 1]) {
      ScanRstEndsAtMarker(d, p + 2);
    }
  }

  /** Entropy-coded bytes before the marker are passed over, including a
      stuffed 0xFF 0x00 pair. */
  lemma ScanRstSkipsData()
    ensures ScanRst([0x12, 0xFF, 0x00, 0x34, 0xFF, 0xD3], 0) == Ok((0xD3, 6))
    ensures ScanRst([0x12, 0xFF, 0xD9, 0xFF, 0xD0], 0) == Err(FormatError)
  {
  }

  /** An 0xFF fill byte before the marker pairs with the other 0xFF, so
      the scan reads the marker as data and misses it. */
  lemma ScanRstMissesFilledMarker()
    ensures ScanRst([0xFF, 0xFF, 0xD0], 0) == Err(IoError)
  {
  }
}
