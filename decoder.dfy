// The JPEGDecoder of decoder.rs (lines 101-170 and 193-549): the state the
// marker-driven parser builds up segment by segment, and the restart
// bookkeeping between MCUs. The input stream is a byte sequence with a
// cursor; the Huffman decoder of `super::entropy` is a supply of coded
// symbols with their received bits (module Coefficients), a cursor into
// it, and the four fields `reset` clears.
module Decoding {
  import opened Base
  import opened Markers
  import opened Geometry
  import opened Segments
  import opened Coefficients
  import opened Mcu
  import opened Sampling
  import McuBuffer

  /** JPEGState (decoder.rs:91-99). */
  datatype JpegState = Start | HaveSoi | HaveFirstFrame | HaveFirstScan | End

  /** Every component's DC predictor set to 0, as `reset` does
      (decoder.rs:546-548). */
  function ZeroPredictors(m: map<int, Component>): (r: map<int, Component>)
    ensures r.Keys == m.Keys
    ensures forall k | k in r :: r[k] == m[k].(dcPred := 0)
  {
    map k | k in m :: m[k].(dcPred := 0)
  }

  /** Setting the factors to 1 keeps every component in range. */
  lemma UnsampledOk(m: map<int, Component>)
    requires ComponentsOk(m)
    ensures ComponentsOk(Unsampled(m))
  {
  }

  /** Putting a component in range keeps the map in range. */
  lemma PutOk(m: map<int, Component>, id: int, c: Component)
    requires ComponentsOk(m) && ComponentOk(c)
    ensures ComponentsOk(m[id := c])
  {
  }

  /** Table selectors from a byte's nibbles keep a component in range. */
  lemma SelectorsOk(m: map<int, Component>, id: int, t: byte)
    requires ComponentsOk(m) && id in m
    ensures ComponentsOk(m[id := m[id].(dcTable := t / 16, acTable := t % 16)])
  {
  }

  /** `vec![0; len]`. */
  method Zeroed(len: nat) returns (a: array<byte>)
    ensures fresh(a) && a[..] == seq(len, _ => 0)
  {
    a := new byte[len](_ => 0);
  }

  class Decoder {
    /** The input and the position of the next byte to read. */
    const data: seq<byte>
    var pos: nat

    /** The symbols the Huffman decoder yields, and the next one. */
    const codes: seq<Coded>
    var codePos: nat

    /** The bit buffer, its fill, the end flag and the cached marker of
        the HuffDecoder: what `reset` and `find_restart_marker` touch. */
    var bits: u32
    var numBits: byte
    var atEnd: bool
    var marker: byte

    /** Four quantization tables of 64 entries each. */
    const qtables: array<byte>
    /** The lists each DC and AC table is derived from. */
    var dcTables: seq<HuffSpec>
    var acTables: seq<HuffSpec>

    var height: u16
    var width: u16
    var numComponents: byte
    var scanComponents: seq<byte>
    var components: map<int, Component>

    var mcuRow: array<byte>
    var mcu: array<byte>
    var hmax: byte
    var vmax: byte

    var interval: u16
    var mcucount: u32
    var expectedRst: byte

    var paddedWidth: nat
    var state: JpegState

    /** What every method keeps: the cursors in range, four table slots,
        component fields in range, an expected marker among RST0..RST7,
        and three distinct buffers. */
    ghost predicate Valid()
      reads this`pos, this`codePos, this`dcTables, this`acTables, this`components, this`expectedRst
      reads this`mcu, this`mcuRow
    {
      pos <= |data| && codePos <= |codes| &&
      qtables.Length == 256 && |dcTables| == 2 && |acTables| == 2 &&
      ComponentsOk(components) && IsRst(expectedRst) &&
      qtables != mcu && qtables != mcuRow && mcu != mcuRow
    }

    /** JPEGDecoder::new (decoder.rs:137-170). */
    constructor (input: seq<byte>, symbols: seq<Coded>)
      ensures Valid() && data == input && codes == symbols && pos == 0 && codePos == 0
      ensures bits == 0 && numBits == 0 && !atEnd && marker == 0
      ensures qtables[..] == seq(256, _ => 0)
      ensures dcTables == [HuffSpec([], []), HuffSpec([], [])] && acTables == dcTables
      ensures height == 0 && width == 0 && numComponents == 0 && scanComponents == [] && components == map[]
      ensures mcuRow[..] == [] && mcu[..] == [] && hmax == 0 && vmax == 0
      ensures interval == 0 && mcucount == 0 && expectedRst == RST0
      ensures paddedWidth == 0 && state == Start
    {
      data, codes := input, symbols;
      pos, codePos := 0, 0;
      bits, numBits, atEnd, marker := 0, 0, false, 0;
      qtables := new byte[256](_ => 0);
      dcTables := [HuffSpec([], []), HuffSpec([], [])];
      acTables := [HuffSpec([], []), HuffSpec([], [])];
      height, width, numComponents := 0, 0, 0;
      scanComponents, components := [], map[];
      mcuRow := new byte[0];
      mcu := new byte[0];
      hmax, vmax := 0, 0;
      interval, mcucount, expectedRst := 0, 0, RST0;
      paddedWidth, state := 0, Start;
    }

    // -------------------------------------------------------------------
    // Reading the input

    /** `read_u8`: the next byte, or an I/O error at the end. */
    method ReadU8() returns (r: Result<byte>)
      requires pos <= |data|
      modifies this`pos
      ensures pos <= |data|
      ensures old(pos) < |data| ==> r == Ok(data[old(pos)]) && pos == old(pos) + 1
      ensures old(pos) == |data| ==> r == Err(IoError) && pos == old(pos)
    {
      if pos == |data| {
        return Err(IoError);
      }
      r := Ok(data[pos]);
      pos := pos + 1;
    }

    /** `read_u16::<BigEndian>`: the next two bytes, high byte first; a
        short read is an I/O error that consumes what is left. */
    method ReadU16() returns (r: Result<u16>)
      requires pos <= |data|
      modifies this`pos
      ensures pos <= |data|
      ensures old(pos) + 2 <= |data| ==> r == Ok(U16At(data, old(pos))) && pos == old(pos) + 2
      ensures old(pos) + 2 > |data| ==> r == Err(IoError) && pos == |data|
    {
      if pos + 2 > |data| {
        pos := |data|;
        return Err(IoError);
      }
      r := Ok(U16At(data, pos));
      pos := pos + 2;
    }

    /** `take(n).read_to_end`: up to n bytes, fewer at the end of the
        input, never an error. */
    method TakeBytes(n: nat) returns (r: seq<byte>)
      requires pos <= |data|
      modifies this`pos
      ensures r == Take(data, old(pos), n) && pos == old(pos) + |r| <= |data|
    {
      r := if pos + n <= |data| then data[pos .. pos + n] else data[pos..];
      pos := pos + |r|;
    }

    // -------------------------------------------------------------------
    // The marker loop

    /** read_metadata (decoder.rs:269-305): markers and their segments
        until a scan header has been read. The loop of the source skips
        bytes and reads a segment in one `while`; here ReadMarker does the
        skipping, which leaves the state as it is. */
    method ReadMetadata() returns (r: Result<()>)
      requires Valid()
      modifies this`pos, this`state, qtables, this`dcTables, this`acTables
      modifies this`height, this`width, this`numComponents, this`paddedWidth
      modifies this`components, this`hmax, this`vmax, this`mcu, this`mcuRow
      modifies this`scanComponents, this`interval
      ensures Valid()
      ensures r.Ok? ==> state == HaveFirstScan
      ensures old(state) == HaveFirstScan ==> r == Ok(()) && pos == old(pos)
    {
      while state != HaveFirstScan
        invariant Valid()
        invariant old(state) == HaveFirstScan ==> state == HaveFirstScan && pos == old(pos)
        decreases |data| - pos
      {
        var marker := ReadMarker();
        if marker.Err? {
          return Err(marker.error);
        }
        r := ReadSegment(marker.value);
        if r.Err? {
          return;
        }
      }
      return Ok(());
    }

    /** The skipping part of read_metadata's loop (decoder.rs:270-277):
        bytes up to an 0xFF, then the marker, as NextMarker finds it. */
    method ReadMarker() returns (r: Result<byte>)
      requires pos <= |data|
      modifies this`pos
      ensures pos <= |data|
      ensures var s := NextMarker(data, old(pos));
        (s.Err? ==> r == Err(s.error)) && (s.Ok? ==> r == Ok(s.value.0) && pos == s.value.1)
    {
      while true
        invariant pos <= |data| && NextMarker(data, pos) == NextMarker(data, old(pos))
        decreases |data| - pos
      {
        var b :- ReadU8();
        if b == 0xFF {
          var m :- ReadU8();
          return Ok(m);
        }
      }
    }

    /** What the arm `a` of read_metadata's match leaves, from position p
        with the tables q0, dc0 and ac0, the components m0 and the state
        s0: an arm that reads a segment leaves what its reader
        describes, SOI, SOF0 and SOS set the state, TEM passes, SOF2 and
        DNL are unsupported and every other marker is a format error. */
    ghost predicate SegmentRead(a: Action, r: Result<()>, p: nat, q0: seq<byte>, dc0: seq<HuffSpec>,
                                ac0: seq<HuffSpec>, m0: map<int, Component>, s0: JpegState)
      requires p <= |data| && |q0| == 256 && |dc0| == 2 && |ac0| == 2
      reads this`pos, this`state, qtables, this`dcTables, this`acTables, this`height, this`width,
        this`numComponents, this`paddedWidth, this`components, this`hmax, this`vmax, this`mcu, this`mcuRow,
        this`scanComponents, this`interval, mcu, mcuRow
    {
      match a
      case StartOfImage => r == Ok(()) && state == HaveSoi && pos == p
      case HuffmanTables => HuffRead(r, p, dc0, ac0) && state == s0
      case QuantizationTables => QuantRead(r, p, q0) && state == s0
      case Frame => HeaderRead(r, p, m0) && (r.Ok? ==> state == HaveFirstFrame)
      case Scan => ScanRead(r, p, m0) && (r.Ok? ==> state == HaveFirstScan)
      case RestartInterval => IntervalRead(r, p) && state == s0
      case Skip => SkipRead(r, p) && state == s0
      case Ignore => r == Ok(()) && pos == p && state == s0
      case Unsupported => r == Err(UnsupportedError) && state == s0
      case Unknown => r == Err(FormatError) && state == s0
    }

    /** The match of read_metadata (decoder.rs:279-301), arm by arm as
        Dispatch names the arms. */
    method ReadSegment(m: byte) returns (r: Result<()>)
      requires Valid()
      modifies this`pos, this`state, qtables, this`dcTables, this`acTables
      modifies this`height, this`width, this`numComponents, this`paddedWidth
      modifies this`components, this`hmax, this`vmax, this`mcu, this`mcuRow
      modifies this`scanComponents, this`interval
      ensures Valid()
      ensures SegmentRead(Dispatch(m), r, old(pos), old(qtables[..]), old(dcTables), old(acTables),
                          old(components), old(state))
      ensures r.Ok? ==> old(pos) <= pos
    {
      var a := Dispatch(m);
      match a
      case StartOfImage =>
        state := HaveSoi;
        r := Ok(());
      case Frame =>
        r := ReadHeaderSegment(a);
      case Scan =>
        r := ReadHeaderSegment(a);
      case Ignore =>
        r := Ok(());
      case Unsupported =>
        r := Err(UnsupportedError);
      case Unknown =>
        r := Err(FormatError);
      case _ =>
        r := ReadTableSegment(a);
    }

    /** The arms of read_metadata that read a frame or scan header
        (decoder.rs:283-290). */
    method ReadHeaderSegment(a: Action) returns (r: Result<()>)
      requires a == Frame || a == Scan
      requires Valid()
      modifies this`pos, this`state, qtables, this`dcTables, this`acTables
      modifies this`height, this`width, this`numComponents, this`paddedWidth
      modifies this`components, this`hmax, this`vmax, this`mcu, this`mcuRow
      modifies this`scanComponents, this`interval
      ensures Valid()
      ensures SegmentRead(a, r, old(pos), old(qtables[..]), old(dcTables), old(acTables),
                          old(components), old(state))
      ensures r.Ok? ==> old(pos) <= pos
    {
      if a == Frame {
        r := ReadFrameHeader();
        if r.Ok? {
          state := HaveFirstFrame;
        }
      } else {
        r := ReadScanHeader();
        if r.Ok? {
          state := HaveFirstScan;
        }
      }
    }

    /** The arms of read_metadata that read a table, the restart interval
        or a skipped payload (decoder.rs:281-282, 291-295). */
    method ReadTableSegment(a: Action) returns (r: Result<()>)
      requires a.HuffmanTables? || a.QuantizationTables? || a.RestartInterval? || a.Skip?
      requires Valid()
      modifies this`pos, this`state, qtables, this`dcTables, this`acTables
      modifies this`height, this`width, this`numComponents, this`paddedWidth
      modifies this`components, this`hmax, this`vmax, this`mcu, this`mcuRow
      modifies this`scanComponents, this`interval
      ensures Valid()
      ensures SegmentRead(a, r, old(pos), old(qtables[..]), old(dcTables), old(acTables),
                          old(components), old(state))
      ensures r.Ok? ==> old(pos) <= pos
    {
      match a
      case HuffmanTables =>
        r := ReadHuffmanTables();
      case QuantizationTables =>
        r := ReadQuantizationTables();
      case RestartInterval =>
        r := ReadRestartInterval();
      case Skip =>
        r := SkipPayload();
    }

    // -------------------------------------------------------------------
    // Segments

    /** The outcome of a DQT segment from p on the table store q0, as
        QuantTables computes it. */
    ghost predicate QuantRead(r: Result<()>, p: nat, q0: seq<byte>)
      requires p <= |data| && |q0| == 256
      reads this`pos, qtables
    {
      var s := QuantTables(data, p, q0);
      (s.Err? ==> r == Err(s.error)) &&
      (s.Ok? ==> r == Ok(()) && qtables[..] == s.value.0 && pos == s.value.1)
    }

    /** read_quantization_tables (decoder.rs:420-443): the tables of the
        segment overwrite their slots of `qtables` in place, 64 bytes
        each, as QuantTables computes. */
    method ReadQuantizationTables() returns (r: Result<()>)
      requires Valid()
      modifies this`pos, qtables
      ensures Valid() && QuantRead(r, old(pos), old(qtables[..]))
      ensures r.Ok? ==> old(pos) <= pos
    {
      ghost var outcome := QuantTables(data, old(pos), old(qtables[..]));
      var length := ReadU16();
      if length.Err? {
        return Err(IoError);
      }
      var tableLength := length.value as int - 2;
      assert QuantSegment(data, pos, tableLength, qtables[..]) == outcome;
      while tableLength > 0
        invariant pos <= |data| && Valid()
        invariant QuantSegment(data, pos, tableLength, qtables[..]) == outcome
        decreases tableLength
      {
        var loaded := ReadQuantizationTable();
        if loaded.Err? {
          return loaded;
        }
        tableLength := tableLength - 65;
      }
      return Ok(());
    }

    /** One table of read_quantization_tables (decoder.rs:425-438): the
        Pq/Tq byte, then the inner loop storing 64 bytes into slot Tq one
        at a time, as QuantTable computes. */
    method ReadQuantizationTable() returns (r: Result<()>)
      requires pos <= |data| && qtables.Length == 256
      modifies this`pos, qtables
      ensures pos <= |data|
      ensures var s := QuantTable(data, old(pos), old(qtables[..]));
        (s.Err? ==> r == Err(s.error)) &&
        (s.Ok? ==> r == Ok(()) && qtables[..] == s.value.0 && pos == s.value.1)
    {
      var pqtq :- ReadU8();
      var pq, tq := pqtq / 16, pqtq % 16;
      if pq != 0 || tq > 3 {
        return Err(FormatError);
      }
      ghost var start, q0 := pos, qtables[..];
      var i := 0;
      while i < 64
        invariant 0 <= i <= 64 && pos == start + i <= |data|
        invariant forall j | 0 <= j < 256 ::
          qtables[j] == if 64 * tq <= j < 64 * tq + i then data[start + j - 64 * tq] else q0[j]
      {
        var b :- ReadU8();
        qtables[64 * tq + i] := b;
        i := i + 1;
      }
      assert qtables[..] == q0[..64 * tq] + data[start .. start + 64] + q0[64 * tq + 64..];
      return Ok(());
    }

    /** The outcome of a DHT segment from p on the tables dc0 and ac0, as
        HuffTables computes it. */
    ghost predicate HuffRead(r: Result<()>, p: nat, dc0: seq<HuffSpec>, ac0: seq<HuffSpec>)
      requires p <= |data| && |dc0| == 2 && |ac0| == 2
      reads this`pos, this`dcTables, this`acTables
    {
      var s := HuffTables(data, p, dc0, ac0);
      (s.Err? ==> r == Err(s.error)) &&
      (s.Ok? ==> r == Ok(()) && dcTables == s.value.0 && acTables == s.value.1 && pos == s.value.2)
    }

    /** read_huffman_tables (decoder.rs:445-478): each table's counts and
        values replace the DC or AC table its Tc/Th byte names, as
        HuffTables computes. */
    method ReadHuffmanTables() returns (r: Result<()>)
      requires Valid()
      modifies this`pos, this`dcTables, this`acTables
      ensures Valid() && HuffRead(r, old(pos), old(dcTables), old(acTables))
      ensures r.Ok? ==> old(pos) <= pos
    {
      ghost var outcome := HuffTables(data, old(pos), old(dcTables), old(acTables));
      var length := ReadU16();
      if length.Err? {
        return Err(IoError);
      }
      if length.value < 2 {
        return Err(Panic);
      }
      var tableLength := length.value as int - 2;
      assert HuffSegment(data, pos, tableLength, dcTables, acTables) == outcome;
      while tableLength > 0
        invariant Valid()
        invariant HuffSegment(data, pos, tableLength, dcTables, acTables) == outcome
        decreases tableLength
      {
        var left := ReadHuffmanTable(tableLength);
        if left.Err? {
          return Err(left.error);
        }
        tableLength := left.value;
      }
      return Ok(());
    }

    /** One table of read_huffman_tables (decoder.rs:450-475): a Tc/Th
        byte, the 16 counts, the values, the table stored, and what is left
        of the segment's length, as HuffTable computes. */
    method ReadHuffmanTable(len: int) returns (r: Result<int>)
      requires pos <= |data| && |dcTables| == 2 && |acTables| == 2
      modifies this`pos, this`dcTables, this`acTables
      ensures pos <= |data| && |dcTables| == 2 && |acTables| == 2
      ensures var s := HuffTable(data, old(pos), len, old(dcTables), old(acTables));
        (s.Err? ==> r == Err(s.error)) &&
        (s.Ok? ==> r == Ok(s.value.3) && dcTables == s.value.0 && acTables == s.value.1 && pos == s.value.2)
    {
      var tcth :- ReadU8();
      var tc, th := tcth / 16, tcth % 16;
      if tc != 0 && tc != 1 {
        return Err(UnsupportedError);
      }
      var counts := TakeBytes(16);
      var mt :- SumU8(counts, 0);
      var values := TakeBytes(mt);
      if th >= 2 {
        return Err(Panic);
      }
      var used := 1 + |counts| + mt;
      if used > len {
        return Err(Panic);
      }
      if tc == 0 {
        dcTables := dcTables[th := HuffSpec(counts, values)];
      } else {
        acTables := acTables[th := HuffSpec(counts, values)];
      }
      return Ok(len - used);
    }

    /** The outcome of a frame header from p on the components m0: the
        fields as FrameHeader reads them, the padded width, and the
        components as FrameRead describes them. */
    ghost predicate HeaderRead(r: Result<()>, p: nat, m0: map<int, Component>)
      requires p <= |data|
      reads this`pos, this`height, this`width, this`numComponents, this`paddedWidth, this`components,
        this`hmax, this`vmax, this`mcu, this`mcuRow, mcu, mcuRow
    {
      var h := FrameHeader(data, p);
      (h.Err? ==> r == Err(h.error)) &&
      (h.Ok? ==> height == h.value.height && width == h.value.width && numComponents == h.value.n &&
                 paddedWidth == PaddedWidth(width) && FrameRead(r, m0, p + 8, h.value.n))
    }

    /** read_frame_header (decoder.rs:307-337): the fields, then the
        padded width and the components. */
    method ReadFrameHeader() returns (r: Result<()>)
      requires Valid()
      modifies this`pos, this`height, this`width, this`numComponents, this`paddedWidth
      modifies this`components, this`hmax, this`vmax, this`mcu, this`mcuRow
      ensures Valid() && HeaderRead(r, old(pos), old(components))
      ensures r.Ok? ==> old(pos) <= pos
      ensures r.Ok? ==> fresh(mcu) && fresh(mcuRow)
    {
      var fields := ReadFrameFields();
      if fields.Err? {
        return Err(fields.error);
      }
      paddedWidth := PaddedWidth(width);
      r := ReadFrameComponents(numComponents);
    }

    /** The fields of read_frame_header (decoder.rs:308-331), stored as
        they are read, and the checks on them, as FrameHeader makes them. */
    method ReadFrameFields() returns (r: Result<FrameFields>)
      requires pos <= |data|
      modifies this`pos, this`height, this`width, this`numComponents
      ensures pos <= |data| && r == FrameHeader(data, old(pos))
      ensures r.Ok? ==> pos == old(pos) + 8
      ensures r.Ok? ==> height == r.value.height && width == r.value.width && numComponents == r.value.n
    {
      var length := ReadU16();
      var precision := ReadU8();
      if length.Err? || precision.Err? {
        return Err(IoError);
      }
      if precision.value != 8 {
        return Err(UnsupportedError);
      }
      var h := ReadU16();
      var w := ReadU16();
      var n := ReadU8();
      if h.Err? || w.Err? || n.Err? {
        return Err(IoError);
      }
      height, width, numComponents := h.value, w.value, n.value;
      if height == 0 || width == 0 {
        return Err(DimensionError);
      }
      if numComponents != 1 && numComponents != 3 {
        return Err(UnsupportedError);
      }
      return Ok(FrameFields(height, width, numComponents));
    }

    /** What read_frame_components leaves after reading n triples from p
        into the components `m`: the error of the read, or the triples
        inserted and the state FrameSized describes. */
    ghost predicate FrameRead(r: Result<()>, m: map<int, Component>, p: nat, n: byte)
      requires p <= |data|
      reads this`pos, this`width, this`components, this`hmax, this`vmax, this`mcu, this`mcuRow, mcu, mcuRow
    {
      var s := FrameComponents(m, data, p, n);
      (s.Err? ==> r == Err(s.error)) &&
      (s.Ok? ==> r == Ok(()) && pos == p + 3 * n && FrameSized(s.value.0, s.value.1, n))
    }

    /** The state after the triples gave the components `comps` and the
        count `blocks`: every factor set to 1 for a single component, the
        largest factors (1 for a single component), and zeroed MCU and row
        buffers sized from the count and from the largest factors before
        that override. */
    ghost predicate FrameSized(comps: map<int, Component>, blocks: int, n: byte)
      requires 0 <= blocks <= 0xFF
      reads this`width, this`components, this`hmax, this`vmax, this`mcu, this`mcuRow, mcu, mcuRow
    {
      var hm, vm := MaxFactor(comps, comps.Keys, true), MaxFactor(comps, comps.Keys, false);
      components == (if n == 1 then Unsampled(comps) else comps) &&
      hmax == (if n == 1 then 1 else hm) && vmax == (if n == 1 then 1 else vm) &&
      mcu[..] == seq(McuLength(n, blocks), _ => 0) &&
      0 <= hm <= 15 && 0 <= vm <= 15 &&
      mcuRow[..] == seq(McuRowLength(width, hm, vm, mcu.Length), _ => 0)
    }

    /** read_frame_components (decoder.rs:339-388): the triples, then
        the buffers. */
    method ReadFrameComponents(n: byte) returns (r: Result<()>)
      requires Valid()
      modifies this`pos, this`components, this`hmax, this`vmax, this`mcu, this`mcuRow
      ensures Valid()
      ensures FrameRead(r, old(components), old(pos), n)
      ensures r.Ok? ==> fresh(mcu) && fresh(mcuRow)
    {
      var read := ReadTriples(n);
      if read.Err? {
        return Err(read.error);
      }
      SizeBuffers(n, read.value);
      return Ok(());
    }

    /** The end of read_frame_components (decoder.rs:361-385): the fold
        for the largest factors, the single-component override and the two
        buffers. */
    method SizeBuffers(n: byte, blocks: int)
      requires Valid() && 0 <= blocks <= 0xFF
      modifies this`components, this`hmax, this`vmax, this`mcu, this`mcuRow
      ensures Valid() && fresh(mcu) && fresh(mcuRow)
      ensures FrameSized(old(components), blocks, n)
    {
      var hm, vm := SamplingMaxima(components);
      hmax, vmax := hm as byte, vm as byte;
      if n == 1 {
        UnsampledOk(components);
        components := Unsampled(components);
        hmax, vmax := 1, 1;
      }
      mcu := Zeroed(McuLength(n, blocks));
      mcuRow := Zeroed(McuRowLength(width, hm, vm, mcu.Length));
    }

    /** The loop of read_frame_components (decoder.rs:340-359): n
        (id, hv, tq) triples, each inserted as a component, and the count
        of blocks in a u8. */
    method ReadTriples(n: byte) returns (r: Result<int>)
      requires Valid()
      modifies this`pos, this`components
      ensures Valid()
      ensures var s := FrameComponents(old(components), data, old(pos), n);
        (s.Err? ==> r == Err(s.error)) &&
        (s.Ok? ==> r == Ok(s.value.1) && components == s.value.0 && pos == old(pos) + 3 * n)
    {
      ghost var start, m0 := pos, components;
      var blocks := 0;
      var i: byte := 0;
      while i < n
        invariant i <= n && pos == start + 3 * i <= |data| && ComponentsOk(components)
        invariant components == InsertComponents(m0, data, start, i)
        invariant blocks == SumHV(HvBytes(data, start, i)) <= 0xFF
      {
        var triple := ReadTriple();
        if triple.Err? {
          FrameComponentsShort(m0, data, start, n, i as nat);
          return Err(IoError);
        }
        var (id, hv, tq) := triple.value;
        SumHVStep(data, start, i as nat);
        if blocks + HFactor(hv) * VFactor(hv) > 0xFF {
          FrameComponentsOverflow(m0, data, start, n, i as nat);
          return Err(Panic);
        }
        blocks := blocks + HFactor(hv) * VFactor(hv);
        PutOk(components, id as int, Component(id, HFactor(hv), VFactor(hv), tq, 0, 0, 0));
        components := components[id as int := Component(id, HFactor(hv), VFactor(hv), tq, 0, 0, 0)];
        assert components == InsertComponents(m0, data, start, i as nat + 1);
        i := i + 1;
      }
      FrameComponentsWhole(m0, data, start, n as nat);
      return Ok(blocks);
    }

    /** Three `read_u8` calls, the third byte read last. */
    method ReadTriple() returns (r: Result<(byte, byte, byte)>)
      requires pos <= |data|
      modifies this`pos
      ensures pos <= |data|
      ensures old(pos) + 3 <= |data| ==>
        r == Ok((data[old(pos)], data[old(pos) + 1], data[old(pos) + 2])) && pos == old(pos) + 3
      ensures old(pos) + 3 > |data| ==> r == Err(IoError)
    {
      var a :- ReadU8();
      var b :- ReadU8();
      var c :- ReadU8();
      return Ok((a, b, c));
    }

    /** The outcome of a scan header from p on the components m0, as
        ScanHeader computes it. */
    ghost predicate ScanRead(r: Result<()>, p: nat, m0: map<int, Component>)
      requires p <= |data|
      reads this`pos, this`components, this`scanComponents
    {
      var s := ScanHeader(m0, data, p);
      (s.Err? ==> r == Err(s.error)) &&
      (s.Ok? ==> r == Ok(()) && components == s.value.0 && scanComponents == s.value.1 && pos == s.value.2)
    }

    /** read_scan_header (decoder.rs:390-418): the count, the pairs, and
        three bytes not used, as ScanHeader computes. */
    method ReadScanHeader() returns (r: Result<()>)
      requires Valid()
      modifies this`pos, this`components, this`scanComponents
      ensures Valid() && ScanRead(r, old(pos), old(components))
      ensures r.Ok? ==> old(pos) <= pos
    {
      ghost var start, m0 := pos, components;
      var length := ReadU16();
      var count := ReadU8();
      if length.Err? || count.Err? {
        return Err(IoError);
      }
      var pairs := ReadScanPairs(count.value);
      if pairs.Err? {
        return pairs;
      }
      var tail := ReadTriple();
      ScanHeaderEnd(m0, data, start);
      if tail.Err? {
        return Err(IoError);
      }
      return Ok(());
    }

    /** The loop of read_scan_header (decoder.rs:397-407): n (id, tables)
        pairs from the current position, with the count of the segment
        just before it; each sets its component's table selectors, where
        an id the frame did not define is an `unwrap` of None, and is
        pushed onto the scan's ids. */
    method ReadScanPairs(n: byte) returns (r: Result<()>)
      requires Valid() && 3 <= pos && data[pos - 1] == n
      modifies this`pos, this`components, this`scanComponents
      ensures Valid()
      ensures r.Err? ==> ScanHeader(old(components), data, old(pos) - 3) == Err(r.error)
      ensures r.Ok? ==> pos == old(pos) + 2 * n && components == SetTables(old(components), data, old(pos), n)
      ensures r.Ok? ==> scanComponents == ScanIds(data, old(pos), n) && KnownIds(old(components), scanComponents)
    {
      ghost var start, m0 := pos, components;
      scanComponents := [];
      var i: byte := 0;
      while i < n
        invariant i <= n && pos == start + 2 * i <= |data| && ComponentsOk(components)
        invariant components == SetTables(m0, data, start, i)
        invariant scanComponents == ScanIds(data, start, i) && KnownIds(m0, scanComponents)
      {
        r := ReadScanPair(n, i, start, m0);
        if r.Err? {
          return;
        }
        i := i + 1;
      }
      return Ok(());
    }

    /** Pair i of the loop of read_scan_header (decoder.rs:398-406): its
        id must be one the frame defined, its component gets the table
        selectors, and the id joins the scan's ids. */
    method ReadScanPair(n: byte, i: byte, ghost start: nat, ghost m0: map<int, Component>)
      returns (r: Result<()>)
      requires Valid() && 3 <= start && pos == start + 2 * i <= |data| && data[start - 1] == n && i < n
      requires components == SetTables(m0, data, start, i)
      requires scanComponents == ScanIds(data, start, i) && KnownIds(m0, scanComponents)
      modifies this`pos, this`components, this`scanComponents
      ensures Valid()
      ensures r.Err? ==> ScanHeader(m0, data, start - 3) == Err(r.error)
      ensures r.Ok? ==> pos == start + 2 * (i + 1) && components == SetTables(m0, data, start, i + 1)
      ensures r.Ok? ==> scanComponents == ScanIds(data, start, i + 1) && KnownIds(m0, scanComponents)
    {
      var pair := ReadPair();
      if pair.Err? {
        ScanHeaderShort(m0, data, start - 3, i as nat);
        return Err(IoError);
      }
      var (id, tables) := pair.value;
      if id as int !in components {
        ScanHeaderUnknownId(m0, data, start - 3, i as nat);
        return Err(Panic);
      }
      SelectorsOk(components, id as int, tables);
      components := components[id as int := components[id as int].(dcTable := tables / 16, acTable := tables % 16)];
      scanComponents := scanComponents + [id];
      ScanIdsStep(data, start, i as nat);
      return Ok(());
    }

    /** Two `read_u8` calls. */
    method ReadPair() returns (r: Result<(byte, byte)>)
      requires pos <= |data|
      modifies this`pos
      ensures pos <= |data|
      ensures old(pos) + 2 <= |data| ==> r == Ok((data[old(pos)], data[old(pos) + 1])) && pos == old(pos) + 2
      ensures old(pos) + 2 > |data| ==> r == Err(IoError)
    {
      var a :- ReadU8();
      var b :- ReadU8();
      return Ok((a, b));
    }

    /** The outcome of an APPn or COM segment from p, as SkipSegment
        computes it. */
    ghost predicate SkipRead(r: Result<()>, p: nat)
      requires p <= |data|
      reads this`pos
    {
      var s := SkipSegment(data, p);
      (s.Err? ==> r == Err(s.error)) && (s.Ok? ==> r == Ok(()) && pos == s.value)
    }

    /** An APPn or COM segment (decoder.rs:293-296): its length, then the
        payload passed over. */
    method SkipPayload() returns (r: Result<()>)
      requires Valid()
      modifies this`pos
      ensures Valid() && SkipRead(r, old(pos))
      ensures r.Ok? ==> old(pos) <= pos
    {
      var length :- ReadU16();
      if length < 2 {
        return Err(Panic);
      }
      var payload := TakeBytes(length - 2);
      return Ok(());
    }

    /** The outcome of a DRI segment from p: the second u16 is the
        interval. */
    ghost predicate IntervalRead(r: Result<()>, p: nat)
      reads this`pos, this`interval
    {
      (p + 4 <= |data| ==> r == Ok(()) && interval == U16At(data, p + 2) && pos == p + 4) &&
      (p + 4 > |data| ==> r == Err(IoError))
    }

    /** The outcome of read_restart from input position p, cached marker
        mk, components m0, expected marker e0 and bit state b0, n0, end0:
        the MCU count of the frame, as the code computes it, panics when a
        factor is 0 or too large or `width + 7` or `height + 7` overflows;
        when no marker is due nothing changes; when one is due, the marker
        found must be e0, and then the bit state and predictors are reset
        and the next RSTm is expected. */
    ghost predicate RestartRead(r: Result<()>, p: nat, mk: byte, m0: map<int, Component>, e0: byte,
                                b0: u32, n0: byte, end0: bool)
      requires p <= |data| && IsRst(e0)
      reads this`width, this`height, this`hmax, this`vmax, this`interval, this`mcucount
      reads this`pos, this`marker, this`components, this`expectedRst, this`bits, this`numBits, this`atEnd
    {
      var total := McuCountAsWritten(width, height, hmax, vmax);
      var found := FoundMarker(data, p, mk);
      (total.Err? ==> r == Err(Panic)) &&
      (total.Ok? && !RestartDue(interval, mcucount, total.value) ==>
         r == Ok(()) && pos == p && marker == mk && components == m0 &&
         expectedRst == e0 && bits == b0 && numBits == n0 && atEnd == end0) &&
      (total.Ok? && RestartDue(interval, mcucount, total.value) ==>
         (found.Err? ==> r == Err(found.error)) &&
         (found.Ok? && found.value.0 != e0 ==> r == Err(FormatError)) &&
         (found.Ok? && found.value.0 == e0 ==>
            r == Ok(()) && pos == found.value.1 && expectedRst == NextRst(e0) &&
            bits == 0 && numBits == 0 && !atEnd && marker == 0 &&
            components == ZeroPredictors(m0)))
    }

    /** read_restart_interval (decoder.rs:481-486): a length (not used)
        and the interval. */
    method ReadRestartInterval() returns (r: Result<()>)
      requires Valid()
      modifies this`pos, this`interval
      ensures Valid() && IntervalRead(r, old(pos))
      ensures r.Ok? ==> old(pos) <= pos
    {
      var length :- ReadU16();
      var n :- ReadU16();
      interval := n;
      return Ok(());
    }

    // -------------------------------------------------------------------
    // Restarts

    /** find_restart_marker (decoder.rs:515-538): the cached marker,
        cleared, or the next RSTm of the input, as FoundMarker finds it. */
    method FindRestartMarker() returns (r: Result<byte>)
      requires pos <= |data|
      modifies this`pos, this`marker
      ensures pos <= |data| && marker == 0
      ensures var s := FoundMarker(data, old(pos), old(marker));
        (s.Err? ==> r == Err(s.error)) && (s.Ok? ==> r == Ok(s.value.0) && pos == s.value.1)
    {
      if marker != 0 {
        var m := marker;
        marker := 0;
        return Ok(m);
      }
      while true
        invariant pos <= |data| && marker == 0 && ScanRst(data, pos) == ScanRst(data, old(pos))
        decreases |data| - pos
      {
        var b :- ReadU8();
        if b == 0xFF {
          var m :- ReadU8();
          if IsRst(m) {
            return Ok(m);
          }
          if m == EOI {
            return Err(FormatError);
          }
        }
      }
    }

    /** reset (decoder.rs:540-549): the Huffman decoder's bit state and
        cached marker cleared and every DC predictor set to 0. */
    method Reset()
      requires Valid()
      modifies this`bits, this`numBits, this`atEnd, this`marker, this`components
      ensures Valid()
      ensures bits == 0 && numBits == 0 && !atEnd && marker == 0
      ensures components == ZeroPredictors(old(components))
    {
      bits, numBits, atEnd, marker := 0, 0, false, 0;
      components := ZeroPredictors(components);
    }

    /** read_restart (decoder.rs:488-513): when a marker is due after
        this many MCUs, the next one must be the expected RSTm; it resets
        the decoding state and moves the expected marker on. The number of
        MCUs is McuCountAsWritten, the floor divisions of the code, which
        undercount with subsampling (see McuCountAsWrittenUndercounts). */
    method ReadRestart() returns (r: Result<()>)
      requires Valid()
      modifies this`pos, this`marker, this`bits, this`numBits, this`atEnd, this`components, this`expectedRst
      ensures Valid()
      ensures RestartRead(r, old(pos), old(marker), old(components), old(expectedRst), old(bits), old(numBits), old(atEnd))
    {
      var total := McuCountAsWritten(width, height, hmax, vmax);
      if total.Err? {
        return Err(Panic);
      }
      if RestartDue(interval, mcucount, total.value) {
        var rst := FindRestartMarker();
        if rst.Err? {
          return Err(rst.error);
        }
        if rst.value == expectedRst {
          Reset();
          NextRstCounts(expectedRst);
          expectedRst := NextRst(expectedRst);
        } else {
          return Err(FormatError);
        }
      }
      return Ok(());
    }

    // -------------------------------------------------------------------
    // Decoding an MCU

    /** decode_block (decoder.rs:213-266) for slot i of the MCU buffer:
        the slot and the tables are indexed first, then the block's codes
        are decoded from the supply and its samples stored in the slot, as
        DecodeBlockAt computes; `bs` are the blocks the slots before i
        hold, and the slots after it are left as they were. */
    method DecodeBlock(i: nat, dc: int, pred: int, ac: int, q: int, ghost bs: seq<Block>) returns (r: Result<int>)
      requires Valid() && IsI32(pred)
      requires |bs| == i && McuBuffer.Holds(mcu[..], bs, BlockSamples)
      modifies this`codePos, mcu
      ensures Valid()
      ensures var b := DecodeBlockAt(codes, old(codePos), i, dc, pred, ac, q, mcu.Length, qtables[..]);
        (b.Err? ==> r == Err(b.error)) &&
        (b.Ok? ==> r == Ok(b.value.dc) && codePos == old(codePos) + b.value.used &&
                   McuBuffer.Holds(mcu[..], bs + [b.value], BlockSamples) &&
                   mcu[64 * i + 64..] == old(mcu[64 * i + 64..]))
    {
      if 64 * i + 64 > mcu.Length || !(0 <= dc < 2) || !(0 <= ac < 2) || !(0 <= q < 4) {
        return Err(Panic);
      }
      var block :- DecodeBlockCoefficients(codes[codePos..], pred, qtables[64 * q .. 64 * q + 64]);
      assert block == DecodeBlockAt(codes, codePos, i, dc, pred, ac, q, mcu.Length, qtables[..]).value;
      codePos := codePos + block.used;
      McuBuffer.StoreBlock(mcu, i, bs, block);
      return Ok(block.dc);
    }

    /** One pass of the inner loop of decode_mcu (decoder.rs:201-203):
        block i, the first of the n blocks of component c still to
        decode; on success the rest of NextBlocks goes on from the next
        code with the new predictor. */
    method DecodeNextBlock(c: Component, n: nat, i: nat, ghost acc: seq<Block>)
      returns (r: Result<int>, ghost bs: seq<Block>)
      requires Valid() && IsI32(c.dcPred) && n > 0 && i == |acc| && McuBuffer.Holds(mcu[..], acc, BlockSamples)
      modifies this`codePos, mcu
      ensures Valid()
      ensures r.Err? ==> NextBlocks(codes, old(codePos), c, n, mcu.Length, qtables[..], acc) == Err(r.error)
      ensures r.Ok? ==> IsI32(r.value) && |bs| == i + 1 && McuBuffer.Holds(mcu[..], bs, BlockSamples)
      ensures r.Ok? ==>
        NextBlocks(codes, old(codePos), c, n, mcu.Length, qtables[..], acc) ==
        BlocksFrom(codes, codePos, c.(dcPred := r.value), n - 1, mcu.Length, qtables[..], bs)
    {
      ghost var b := DecodeBlockAt(codes, codePos, i, c.dcTable, c.dcPred, c.acTable, c.tq,
                                   mcu.Length, qtables[..]);
      r := DecodeBlock(i, c.dcTable, c.dcPred, c.acTable, c.tq, acc);
      bs := if r.Ok? then acc + [b.value] else acc;
    }

    /** The inner loop of decode_mcu (decoder.rs:200-204): the h * v
        blocks of component c from slot i on, after the blocks `acc` the
        slots before it hold, each with the DC value of the one before as
        its predictor, as BlocksFrom computes; the component comes back
        with its new predictor. */
    method DecodeComponentBlocks(c: Component, i: nat, ghost acc: seq<Block>)
      returns (r: Result<Component>, ghost goal: Result<(Component, nat, seq<Block>)>)
      requires Valid() && ComponentOk(c) && i == |acc| && McuBuffer.Holds(mcu[..], acc, BlockSamples)
      modifies this`codePos, mcu
      ensures Valid()
      ensures goal == BlocksFrom(codes, old(codePos), c, BlockCount(c), mcu.Length, qtables[..], acc)
      ensures goal.Err? ==> r == Err(goal.error)
      ensures goal.Ok? ==> r == Ok(goal.value.0) && codePos == goal.value.1 &&
                           McuBuffer.Holds(mcu[..], goal.value.2, BlockSamples)
    {
      var n := BlockCount(c);
      var cur := c;
      var k := 0;
      ghost var bs := acc;
      goal := BlocksFrom(codes, codePos, c, n, mcu.Length, qtables[..], acc);
      while k < n
        invariant Valid() && k <= n && IsI32(cur.dcPred) && |bs| == i + k
        invariant McuBuffer.Holds(mcu[..], bs, BlockSamples)
        invariant BlocksFrom(codes, codePos, cur, n - k, mcu.Length, qtables[..], bs) == goal
      {
        var pred;
        pred, bs := DecodeNextBlock(cur, n - k, i + k, bs);
        if pred.Err? {
          return Err(pred.error), goal;
        }
        cur := cur.(dcPred := pred.value);
        k := k + 1;
      }
      r := Ok(cur);
    }

    /** The loop of decode_mcu over the scan's component ids
        (decoder.rs:197-207), on a copy of the id list: an id the frame
        did not define panics; otherwise its blocks are decoded and the
        component is put back with its new predictor. The buffer's slots
        then hold the samples of the blocks McuFrom yields. */
    method DecodeMcuBlocks() returns (r: Result<()>, ghost bs: seq<Block>)
      requires Valid()
      modifies this`codePos, this`components, mcu
      ensures Valid()
      ensures var m := McuFrom(codes, old(codePos), scanComponents, 0, old(components), mcu.Length, qtables[..], []);
        (m.Err? ==> r == Err(m.error)) &&
        (m.Ok? ==> r == Ok(()) && components == m.value.0 && codePos == m.value.1 && bs == m.value.2 &&
                   McuBuffer.Holds(mcu[..], bs, BlockSamples))
    {
      var tmp := scanComponents;
      var i := 0;
      var s := 0;
      bs := [];
      while s < |tmp|
        invariant Valid() && s <= |tmp| && i == |bs| && McuBuffer.Holds(mcu[..], bs, BlockSamples)
        invariant McuFrom(codes, codePos, tmp, s, components, mcu.Length, qtables[..], bs) ==
                  McuFrom(codes, old(codePos), tmp, 0, old(components), mcu.Length, qtables[..], [])
      {
        var done;
        done, i, bs := DecodeScanComponent(tmp, s, i, bs);
        if done.Err? {
          return done, bs;
        }
        s := s + 1;
      }
      r := Ok(());
    }

    /** One iteration of decode_mcu's loop (decoder.rs:198-206): the s-th
        id of the scan must name a frame component, whose blocks then
        follow `acc` in the buffer; the rest of the MCU is McuFrom from the
        next id. */
    method DecodeScanComponent(scan: seq<byte>, s: nat, i: nat, ghost acc: seq<Block>)
      returns (r: Result<()>, next: nat, ghost bs: seq<Block>)
      requires Valid() && s < |scan| && i == |acc| && McuBuffer.Holds(mcu[..], acc, BlockSamples)
      modifies this`codePos, this`components, mcu
      ensures Valid()
      ensures r.Err? ==>
        McuFrom(codes, old(codePos), scan, s, old(components), mcu.Length, qtables[..], acc) == Err(r.error)
      ensures r.Ok? ==> next == |bs| && McuBuffer.Holds(mcu[..], bs, BlockSamples)
      ensures r.Ok? ==>
        McuFrom(codes, codePos, scan, s + 1, components, mcu.Length, qtables[..], bs) ==
        McuFrom(codes, old(codePos), scan, s, old(components), mcu.Length, qtables[..], acc)
    {
      var id := scan[s] as int;
      if id !in components {
        return Err(Panic), i, acc;
      }
      var c := components[id];
      var done;
      ghost var g;
      done, g := DecodeComponentBlocks(c, i, acc);
      if done.Err? {
        return Err(done.error), i, acc;
      }
      bs := g.value.2;
      PutOk(components, id, done.value);
      components := components[id := done.value];
      r, next := Ok(()), i + BlockCount(c);
    }

    /** decode_mcu (decoder.rs:193-211): the blocks of the MCU, then one
        more MCU counted (a u32 add, which panics past the top) and
        read_restart with the new count. */
    method DecodeMcu() returns (r: Result<()>, ghost bs: seq<Block>)
      requires Valid()
      modifies this`codePos, this`components, mcu, this`mcucount
      modifies this`pos, this`marker, this`bits, this`numBits, this`atEnd, this`expectedRst
      ensures Valid()
      ensures var m := McuFrom(codes, old(codePos), scanComponents, 0, old(components), mcu.Length, qtables[..], []);
        (m.Err? ==> r == Err(m.error)) &&
        (m.Ok? && old(mcucount) == 0xFFFF_FFFF ==> r == Err(Panic)) &&
        (m.Ok? && old(mcucount) < 0xFFFF_FFFF ==>
           mcucount == old(mcucount) + 1 && codePos == m.value.1 && bs == m.value.2 &&
           McuBuffer.Holds(mcu[..], bs, BlockSamples) &&
           RestartRead(r, old(pos), old(marker), m.value.0, old(expectedRst), old(bits), old(numBits), old(atEnd)))
    {
      var done;
      done, bs := DecodeMcuBlocks();
      if done.Err? {
        return done, bs;
      }
      if mcucount == 0xFFFF_FFFF {
        return Err(Panic), bs;
      }
      mcucount := mcucount + 1;
      r := ReadRestart();
    }
  }
}
