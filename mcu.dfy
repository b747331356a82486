// Decoding one MCU (src/jpeg/decoder.rs:193-267): the blocks of each
// component of the scan, in order, each with its component's tables and
// running DC predictor, inverse transformed into its 64-byte slot of the
// MCU buffer. These functions are what the methods `DecodeBlock` and
// `DecodeMcuBlocks` of the decoder class are proved to compute.
module Mcu {
  import opened Base
  import opened Coefficients
  import opened Segments
  import Transform

  /** The bounds a component's fields keep: sampling factors and table
      selectors are nibbles, the predictor an i32. */
  predicate ComponentOk(c: Component)
  {
    0 <= c.h <= 15 && 0 <= c.v <= 15 && 0 <= c.dcTable <= 15 && 0 <= c.acTable <= 15 &&
    IsI32(c.dcPred)
  }

  predicate ComponentsOk(m: map<int, Component>)
  {
    forall k | k in m :: ComponentOk(m[k])
  }

  /** The 64 coefficients as the eight i16x8 rows `idct` takes
      (decoder.rs:214-219 reads the same 64 i16 both ways). */
  function BlockRows(c: seq<int>): (m: seq<seq<int>>)
    requires |c| == 64 && AllI16(c)
    ensures Transform.IsBlock16(m)
    ensures forall r, x | 0 <= r < 8 && 0 <= x < 8 :: m[r][x] == c[8 * r + x]
  {
    seq(8, r requires 0 <= r < 8 => c[8 * r .. 8 * r + 8])
  }

  /** The 64 samples `idct` stores for a block of coefficients. */
  function BlockSamples(c: seq<int>): (s: seq<byte>)
    requires |c| == 64 && AllI16(c)
    ensures |s| == 64
  {
    Transform.IdctSamples(BlockRows(c))
  }

  /** `buf` with its i-th 64-byte slot replaced by `s`. */
  function WriteSlot(buf: seq<byte>, i: nat, s: seq<byte>): (r: seq<byte>)
    requires 64 * i + 64 <= |buf| && |s| == 64
    ensures |r| == |buf|
  {
    buf[..64 * i] + s + buf[64 * i + 64..]
  }

  /** Slot i holds `s` and every other byte is as it was. */
  lemma WriteSlotAt(buf: seq<byte>, i: nat, s: seq<byte>)
    requires 64 * i + 64 <= |buf| && |s| == 64
    ensures forall j | 0 <= j < |buf| ::
      WriteSlot(buf, i, s)[j] == if 64 * i <= j < 64 * i + 64 then s[j - 64 * i] else buf[j]
  {
  }

  /** A decoded block the IDCT can take: 64 i16 coefficients, at least
      one code used. */
  predicate Decoded(b: Block)
  {
    |b.coeffs| == 64 && AllI16(b.coeffs) && b.used >= 1
  }

  /** Every block from position k on is decoded. */
  predicate DecodedFrom(bs: seq<Block>, k: nat)
  {
    forall j | k <= j < |bs| :: Decoded(bs[j])
  }

  /** The number of blocks a component has in an MCU: `c.h * c.v`. */
  function BlockCount(c: Component): nat
    requires ComponentOk(c)
  {
    Product(c.h, c.v)
  }

  function Product(a: nat, b: nat): nat
  {
    a * b
  }

  /** decode_block (decoder.rs:213-262) for slot i of an MCU buffer of
      mcuLen bytes, with the block's codes from position cp of the supply:
      the slot, the DC and AC table and the quantization table are indexed
      first, and each panics out of bounds; then the coefficients are
      decoded. */
  function DecodeBlockAt(codes: seq<Coded>, cp: nat, i: nat, dc: int, pred: int, ac: int, q: int,
                         mcuLen: nat, qt: seq<byte>): (r: Result<Block>)
    requires cp <= |codes| && IsI32(pred) && |qt| == 256
    ensures r.Ok? ==> Decoded(r.value) && IsI32(r.value.dc) && cp + r.value.used <= |codes|
    ensures r.Ok? ==> 64 * i + 64 <= mcuLen && 0 <= dc < 2 && 0 <= ac < 2 && 0 <= q < 4
    ensures r.Err? ==> r.error == Panic || r.error == IoError
  {
    if 64 * i + 64 > mcuLen || !(0 <= dc < 2) || !(0 <= ac < 2) || !(0 <= q < 4) then Err(Panic)
    else DecodeBlockSpec(codes[cp..], pred, Slot(qt, q))
  }

  /** The inner loop of decode_mcu (decoder.rs:200-204): n blocks of
      component c, after the blocks `acc` the MCU already holds, each
      decoded into the next slot with the DC value of the one before as its
      predictor. Returns the component with its new predictor, the code
      position and the blocks of the MCU so far. */
  function BlocksFrom(codes: seq<Coded>, cp: nat, c: Component, n: nat, mcuLen: nat, qt: seq<byte>,
                      acc: seq<Block>): (r: Result<(Component, nat, seq<Block>)>)
    requires cp <= |codes| && IsI32(c.dcPred) && |qt| == 256
    ensures r.Ok? ==> r.value.0 == c.(dcPred := r.value.0.dcPred) && IsI32(r.value.0.dcPred)
    ensures r.Ok? ==> cp <= r.value.1 <= |codes| && |r.value.2| == |acc| + n
    ensures r.Ok? ==> acc <= r.value.2 && DecodedFrom(r.value.2, |acc|)
    ensures r.Ok? && n > 0 ==> 64 * |r.value.2| <= mcuLen
    ensures r.Ok? ==> r.value.0.dcPred == LastDc(r.value.2, |acc|, c.dcPred)
    ensures r.Err? ==> r.error == Panic || r.error == IoError
    decreases n, 1
  {
    if n == 0 then Ok((c, cp, acc)) else NextBlocks(codes, cp, c, n, mcuLen, qt, acc)
  }

  /** BlocksFrom with at least one block to go: the next block into slot
      |acc|, then the rest with its DC value as the predictor. */
  function NextBlocks(codes: seq<Coded>, cp: nat, c: Component, n: nat, mcuLen: nat, qt: seq<byte>,
                      acc: seq<Block>): (r: Result<(Component, nat, seq<Block>)>)
    requires cp <= |codes| && IsI32(c.dcPred) && |qt| == 256 && n > 0
    ensures r.Ok? ==> r.value.0 == c.(dcPred := r.value.0.dcPred) && IsI32(r.value.0.dcPred)
    ensures r.Ok? ==> cp <= r.value.1 <= |codes| && |r.value.2| == |acc| + n
    ensures r.Ok? ==> acc <= r.value.2 && DecodedFrom(r.value.2, |acc|)
    ensures r.Ok? ==> 64 * |r.value.2| <= mcuLen
    ensures r.Ok? ==> r.value.0.dcPred == LastDc(r.value.2, |acc|, c.dcPred)
    ensures r.Err? ==> r.error == Panic || r.error == IoError
    decreases n, 0
  {
    var b := DecodeBlockAt(codes, cp, |acc|, c.dcTable, c.dcPred, c.acTable, c.tq, mcuLen, qt);
    if b.Err? then Err(b.error)
    else
      assert acc <= acc + [b.value];
      BlocksFrom(codes, cp + b.value.used, c.(dcPred := b.value.dc), n - 1, mcuLen, qt, acc + [b.value])
  }

  /** The DC value of the last block of `bs` past its first k, or d when
      there is none. */
  function LastDc(bs: seq<Block>, k: nat, d: int): int
  {
    if |bs| > k then bs[|bs| - 1].dc else d
  }

  /** decode_mcu (decoder.rs:193-211) from the s-th id of the scan, with
      the blocks `acc` decoded so far: an id the frame did not define is an
      `unwrap` of None; otherwise its component's h * v blocks are decoded
      and the component, with its new predictor, is put back. Returns the
      components, the code position and the blocks of the MCU in slot
      order. */
  function McuFrom(codes: seq<Coded>, cp: nat, scan: seq<byte>, s: nat, comps: map<int, Component>,
                   mcuLen: nat, qt: seq<byte>, acc: seq<Block>): (r: Result<(map<int, Component>, nat, seq<Block>)>)
    requires cp <= |codes| && s <= |scan| && ComponentsOk(comps) && |qt| == 256
    ensures r.Ok? ==> ComponentsOk(r.value.0) && cp <= r.value.1 <= |codes|
    ensures r.Ok? ==> acc <= r.value.2 && DecodedFrom(r.value.2, |acc|)
    ensures r.Ok? && |r.value.2| > |acc| ==> 64 * |r.value.2| <= mcuLen
    ensures r.Err? ==> r.error == Panic || r.error == IoError
    decreases |scan| - s
  {
    if s == |scan| then Ok((comps, cp, acc))
    else if scan[s] as int !in comps then Err(Panic)
    else
      var c := comps[scan[s]];
      var b :- BlocksFrom(codes, cp, c, BlockCount(c), mcuLen, qt, acc);
      McuFrom(codes, b.1, scan, s + 1, comps[scan[s] as int := b.0], mcuLen, qt, b.2)
  }
}
