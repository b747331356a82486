// Facts about the MCU decoding of module Mcu: one step of each recursion,
// the slots of the MCU buffer, and what an MCU changes in the component
// table.
module McuFacts {
  import opened Base
  import opened Coefficients
  import opened Segments
  import opened Mcu

  /** Decoding an MCU changes nothing of the components but their DC
      predictors: the map keeps its ids, and a component the scan does
      not name keeps its predictor too. */
  lemma {:induction false} McuChangesOnlyPredictors(codes: seq<Coded>, cp: nat, scan: seq<byte>, s: nat,
                                                   comps: map<int, Component>, mcuLen: nat, qt: seq<byte>,
                                                   acc: seq<Block>)
    requires cp <= |codes| && s <= |scan| && ComponentsOk(comps) && |qt| == 256
    requires McuFrom(codes, cp, scan, s, comps, mcuLen, qt, acc).Ok?
    ensures var m := McuFrom(codes, cp, scan, s, comps, mcuLen, qt, acc).value.0;
      m.Keys == comps.Keys &&
      (forall k | k in m :: m[k] == comps[k].(dcPred := m[k].dcPred)) &&
      (forall k | k in m && k !in scan[s..] :: m[k] == comps[k])
    decreases |scan| - s
  {
    if s < |scan| {
      var c := comps[scan[s]];
      var b := BlocksFrom(codes, cp, c, BlockCount(c), mcuLen, qt, acc).value;
      var comps' := comps[scan[s] as int := b.0];
      McuChangesOnlyPredictors(codes, b.1, scan, s + 1, comps', mcuLen, qt, b.2);
      assert scan[s..] == [scan[s]] + scan[s + 1..];
    }
  }


  /** Component c with predictor p. */
  function WithPredictor(c: Component, p: int): Component
  {
    c.(dcPred := p)
  }

  /** One block of a component, into the first slot of a 64-byte MCU. */
  lemma SingleBlock(codes: seq<Coded>, cp: nat, c: Component, qt: seq<byte>)
    requires cp <= |codes| && ComponentOk(c) && |qt| == 256
    ensures var d := DecodeBlockAt(codes, cp, 0, c.dcTable, c.dcPred, c.acTable, c.tq, 64, qt);
      BlocksFrom(codes, cp, c, 1, 64, qt, []) ==
        if d.Err? then Err(d.error) else Ok((WithPredictor(c, d.value.dc), cp + d.value.used, [d.value]))
  {
    var d := DecodeBlockAt(codes, cp, 0, c.dcTable, c.dcPred, c.acTable, c.tq, 64, qt);
    if d.Ok? {
      var c' := WithPredictor(c, d.value.dc);
      var cp': nat := cp + d.value.used;
      var none: seq<Block> := [];
      assert none + [d.value] == [d.value];
      assert DecodeBlockAt(codes, cp, |none|, c.dcTable, c.dcPred, c.acTable, c.tq, 64, qt) == d;
      assert BlocksFrom(codes, cp, c, 1, 64, qt, none) == BlocksFrom(codes, cp', c', 0, 64, qt, none + [d.value]);
    }
  }

  /** A grayscale MCU is one block: it is decoded with the component's
      predictor and tables, and its DC value becomes the predictor. */
  lemma GrayscaleMcu(codes: seq<Coded>, cp: nat, id: byte, comps: map<int, Component>, qt: seq<byte>)
    returns (b: Result<Block>)
    requires cp <= |codes| && ComponentsOk(comps) && |qt| == 256
    requires id as int in comps && comps[id].h == 1 && comps[id].v == 1
    requires comps[id].dcTable < 2 && comps[id].acTable < 2 && comps[id].tq < 4
    ensures b == DecodeBlockSpec(codes[cp..], comps[id].dcPred, Slot(qt, comps[id].tq))
    ensures McuFrom(codes, cp, [id], 0, comps, 64, qt, []) ==
      if b.Err? then Err(b.error) else Ok((comps[id as int := WithPredictor(comps[id], b.value.dc)], cp + b.value.used, [b.value]))
  {
    var c := comps[id];
    FirstSlot(codes, cp, c, qt);
    SingleBlock(codes, cp, c, qt);
    McuOfOneId(codes, cp, id, comps, qt);
    b := DecodeBlockSpec(codes[cp..], c.dcPred, Slot(qt, c.tq));
    ChainOneBlock(McuFrom(codes, cp, [id], 0, comps, 64, qt, []), BlocksFrom(codes, cp, c, 1, 64, qt, []),
                  b, comps, id as int, c, cp);
  }

  /** The three steps of GrayscaleMcu put together, over plain values. */
  lemma ChainOneBlock(r: Result<(map<int, Component>, nat, seq<Block>)>, x: Result<(Component, nat, seq<Block>)>,
                      d: Result<Block>, comps: map<int, Component>, id: int, c: Component, cp: nat)
    requires r == if x.Err? then Err(x.error) else Ok((comps[id := x.value.0], x.value.1, x.value.2))
    requires x == if d.Err? then Err(d.error) else Ok((WithPredictor(c, d.value.dc), cp + d.value.used, [d.value]))
    ensures r == if d.Err? then Err(d.error) else Ok((comps[id := WithPredictor(c, d.value.dc)], cp + d.value.used, [d.value]))
  {
  }

  /** With its selectors in range, a component's block fits the first slot
      of a 64-byte MCU, and it is the only block of an unsampled one. */
  lemma FirstSlot(codes: seq<Coded>, cp: nat, c: Component, qt: seq<byte>)
    requires cp <= |codes| && ComponentOk(c) && |qt| == 256
    requires c.h == 1 && c.v == 1 && c.dcTable < 2 && c.acTable < 2 && c.tq < 4
    ensures BlockCount(c) == 1
    ensures DecodeBlockAt(codes, cp, 0, c.dcTable, c.dcPred, c.acTable, c.tq, 64, qt)
         == DecodeBlockSpec(codes[cp..], c.dcPred, Slot(qt, c.tq))
  {
  }

  /** A scan of one id is that component's blocks, with the component put
      back. */
  lemma McuOfOneId(codes: seq<Coded>, cp: nat, id: byte, comps: map<int, Component>, qt: seq<byte>)
    requires cp <= |codes| && ComponentsOk(comps) && |qt| == 256 && id as int in comps
    ensures var c := comps[id];
      var b := BlocksFrom(codes, cp, c, BlockCount(c), 64, qt, []);
      McuFrom(codes, cp, [id], 0, comps, 64, qt, []) ==
        if b.Err? then Err(b.error) else Ok((comps[id as int := b.value.0], b.value.1, b.value.2))
  {
    var c := comps[id];
    var b := BlocksFrom(codes, cp, c, BlockCount(c), 64, qt, []);
    if b.Ok? {
      assert McuFrom(codes, cp, [id], 0, comps, 64, qt, []) ==
             McuFrom(codes, b.value.1, [id], 1, comps[id as int := b.value.0], 64, qt, b.value.2);
    }
  }
}

// The MCU buffer as `idct` fills it, slot by slot.
module McuBuffer {
  import opened Base
  import opened Coefficients
  import opened Mcu
  import Transform

  /** The i-th 64-byte slot of an MCU buffer. */
  function Slot(buf: seq<byte>, i: nat): (s: seq<byte>)
    requires 64 * i + 64 <= |buf|
    ensures |s| == 64
  {
    buf[64 * i .. 64 * i + 64]
  }

  /** Slot j of `buf` holds the transform f of block j of `bs`, for every
      block; with f = BlockSamples this is the buffer `decode_mcu` leaves
      (decoder.rs:264). */
  ghost predicate Holds(buf: seq<byte>, bs: seq<Block>, f: seq<int> --> seq<byte>)
  {
    64 * |bs| <= |buf| &&
    forall j: nat {:trigger Slot(buf, j)} | j < |bs| ::
      f.requires(bs[j].coeffs) && Slot(buf, j) == f(bs[j].coeffs)
  }

  /** Writing the transform of one more block into the next slot keeps
      the slots before it and every byte after it. */
  lemma HoldsStep(buf: seq<byte>, bs: seq<Block>, b: Block, f: seq<int> --> seq<byte>, off: nat,
                  out: seq<byte>)
    requires Holds(buf, bs, f) && off == 64 * |bs| && Transform.Stored(buf, out, off, f, b.coeffs)
    ensures Holds(out, bs + [b], f)
    ensures out[off + 64..] == buf[off + 64..]
  {
    var k := |bs|;
    var s := f(b.coeffs);
    forall j: nat | j < k + 1
      ensures f.requires((bs + [b])[j].coeffs) && Slot(out, j) == f((bs + [b])[j].coeffs)
    {
      if j < k {
        assert Slot(out, j) == buf[..off][64 * j .. 64 * j + 64];
        assert f.requires(bs[j].coeffs) && Slot(buf, j) == f(bs[j].coeffs);
      } else {
        assert Slot(out, j) == s;
      }
    }
  }

  /** What `idct` stores for the rows of a block is its BlockSamples. */
  lemma StoredBlock(before: seq<byte>, after: seq<byte>, off: nat, c: seq<int>)
    requires |c| == 64 && AllI16(c) && Transform.Stored(before, after, off, Transform.IdctSamples, BlockRows(c))
    ensures Transform.Stored(before, after, off, BlockSamples, c)
  {
  }

  /** `transform::idct(&tmp, zz)` (decoder.rs:264) with `zz` slot i,
      the one after the blocks `bs`: the samples of block b go into that
      slot, and nothing after it changes. */
  method StoreBlock(buf: array<byte>, i: nat, ghost bs: seq<Block>, b: Block)
    requires Decoded(b) && i == |bs| && 64 * i + 64 <= buf.Length && Holds(buf[..], bs, BlockSamples)
    modifies buf
    ensures Holds(buf[..], bs + [b], BlockSamples)
    ensures buf[64 * i + 64..] == old(buf[64 * i + 64..])
  {
    var off := 64 * i;
    var rows := BlockRows(b.coeffs);
    ghost var before := buf[..];
    Transform.Idct(rows, buf, off);
    StoredBlock(before, buf[..], off, b.coeffs);
    HoldsStep(before, bs, b, BlockSamples, off, buf[..]);
  }
}
