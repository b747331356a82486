// The marker codes the decoder knows (decoder.rs:61-89, a subset of Table
// B.1 of ITU-T T.81), the dispatch `read_metadata` makes on them, and the
// cycle of expected restart markers.
module Markers {
  import opened Base

  const SOF0: byte := 0xC0
  const SOF2: byte := 0xC2
  const DHT: byte := 0xC4
  const RST0: byte := 0xD0
  const RST7: byte := 0xD7
  const SOI: byte := 0xD8
  const EOI: byte := 0xD9
  const SOS: byte := 0xDA
  const DQT: byte := 0xDB
  const DNL: byte := 0xDC
  const DRI: byte := 0xDD
  const APP0: byte := 0xE0
  const APPF: byte := 0xEF
  const COM: byte := 0xFE
  const TEM: byte := 0x01

  /** What `read_metadata` does with the marker following an 0xFF byte. */
  datatype Action =
    | StartOfImage        // SOI: the state becomes HaveSOI
    | HuffmanTables       // DHT: read_huffman_tables
    | QuantizationTables  // DQT: read_quantization_tables
    | Frame               // SOF0: read_frame_header, then HaveFirstFrame
    | Scan                // SOS: read_scan_header, then HaveFirstScan
    | RestartInterval     // DRI: read_restart_interval
    | Skip                // APPn and COM: a length, then length - 2 bytes skipped
    | Ignore              // TEM
    | Unsupported         // SOF2 and DNL: UnsupportedError
    | Unknown             // every other marker: FormatError

  /** The match of read_metadata (decoder.rs:279-301), arm by arm. */
  function Dispatch(m: byte): Action
  {
    if m == SOI then StartOfImage
    else if m == DHT then HuffmanTables
    else if m == DQT then QuantizationTables
    else if m == SOF0 then Frame
    else if m == SOS then Scan
    else if m == DRI then RestartInterval
    else if APP0 <= m <= APPF || m == COM then Skip
    else if m == TEM then Ignore
    else if m == SOF2 || m == DNL then Unsupported
    else Unknown
  }

  /** The markers read_metadata accepts without an error. */
  predicate Accepted(m: byte)
  {
    m in {SOI, DHT, DQT, SOF0, SOS, DRI, COM, TEM} || APP0 <= m <= APPF
  }

  /** Exactly the accepted markers are dispatched to something other than
      an error; SOF2 and DNL are the only ones refused as unsupported. */
  lemma DispatchAcceptsExactly(m: byte)
    ensures Dispatch(m) != Unsupported && Dispatch(m) != Unknown <==> Accepted(m)
    ensures Dispatch(m) == Unsupported <==> m == SOF2 || m == DNL
    ensures Dispatch(m) == Skip <==> APP0 <= m <= APPF || m == COM
  {
  }

  /** Markers of Table B.1 the decoder does not take: the other frame
      types (extended sequential SOF1, lossless SOF3, the arithmetic-coded
      ones), the restart markers and EOI before the first scan, and a fill
      byte 0xFF in marker position, are all format errors. */
  lemma OtherMarkersAreFormatErrors()
    ensures Dispatch(0xC1) == Unknown && Dispatch(0xC3) == Unknown && Dispatch(0xC9) == Unknown
    ensures forall m: byte | RST0 <= m <= RST7 :: Dispatch(m) == Unknown
    ensures Dispatch(EOI) == Unknown && Dispatch(0xFF) == Unknown
  {
  }

  predicate IsRst(m: int)
  {
    RST0 <= m <= RST7
  }

  /** `expected_rst += 1`, wrapping from RST7 back to RST0
      (decoder.rs:500-504). */
  function NextRst(e: byte): (r: byte)
    requires IsRst(e)
  {
    if e + 1 > RST7 then RST0 else e + 1
  }

  /** The expected marker stays within RST0..RST7 and counts modulo 8. */
  lemma NextRstCounts(e: byte)
    requires IsRst(e)
    ensures IsRst(NextRst(e))
    ensures NextRst(e) - RST0 == (e - RST0 + 1) % 8
  {
  }

  /** The expected marker after n restarts. */
  function RstAfter(e: byte, n: nat): (r: byte)
    requires IsRst(e)
    ensures IsRst(r)
  {
    if n == 0 then e else NextRst(RstAfter(e, n - 1))
  }

  /** After n restarts from RST0 the decoder expects RSTm with m = n mod 8,
      as section B.2.1 of ITU-T T.81 numbers them. */
  lemma {:induction false} RstAfterIsModulo(n: nat)
    ensures RstAfter(RST0, n) == RST0 + n % 8
  {
    if n > 0 {
      RstAfterIsModulo(n - 1);
      NextRstCounts(RstAfter(RST0, n - 1));
    }
  }
}
