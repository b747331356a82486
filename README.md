# A verified model of the baseline JPEG decoder core of `image`

This project models the integer, sequential core of the baseline JPEG
decoder in the `image` crate. That core lives in `src/jpeg/decoder.rs` and
`src/jpeg/transform.rs`, and the model proves properties of it in Dafny.
The decoder follows ITU-T T.81 (the JPEG standard).

The model has three layers:

- **Functions over bytes.** They state what each piece of the source
  computes. Each segment reader is a function of the input bytes and a
  position (module `Segments`):
  - `read_metadata`'s marker search and dispatch (module `Markers`);
  - the DQT, DHT, SOF0, SOS and DRI segments;
  - the search for a restart marker.

  Other pieces are functions too:
  - the coefficient decoding of `decode_block` (module `Coefficients`),
    with `extend` and `UNZIGZAG`;
  - the MCU decoding of `decode_mcu` (module `Mcu`);
  - the MCU geometry (module `Geometry`);
  - the lane arithmetic of the SIMD inverse DCT (module `Transform`);
  - the scalar forward DCT (module `ForwardDct`).
- **A class that changes state.** `Decoding.Decoder` mirrors
  `JPEGDecoder`: the same fields, updated in place by methods that read
  the input step by step. Each method is proved to leave exactly what the
  corresponding function computes, and those functions follow the code as
  written, including the two defects listed under "Findings" below; the
  corrected behaviour is a separate definition that the lemmas compare
  with the code's. The imperative parts of the source
  keep their form:
  - the quantization table store is an `array` written slot by slot;
  - the MCU buffer is an `array` into which `idct` stores its samples;
  - `fdct` overwrites its coefficient array row by row, then column by
    column;
  - the grayscale `upsample_mcu` writes its output buffer in two nested
    loops.
- **Lemmas about those functions.** They state what the code promises,
  among them:
  - `extend` inverts the encoder's additional bits;
  - UNZIGZAG is a permutation;
  - a block's coefficients are the AC writes laid over zeros;
  - a DQT segment changes only the slots its tables name;
  - the restart marker cycles RST0..RST7;
  - `transpose` and `transpose_bytes` are matrix transposes;
  - `as_i32` sign-extends;
  - the `cf`/`madd` pairs compute the scalar IJG formulas left in comments;
  - `ps(sp(..))` clamps to [0, 255];
  - an all-zero block gives 64 samples of 128;
  - pass 1 of the forward DCT, and the even coefficients of pass 2, are
    the rounded matrix product with the DCT basis; the odd coefficients of
    pass 2 are that rounded product or one less;
  - the grayscale placement puts sample (x, y) at `xoffset + x + y * width`.

Integer semantics are those of a debug build. Arithmetic overflow and
slice indexing out of bounds panic, and the model returns `Err(Panic)` for
them. Explicit `as` casts wrap (`Wrap16`, `Wrap32`), SIMD lane additions
wrap, and `packs` saturates.

The input stream is a byte sequence with a cursor. The Huffman layer
(`super::entropy`) is not part of this model. The decoder instead takes
the sequence of decoded symbols and received bit values as a given
supply.

Two places where the source and the description of the decoder disagree
follow the source:

- The IDCT takes its shortcut only for an all-zero block, not for every
  block with only a DC coefficient.
- An AC run past position 63 is a slice index out of bounds, so it
  panics rather than being a format error.

Two places where the code is evidently wrong (see "Findings") are also
modelled as written, in the functions and in the class alike:

- `fdct` rounds the odd coefficients of its second pass with 2^10 instead
  of 2^14, so `ForwardDct.Fdct` leaves `FdctAsWritten`, not the rounded
  DCT `FdctSpec`.
- `read_restart` counts MCUs with floor divisions and panics when
  `width + 7` or `height + 7` overflows a u16, so
  `Decoding.Decoder.ReadRestart` decides whether a marker is due with
  `McuCountAsWritten`, not with the covering count `McuCount`.

## Model

| member | source | states |
|---|---|---|
| Coefficients.UnzigzagIsPermutation | src/jpeg/decoder.rs:25-34 | UNZIGZAG holds 64 distinct positions 0..63, each exactly once, with UNZIGZAG[0] = 0 and UNZIGZAG[63] = 63 |
| Coefficients.UnzigzagInvertsZigzag | src/jpeg/decoder.rs:25-34 | UNZIGZAG undoes the zig-zag numbering of Figure A.6 of T.81: the zig-zag index of UNZIGZAG[k] is k |
| Coefficients.ZigzagInvertsUnzigzag | src/jpeg/decoder.rs:25-34 | the zig-zag numbering undoes UNZIGZAG: UNZIGZAG at the zig-zag index of n is n |
| Coefficients.Extend | src/jpeg/decoder.rs:792-806 | the result is an i32 or a panic; t = 0 returns v (and panics only on the i32 minimum); t >= 32 skips the shift, so v is returned unless v < 0, which panics on `(-1) << t`; v >= 0 never panics |
| Coefficients.ExtendIsDecoding | src/jpeg/decoder.rs:792-806 | for 1 <= t <= 15, every t-bit pattern v decodes to a nonzero value of category t whose additional bits are v again |
| Coefficients.ExtendInvertsAdditionalBits | src/jpeg/decoder.rs:792-806 | every nonzero value below 2^15 in magnitude comes back from EXTEND of the additional bits the encoder writes for it, with its category t between 1 and 15 |
| Coefficients.ExtendOfCategory | src/jpeg/decoder.rs:792-806 | the value of a t-bit pattern has magnitude between 2^(t-1) and 2^t, and its additional bits are the pattern |
| Coefficients.ExtendExamples | src/jpeg/decoder.rs:792-806 | extend(0, 0) = 0, extend(0, 4) = -15, extend(8, 4) = 8, extend(15, 4) = 15 |
| Coefficients.DecodeDc | src/jpeg/decoder.rs:225-237 | the DC value is an i32, and the only failure is a panic (overflow of the sum); symbol 0, no difference, returns the predictor unchanged |
| Coefficients.AcFrom | src/jpeg/decoder.rs:239-261 | the AC loop from position k keeps 64 coefficients, all i16 if they were, consumes codes forward only, and fails only with an I/O error or a panic |
| Coefficients.AcStep | src/jpeg/decoder.rs:241-260 | one iteration consumes at least one code and keeps 64 i16 coefficients, or fails with an I/O error or a panic |
| Coefficients.DecodeBlockSpec | src/jpeg/decoder.rs:217-262 | a decoded block has 64 i16 coefficients, an i32 DC value, and uses at least one code; errors are I/O errors or panics |
| Coefficients.DecodeBlockCoefficients | src/jpeg/decoder.rs:217-262 | the while loop over a local 64-entry array computes exactly DecodeBlockSpec |
| Coefficients.AcWrites | src/jpeg/decoder.rs:239-261 | the writes the AC loop makes, keyed by zig-zag position: all at or after k, below 64, each an i16 |
| Coefficients.AcIsOverlay | src/jpeg/decoder.rs:239-261 | after the AC loop, the coefficient at UNZIGZAG[j] is the write at zig-zag position j if there is one, and otherwise what it was |
| Coefficients.DecodedBlockIsOverlay | src/jpeg/decoder.rs:233-261 | coefficient 0 of a block is `dc as i16`, and every other coefficient is its AC write or 0: positions never written stay 0 |
| Coefficients.EndOfBlockOnly | src/jpeg/decoder.rs:246-249 | a DC symbol 0 followed by EOB (0x00) gives a block of zeros except the predictor at position 0, using two codes |
| Coefficients.FourZeroRunsEndBlock | src/jpeg/decoder.rs:246-251 | four ZRL symbols (0xF0) advance k by 16 each without a write and end the block at k = 65 |
| Coefficients.RunPastEndPanics | src/jpeg/decoder.rs:253-258 | three ZRLs then a run of 15 put k + RRRR past 63, and the UNZIGZAG index panics |
| Coefficients.DequantisationOverflowPanics | src/jpeg/decoder.rs:258 | `extend(t, ssss) as i16 * qtable[k] as i16` panics when the product leaves i16 (0x7FFF times 2) |
| Base.Wrap16 | src/jpeg/decoder.rs:236 | `x as i16`: an i16 congruent to x modulo 2^16, equal to x when x is an i16 |
| Base.CeilDiv | src/jpeg/decoder.rs:382 | the integer ceiling of a / b, standing for the f32 `ceil` of `mcus_per_row` |
| Decoding.ZeroPredictors | src/jpeg/decoder.rs:546-548 | the same component ids, each with dc_pred set to 0 and every other field unchanged |
| Decoding.Decoder.constructor | src/jpeg/decoder.rs:137-170 | every field starts as `JPEGDecoder::new` sets it: zeroed tables, empty components and buffers, expected marker RST0, state Start |
| Decoding.Decoder.ReadU8 | src/jpeg/decoder.rs:271 | `read_u8` on the input: the byte at the cursor and the cursor one further, or an I/O error at the end |
| Decoding.Decoder.ReadU16 | src/jpeg/decoder.rs:293 | `read_u16::<BigEndian>`: the big-endian u16 at the cursor, or an I/O error when fewer than 2 bytes are left |
| Decoding.Decoder.TakeBytes | src/jpeg/decoder.rs:294-295 | `take(n).read_to_end`: the next n bytes, or as many as are left, with the cursor after them |
| Decoding.Decoder.ReadMetadata | src/jpeg/decoder.rs:269-305 | the loop ends with state HaveFirstScan whenever it succeeds; a decoder already at HaveFirstScan reads nothing |
| Decoding.Decoder.ReadMarker | src/jpeg/decoder.rs:270-277 | the bytes before a marker are read exactly as NextMarker computes: the marker and the cursor after it, or its I/O error |
| Decoding.Decoder.ReadSegment | src/jpeg/decoder.rs:279-301 | each arm of the match leaves what SegmentRead describes: SOI, SOF0 and SOS set the state; DHT, DQT, SOF0, SOS, DRI, APPn and COM read their segment as the segment functions compute; TEM passes; SOF2 and DNL are UnsupportedError; other markers are FormatError |
| Decoding.Decoder.ReadHeaderSegment | src/jpeg/decoder.rs:283-290 | the SOF0 and SOS arms: the header is read as HeaderRead or ScanRead describes, and only a successful read moves the state to HaveFirstFrame or HaveFirstScan |
| Decoding.Decoder.ReadTableSegment | src/jpeg/decoder.rs:281-295 | the DHT, DQT, DRI, APPn and COM arms read their segment exactly as the segment functions compute, and leave the state as it was |
| Decoding.Decoder.ReadQuantizationTables | src/jpeg/decoder.rs:420-443 | the table store and the cursor after a DQT segment are exactly those of QuantTables, or its error |
| Decoding.Decoder.ReadQuantizationTable | src/jpeg/decoder.rs:425-439 | one table's Pq/Tq check and its 64-byte slot write in place agree with QuantTable |
| Decoding.Decoder.ReadHuffmanTables | src/jpeg/decoder.rs:445-478 | the DC and AC tables and the cursor after a DHT segment are exactly those of HuffTables, or its error |
| Decoding.Decoder.ReadHuffmanTable | src/jpeg/decoder.rs:450-474 | one table agrees with HuffTable: the tables, the cursor and the length left |
| Decoding.Decoder.ReadFrameHeader | src/jpeg/decoder.rs:307-337 | the frame fields are as FrameHeader reads them, `padded_width` is PaddedWidth(width), and the components and buffers are as FrameRead describes, or the first error |
| Decoding.Decoder.ReadFrameFields | src/jpeg/decoder.rs:308-331 | height, width and component count are stored as read, and the result is FrameHeader's, with its checks |
| Decoding.Decoder.ReadFrameComponents | src/jpeg/decoder.rs:339-388 | after n triples, the components, hmax/vmax and the zeroed MCU and row buffers are as FrameRead describes, or the read's error |
| Decoding.Decoder.SizeBuffers | src/jpeg/decoder.rs:361-385 | hmax/vmax are the largest factors, or 1 with h = v = 1 for one component; `mcu` has McuLength zero bytes and `mcu_row` McuRowLength zero bytes |
| Decoding.Decoder.ReadTriples | src/jpeg/decoder.rs:342-359 | the loop inserts the triples and sums h * v exactly as FrameComponents computes, or fails with its error |
| Decoding.Decoder.ReadTriple | src/jpeg/decoder.rs:343-345 | three bytes in order, or an I/O error when fewer are left |
| Decoding.Decoder.ReadScanHeader | src/jpeg/decoder.rs:390-418 | the components' table selectors, the scan's id list and the cursor are exactly ScanHeader's, or its error |
| Decoding.Decoder.ReadScanPairs | src/jpeg/decoder.rs:397-407 | the loop sets the selectors with SetTables and pushes ScanIds, all of them known ids, or fails as ScanHeader does |
| Decoding.Decoder.ReadScanPair | src/jpeg/decoder.rs:398-406 | one pair: a short read is the IoError and an undefined id the panic that ScanHeader gives for the whole header; otherwise SetTables and ScanIds advance by exactly this pair |
| Decoding.Decoder.ReadPair | src/jpeg/decoder.rs:398-399 | two bytes in order, or an I/O error when fewer are left |
| Decoding.Decoder.SkipPayload | src/jpeg/decoder.rs:292-296 | an APPn/COM segment moves the cursor as SkipSegment computes, including the panic of `length - 2` below 2 |
| Decoding.Decoder.ReadRestartInterval | src/jpeg/decoder.rs:481-486 | the second u16 of the segment becomes `interval` and the cursor moves 4 bytes, or an I/O error |
| Decoding.Decoder.FindRestartMarker | src/jpeg/decoder.rs:515-538 | the cached marker is returned and cleared before any byte is read; otherwise the scan is that of ScanRst; the cache is 0 afterwards |
| Decoding.Decoder.Reset | src/jpeg/decoder.rs:540-549 | bit buffer, bit count, end flag and cached marker are zeroed, and every component's predictor is 0 |
| Decoding.Decoder.ReadRestart | src/jpeg/decoder.rs:488-513 | the MCU count as written (floor divisions) panics on a u16 overflow of `width + 7` or `height + 7` or a zero factor; when no marker is due by that count nothing changes; when one is due, the marker found must be the expected one, otherwise FormatError, and then the state is reset and the next RSTm is expected |
| Decoding.Decoder.DecodeBlock | src/jpeg/decoder.rs:213-266 | the block decoded from the symbol supply is DecodeBlockAt's; its IDCT samples land in slot i of the MCU buffer, later slots are unchanged, and the DC value is returned |
| Decoding.Decoder.DecodeNextBlock | src/jpeg/decoder.rs:201-203 | one block of the component's inner loop, with the predictor carried to the next block, agreeing with NextBlocks |
| Decoding.Decoder.DecodeComponentBlocks | src/jpeg/decoder.rs:200-204 | the h * v blocks of one component agree with BlocksFrom: the component with its last DC as predictor, the supply position, and the buffer holding every block's samples |
| Decoding.Decoder.DecodeMcuBlocks | src/jpeg/decoder.rs:194-207 | the loop over the scan's ids agrees with McuFrom: the new component table, the supply position and the MCU buffer's samples, or the error (a panic on an unknown id) |
| Decoding.Decoder.DecodeScanComponent | src/jpeg/decoder.rs:198-206 | one id of the scan: an unknown id panics; otherwise its blocks are decoded as BlocksFrom computes, and McuFrom of the remaining ids from the new state equals McuFrom from the old one |
| Decoding.Decoder.DecodeMcu | src/jpeg/decoder.rs:193-211 | the MCU as McuFrom computes it, then `mcucount + 1` (a panic at u32 maximum), then read_restart's outcome as RestartRead describes it |
| Mcu.BlockRows | src/jpeg/decoder.rs:214-219 | the 64 i16 of `tmp` as eight i16x8 rows: row r, lane x is coefficient 8r + x |
| Mcu.DecodeBlockAt | src/jpeg/decoder.rs:213-262 | a block decodes only when slot i lies inside the MCU buffer and the table selectors are in range; it is then a decoded block with an i32 DC that uses codes within the supply; failures are panics or I/O errors |
| Mcu.BlocksFrom | src/jpeg/decoder.rs:200-204 | n blocks of one component: only dc_pred changes, and it becomes the last block's DC; the blocks are appended in order and fit the buffer |
| Mcu.NextBlocks | src/jpeg/decoder.rs:201-203 | the first of n > 0 blocks, then the rest with the new predictor; same guarantees as BlocksFrom |
| Mcu.McuFrom | src/jpeg/decoder.rs:197-207 | the components of the scan in order; the component table stays well formed and the blocks are appended |
| McuFacts.McuChangesOnlyPredictors | src/jpeg/decoder.rs:197-207 | an MCU keeps the component ids and every field but dc_pred, and components the scan does not name keep their predictor |
| McuFacts.SingleBlock | src/jpeg/decoder.rs:200-204 | a component with h = v = 1 decodes exactly one block, whose DC becomes the predictor |
| McuFacts.GrayscaleMcu | src/jpeg/decoder.rs:193-207 | a one-component scan decodes one block with that component's tables; the predictor becomes its DC and the other components are unchanged |
| McuBuffer.StoreBlock | src/jpeg/decoder.rs:264 | the IDCT samples of block i fill slot i of the MCU buffer; earlier slots keep their blocks and later bytes are unchanged |
| Geometry.PaddedWidth | src/jpeg/decoder.rs:333 | the width rounded up to a multiple of 8 |
| Geometry.McuLength | src/jpeg/decoder.rs:375-380 | the MCU buffer has 64 bytes for a single component, and 64 bytes per block otherwise |
| Geometry.GrayRowBufferFits | src/jpeg/decoder.rs:382-385 | for a grayscale MCU the row buffer holds at least 8 rows of the padded width |
| Geometry.McuCountAsWritten | src/jpeg/decoder.rs:489-490 | the source's MCU count succeeds only with nonzero factors (a zero factor is a division panic) |
| Geometry.McuCount | src/jpeg/decoder.rs:489-490 | the corrected MCU count: succeeds only with nonzero factors |
| Geometry.McuCountTiles | src/jpeg/decoder.rs:489-490 | the corrected count is the number of MCUs of 8 hmax by 8 vmax samples that cover the image, and no smaller grid covers it |
| Geometry.McuCountsAgreeUnsampled | src/jpeg/decoder.rs:489-490 | without subsampling the count as written equals the corrected one |
| Geometry.McuCountAsWrittenUndercounts | src/jpeg/decoder.rs:489-490 | a 24 x 8 image with 2 x 2 sampling has 2 MCUs, but the count as written is 0 |
| Geometry.RestartSkippedAsWritten | src/jpeg/decoder.rs:489-494 | with interval 1 that image needs a restart marker after its first MCU, and the count as written does not check one |
| Markers.DispatchAcceptsExactly | src/jpeg/decoder.rs:279-301 | exactly SOI, DHT, DQT, SOF0, SOS, DRI, APPn, COM and TEM are accepted; SOF2 and DNL are the only unsupported markers; APP0..APPF and COM are skipped |
| Markers.OtherMarkersAreFormatErrors | src/jpeg/decoder.rs:300 | SOF1, SOF3, SOF9, RST0..RST7, EOI and 0xFF met by read_metadata are format errors |
| Markers.NextRstCounts | src/jpeg/decoder.rs:500-504 | the next expected marker stays in RST0..RST7 and is the current one plus 1 modulo 8 |
| Markers.RstAfterIsModulo | src/jpeg/decoder.rs:500-504 | after n restarts from RST0 the expected marker is RST0 + n mod 8 |
| Sampling.MaxFactorIsMax | src/jpeg/decoder.rs:361-363 | the fold yields a factor every component is at most, and some component has (0 for none), in 0..15 |
| Sampling.MaxIsUnique | src/jpeg/decoder.rs:361-363 | that maximum is unique, so the fold's order over the HashMap does not matter |
| Sampling.SamplingMaxima | src/jpeg/decoder.rs:361-363 | the loop over the components computes both maxima |
| Segments.NextMarker | src/jpeg/decoder.rs:270-277 | the marker after the first 0xFF and the position after it, or an I/O error |
| Segments.NextMarkerIsFirstFF | src/jpeg/decoder.rs:270-277 | (m, q) is found exactly when d[q-2] = 0xFF, d[q-1] = m and no 0xFF comes before q-2 |
| Segments.SkipSegment | src/jpeg/decoder.rs:292-296 | the cursor moves length bytes from the length field, or to the end of the input; a length below 2 panics |
| Segments.QuantTable | src/jpeg/decoder.rs:425-439 | one table reads exactly 65 bytes and keeps a 256-byte store; its only failures are an I/O error or a FormatError (the Pq/Tq check) |
| Segments.QuantSegment | src/jpeg/decoder.rs:424-440 | the tables of a segment keep a 256-byte store and move the cursor forward; the only failures are I/O errors and FormatErrors |
| Segments.QuantSegmentKeepsOtherSlots | src/jpeg/decoder.rs:433-437 | a slot that none of the segment's tables names keeps its 64 entries |
| Segments.SlotOfWrite | src/jpeg/decoder.rs:433-437 | writing slot tq changes slot tq to the table and leaves the other three slots |
| Segments.QuantSegmentCounts | src/jpeg/decoder.rs:424-440 | remaining lengths 64 and 65 read one table, 66 reads two (the loop runs while the length left is above 0) |
| Segments.QuantTables | src/jpeg/decoder.rs:420-443 | the DQT segment from its length field: the tables fit the 256-byte store and the cursor moves forward |
| Segments.SumU8 | src/jpeg/decoder.rs:464 | the u8 fold of the counts, in 0..255, or a panic |
| Segments.SumU8IsSum | src/jpeg/decoder.rs:464 | the fold succeeds with the plain sum exactly when the sum fits in a u8 |
| Segments.Take | src/jpeg/decoder.rs:461 | `take(n).read_to_end` reads n bytes, or as many as are left |
| Segments.HuffTable | src/jpeg/decoder.rs:450-474 | one table keeps two DC and two AC slots, moves the cursor forward, and leaves a length below the one it was given but at least 0 |
| Segments.HuffSegment | src/jpeg/decoder.rs:449-475 | the tables of a segment keep two DC and two AC slots and move the cursor forward |
| Segments.HuffSegmentUnderflowPanics | src/jpeg/decoder.rs:474 | a table longer than the length left underflows the u16 and panics |
| Segments.OneHuffTable | src/jpeg/decoder.rs:449-475 | a segment holding one valid table sets exactly the slot its Tc/Th byte names to its counts and values |
| Segments.HuffTables | src/jpeg/decoder.rs:445-478 | the DHT segment from its length field keeps two DC and two AC slots and reads at least the length field; a length field below 2 panics (`length - 2`) |
| Segments.FrameComponent | src/jpeg/decoder.rs:343-355 | a triple gives id, h = high nibble, v = low nibble and tq, with table selectors and predictor 0 |
| Segments.InsertComponentsKeys | src/jpeg/decoder.rs:358 | inserting the triples adds exactly their ids, and other components are unchanged |
| Segments.Unsampled | src/jpeg/decoder.rs:369-373 | the same components, each with h = v = 1 |
| Segments.FrameHeader | src/jpeg/decoder.rs:308-331 | succeeds only with precision 8, nonzero height and width and 1 or 3 components, with the fields as read; precision other than 8 is UnsupportedError before the dimensions are read; a zero height or width is DimensionError; no other errors occur besides I/O errors |
| Segments.FrameComponents | src/jpeg/decoder.rs:342-359 | n triples read in full, with a u8 block count, or an I/O error or panic |
| Segments.FrameComponentsShort | src/jpeg/decoder.rs:343-345 | input ending inside triple i is an I/O error |
| Segments.FrameComponentsOverflow | src/jpeg/decoder.rs:357 | a sum of h * v above 255 panics (`blocks_per_mcu` is a u8) |
| Segments.FrameComponentsWhole | src/jpeg/decoder.rs:342-359 | with all triples present and the sum in range, the result is every triple inserted and the sum of h * v |
| Segments.SetTables | src/jpeg/decoder.rs:401-404 | the scan's pairs keep the same component ids |
| Segments.SetTablesOnlySelectors | src/jpeg/decoder.rs:401-404 | a scan changes only dc_table and ac_table, and only for the ids it names |
| Segments.ScanHeader | src/jpeg/decoder.rs:390-418 | n pairs, then three bytes that are not used; every scan id is a known component; errors are I/O errors or panics |
| Segments.ScanHeaderShort | src/jpeg/decoder.rs:398-399 | input ending inside pair i is an I/O error |
| Segments.ScanHeaderUnknownId | src/jpeg/decoder.rs:401 | an id that no frame component has panics (`unwrap` on `None`) |
| Segments.ScanHeaderEnd | src/jpeg/decoder.rs:390-418 | with all pairs known, the result is SetTables and ScanIds, or an I/O error in the last three bytes |
| Segments.ScanRst | src/jpeg/decoder.rs:523-537 | succeeds only on an RST0..RST7 marker at least two bytes on; the only failures are an I/O error (end of input) and a FormatError |
| Segments.ScanRstEndsAtMarker | src/jpeg/decoder.rs:523-537 | the marker found is the byte after an 0xFF, at the position returned |
| Segments.ScanRstSkipsData | src/jpeg/decoder.rs:523-537 | stuffed 0xFF 0x00 and data bytes are passed over, and 0xFF 0xD9 (EOI) is a format error |
| Segments.ScanRstMissesFilledMarker | src/jpeg/decoder.rs:527-532 | after 0xFF 0xFF the second 0xFF is taken as the marker byte and skipped, so a following RST0 is missed |
| Transform.Interleave | src/jpeg/transform.rs:203-208 | two vectors of 8 lanes |
| Transform.InterleaveLanes | src/jpeg/transform.rs:203-208 | lane 2i of the two outputs together is x[i] and lane 2i+1 is y[i] |
| Transform.InterleaveDisplay | src/jpeg/transform.rs:203-208 | the outputs are (x0, y0, .., x3, y3) and (x4, y4, .., x7, y7) |
| Transform.Transpose | src/jpeg/transform.rs:214-233 | three rounds of interleave give an 8 x 8 matrix |
| Transform.TransposeIsTranspose | src/jpeg/transform.rs:214-233 | output vector j, lane i is input vector i, lane j |
| Transform.Interleave8 | src/jpeg/transform.rs:259-269 | two vectors of 16 byte lanes |
| Transform.Interleave8Display | src/jpeg/transform.rs:259-269 | byte lanes alternate x and y, low halves first |
| Transform.TransposeBytes | src/jpeg/transform.rs:257-278 | four vectors of 16 bytes |
| Transform.TransposeBytesIsTranspose | src/jpeg/transform.rs:257-278 | read as eight 8-byte rows, the output is the 8 x 8 transpose of the input |
| Transform.AsI32 | src/jpeg/transform.rs:210-213 | two vectors of four i32 lanes |
| Transform.AsI32SignExtends | src/jpeg/transform.rs:210-213 | the output is the eight i16 lanes sign-extended, low four then high four |
| Transform.SignExtend | src/jpeg/transform.rs:212 | `<< 16 >> 16` of the zero-extended lane restores the signed i16 value |
| Transform.InterleaveWithZero | src/jpeg/transform.rs:211 | interleaving with zero puts each lane beside a zero half |
| Transform.ReinterpretZeroHigh | src/jpeg/transform.rs:211 | the transmute reads each (lane, 0) pair as the lane's unsigned 16-bit value |
| Transform.ShiftPairSignExtends | src/jpeg/transform.rs:212 | the shift pair on i32 lanes turns the unsigned readings back into the signed values |
| Transform.Cf | src/jpeg/transform.rs:310-316 | two vectors of 8 lanes, given that the sums x + y and x + z fit in i16 |
| Transform.CfPairs | src/jpeg/transform.rs:317-320 | the eight constant vectors alternate the sums and single FIX constants of the scalar formulas |
| Transform.MaddWideLanes | src/jpeg/transform.rs:338-341 | `madd` of interleaved x, y with an alternating pair (f0, f1) is x[j] * f0 + y[j] * f1 in each lane, with no wrap |
| Transform.EvenRotation | src/jpeg/transform.rs:330-341 | the two even-part `madd`s equal the commented jidctint formulas for tmp2 and tmp3 |
| Transform.OddRotation | src/jpeg/transform.rs:387-432 | the six odd-part `madd`s equal the commented jidctint formulas for z2, z3, t0, t3, t1 and t2 |
| Transform.OddSumWraps | src/jpeg/transform.rs:384-385 | the i16 lane sum `t0 + t2` wraps: 0x7FFF + 1 gives -0x8000 |
| Transform.Packs32 | src/jpeg/transform.rs:438-439 | `packs` of i32 lanes gives i16 lanes |
| Transform.Combine | src/jpeg/transform.rs:434-441 | (x + y) and (x - y), shifted down and packed, are i16 lanes |
| Transform.EvenPass1 | src/jpeg/transform.rs:325-377 | the even part of the first pass gives four pairs of i32 lane vectors |
| Transform.EvenPass2 | src/jpeg/transform.rs:463-499 | the even part of the second pass gives four pairs of i32 lane vectors |
| Transform.OddPart | src/jpeg/transform.rs:379-432 | the odd part gives four pairs of i32 lane vectors |
| Transform.Pass1Rows | src/jpeg/transform.rs:324-456 | the butterflies of the first pass give eight i16x8 rows |
| Transform.IdctPass1 | src/jpeg/transform.rs:302-457 | the first pass, with its all-zero shortcut, gives eight i16x8 rows |
| Transform.Sp | src/jpeg/transform.rs:557-560 | shift by 18 and pack to i16 lanes |
| Transform.SpLanes | src/jpeg/transform.rs:557-560 | each lane is Sat16 of the lane shifted down by CONST_BITS + PASS1_BITS + 3 |
| Transform.Ps | src/jpeg/transform.rs:561-564 | 16 bytes |
| Transform.PsLanes | src/jpeg/transform.rs:561-564 | each byte is Sat8 of its lane plus 128 |
| Transform.SamplesAreClampedShifts | src/jpeg/transform.rs:557-564 | every output sample is clamp(v >> 18, -128, 127) + 128, in [0, 255] |
| Transform.Pass2Rows | src/jpeg/transform.rs:461-573 | the butterflies of the second pass give eight i16x8 rows |
| Transform.IdctPass2 | src/jpeg/transform.rs:461-580 | the second pass gives four vectors of 16 bytes |
| Transform.IdctSamples | src/jpeg/transform.rs:299-586 | the 64 samples `idct` stores |
| Transform.Store | src/jpeg/transform.rs:582-585 | a `store` writes its 16 bytes at the offset and nothing else |
| Transform.StoreAll | src/jpeg/transform.rs:582-585 | the four stores write the 64 bytes at the offset in row order and leave the rest of the slice |
| Transform.Idct | src/jpeg/transform.rs:299-586 | `samples` receives IdctSamples of the coefficients in its 64 bytes from the offset, and nothing else changes |
| Transform.IdctPass1Zero | src/jpeg/transform.rs:322-323 | an all-zero block takes the shortcut and `tmp` stays zero |
| Transform.EvenPass2Zero | src/jpeg/transform.rs:463-499 | on zero rows the even part holds only the rounding constant 1 << (PASS1_BITS + 2) scaled by 2^13 |
| Transform.OddPartZero | src/jpeg/transform.rs:501-555 | on zero rows the odd part is zero |
| Transform.IdctPass2Zero | src/jpeg/transform.rs:461-580 | zero rows give four vectors of sixteen 128s |
| Transform.ZeroBlockIsFlat | src/jpeg/transform.rs:322-323 | an all-zero block gives 64 samples, all equal to 128 |
| ForwardDct.FdctEven | src/jpeg/transform.rs:101-106 | the even rotation is 10703 t12 + 4433 t13 and 4433 t12 - 10704 t13 plus the rounding term, with no i32 overflow |
| ForwardDct.OddRotation | src/jpeg/transform.rs:109-119 | the first odd rotation is 6437 t12 + 9633 t13 and 9633 t12 - 6436 t13 plus the rounding term |
| ForwardDct.FdctOdd | src/jpeg/transform.rs:108-136 | the odd factorisation computes the odd DCT basis rows (scaled by 2^13 sqrt 2) applied to the differences d0..d3, with no i32 overflow |
| ForwardDct.RowEven | src/jpeg/transform.rs:81-106 | coefficient 0 of a row is (row sum - 1024) << 2, and the four even coefficients lie within 4096 of zero |
| ForwardDct.RowOdd | src/jpeg/transform.rs:92-136 | the four odd coefficients of a row lie within 4096 of zero, with no i32 overflow on u8 samples |
| ForwardDct.FdctRow | src/jpeg/transform.rs:78-137 | pass 1 of a row gives eight values within 4096 of zero, coefficient 0 being (row sum - 1024) << 2 |
| ForwardDct.ColumnEven | src/jpeg/transform.rs:143-168 | coefficient 0 of a column is (column sum + 2) >> 2 |
| ForwardDct.ColumnOdd | src/jpeg/transform.rs:155-198 | the odd coefficients are the basis rows 1, 3, 5, 7 applied to the column, plus the rounding term, shifted by 15 |
| ForwardDct.RoundedDct | src/jpeg/transform.rs:74-200 | reference definition: each coefficient is the DCT basis row applied to the vector, rounded to the nearest at scale 2^n |
| ForwardDct.RoundShiftNearest | src/jpeg/transform.rs:102-106 | adding half of 2^n before `>> n` rounds to the nearest multiple |
| ForwardDct.RowEvenIsMatrixProduct | src/jpeg/transform.rs:81-106 | the even coefficients of pass 1 are the rounded products of the level-shifted row with basis rows 0, 2, 4, 6 |
| ForwardDct.RowOddIsMatrixProduct | src/jpeg/transform.rs:108-136 | the odd coefficients of pass 1 are the rounded products with basis rows 1, 3, 5, 7 |
| ForwardDct.ColumnEvenIsMatrixProduct | src/jpeg/transform.rs:143-168 | the even coefficients of pass 2 are the rounded products of the column with basis rows 0, 2, 4, 6 |
| ForwardDct.FdctRowIsMatrixProduct | src/jpeg/transform.rs:78-137 | pass 1 of a row is RoundedDct of the level-shifted row at scale 2^11 |
| ForwardDct.FdctColumnIsMatrixProduct | src/jpeg/transform.rs:139-199 | pass 2 with the corrected rounding term is RoundedDct of the column at scale 2^15 |
| ForwardDct.FdctColumnAsWritten | src/jpeg/transform.rs:170-198 | pass 2 of a column as written, with the rounding term of line 176 |
| ForwardDct.FdctColumnAsWrittenOdd | src/jpeg/transform.rs:170-198 | as written, the even coefficients round to nearest, but the odd ones add 2^10 where 2^14 rounds |
| ForwardDct.AsWrittenColumnRoundsDown | src/jpeg/transform.rs:176 | for the column (0, 1, 0, ..), coefficient 3 is -2259 / 2^15: as written it gives -1, rounded it gives 0 |
| ForwardDct.AsWrittenColumnIsMinusOne | src/jpeg/transform.rs:176 | the as-written pass 2 gives -1 for that column's coefficient 3 |
| ForwardDct.CorrectedColumnRoundsToZero | src/jpeg/transform.rs:176 | the corrected pass 2 gives 0, the nearest integer |
| ForwardDct.FdctColumn | src/jpeg/transform.rs:139-199 | the corrected pass 2 of a column, eight coefficients |
| ForwardDct.Pass1Row | src/jpeg/transform.rs:78-137 | row y of pass 1 is RoundedDct of the level-shifted samples of row y, within 4096 of zero |
| ForwardDct.Pass1 | src/jpeg/transform.rs:75-137 | the eight rows of pass 1 |
| ForwardDct.Pass2 | src/jpeg/transform.rs:139-199 | the corrected pass 2: column x is RoundedDct of column x of pass 1 |
| ForwardDct.FdctSpec | src/jpeg/transform.rs:74-200 | the corrected forward DCT, the reference the code is compared with: entry (u, x) is coefficient u of column x after pass 1 and the corrected pass 2 |
| ForwardDct.ColumnAsWrittenEntry | src/jpeg/transform.rs:139-199 | coefficient k of a column as written: for even k the rounded DCT; for odd k the basis product plus 2^10 shifted down by 15, which is the rounded DCT or one less |
| ForwardDct.FdctAsWrittenAgainstSpec | src/jpeg/transform.rs:74-200 | every entry `fdct` leaves equals the rounded DCT in the even rows and is the rounded DCT or one less in the odd rows |
| ForwardDct.FdctAsWrittenDc | src/jpeg/transform.rs:74-200 | the DC coefficient `fdct` leaves is the sum of the samples minus 64 * 128 |
| ForwardDct.FdctDc | src/jpeg/transform.rs:74-200 | the DC coefficient of a block is the sum of its samples minus 64 * 128 |
| ForwardDct.Fdct | src/jpeg/transform.rs:74-200 | the two loops leave `coeffs[8u + x]` equal to FdctAsWritten (pass 1, then pass 2 with the rounding term of line 176) and entries past 64 unchanged |
| ForwardDct.FdctRows | src/jpeg/transform.rs:75-137 | the row loop leaves the pass-1 rows in the first 64 entries |
| ForwardDct.FdctColumns | src/jpeg/transform.rs:139-199 | the column loop, last column first, leaves in every column the coefficients of pass 2 as written |
| ForwardDct.ReadColumn | src/jpeg/transform.rs:144-158 | the eight entries of column x, stride 8 |
| ForwardDct.StoreRow | src/jpeg/transform.rs:98-136 | the eight writes of a row replace entries 8y..8y+7 and nothing else |
| ForwardDct.StoreColumn | src/jpeg/transform.rs:160-198 | the eight writes of a column, in the source's order, replace column x |
| Upsample.UpsampleGray | src/jpeg/decoder.rs:679-685 | it succeeds exactly when all 64 writes are in bounds, and then leaves GrayWrites; otherwise it panics |
| Upsample.WriteSample | src/jpeg/decoder.rs:683 | one iteration of the inner loop: sample (x, y) goes to `xoffset + x + y * width` exactly when that index is in range, extending GrayWrites by that write |
| Upsample.WritesFitIff | src/jpeg/decoder.rs:683 | all 64 writes are in bounds exactly when `xoffset + 7 + 7 * width` is |
| Upsample.GrayWritesPlace | src/jpeg/decoder.rs:681-685 | with width >= 8, after n writes each byte of the window holds its sample if that write is among them, and otherwise its old value |
| Upsample.GrayPlacement | src/jpeg/decoder.rs:679-685 | with width >= 8, byte xoffset + x + y * width holds mcu[x + 8y] for x, y < 8, and every other byte keeps its value |

## Left out

- Byte-stream I/O (`Read`, `read_u8`, `read_u16`, `take`/`read_to_end`) is a byte sequence with a cursor. A failed `read_u16` moves the cursor to the end; what a real reader leaves is not modelled.
- `super::entropy` (`HuffDecoder::decode_symbol`, `receive`, `derive_tables`, `HuffTable`) is not part of this model. Decoding takes the decoded symbols and received bits as a given supply. A DHT segment stores the counts and values it would hand to `derive_tables`. The Huffman decoder setting its cached marker while reading is not modelled.
- `decode_mcu_row`, `read_scanline`, `read_image` and the `ImageDecoder` methods (`dimensions`, `colortype`, `row_len`) are thin plumbing around the modelled parts, so they are left out, together with `row_count` and `decoded_rows`.
- The colour branch of `upsample_mcu`/`upsample_mcu_scalar` and `ycbcr_to_rgb`/`ycbcr_to_rgb_scalar` are left out because they compute in floating point.
- Upsample.UpsampleGray: requires a 64-byte MCU, because only the grayscale branch is modelled.
- `mcus_per_row` (decoder.rs:382) uses an f32 `ceil`; the model uses integer ceiling division (`CeilDiv`) instead.
- The `unsafe` transmutes and raw-pointer casts are modelled at the level of lane values, not memory layout.
- Error messages are reduced to their kinds. A panic (overflow, index out of bounds, `unwrap` on `None`) is the error kind `Panic`.
- After an error, a method states its result but not every field it may have written before failing, such as the part of a table already copied.
- Index arithmetic is unbounded. The usize overflow of `xoffset + x + y * width` and of slice bounds is not modelled.
- Decoding.Decoder.ReadMetadata: its own contract states only the final state. Each iteration is stated by ReadMarker and ReadSegment.
- Geometry.McuCount: the corrected count leaves out the u16 overflow of `width + 7` that the count as written panics on.
- The JPEGState value `End` is never set by the source, and the model keeps it unused.

## Findings

| source | as written | input that shows it | evidently intended | confidence | as-written member | corrected member |
|---|---|---|---|---|---|---|
| src/jpeg/transform.rs:176 | pass 2 of `fdct` adds `1 << (CONST_BITS - PASS1_BITS - 1)` (2^10) before shifting the odd coefficients by CONST_BITS + PASS1_BITS (15), so they are rounded down rather than to the nearest (jfdctint uses 2^14 here) | a pass-1 column (0, 1, 0, 0, 0, 0, 0, 0): coefficient 3 is -2259 / 2^15, which gives -1 as written | `1 << (CONST_BITS + PASS1_BITS - 1)`, rounding to the nearest, which gives 0 | high; not executed | ForwardDct.AsWrittenColumnIsMinusOne | ForwardDct.CorrectedColumnRoundsToZero |
| src/jpeg/decoder.rs:489-490 | `read_restart` counts MCUs as `(width + 7) / (hmax * 8)` times `(height + 7) / (vmax * 8)`, rounding down for hmax or vmax above 1 | a 24 x 8 image with 2 x 2 sampling and restart interval 1 has 2 MCUs, but the count is 0, so the restart marker after the first MCU is never read | the ceiling `(width + 8 hmax - 1) / (8 hmax)` times the same for the height | high; not executed | Geometry.McuCountAsWrittenUndercounts | Geometry.McuCountTiles |
