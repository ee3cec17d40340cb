# Verified core of the IJG JPEG library, release 8

A Dafny model of the parts of the JPEG library under `FreeRDP/src` that do not explain themselves: the two entropy
coders, the tables and scripts that steer them, the pass control, and the buffer controllers. The routines that update
state keep their loops and their mutable state as methods; each is tied to a specification, and the theorems are about
the specifications and about whole runs. Sections and figures are those of ITU-T T.81 (ISO/IEC 10918-1).

## How it is organised

Arithmetic coding
- `IntervalCoder` is the coder of Annex D without registers: a nested interval of unbounded precision. `ArithRoundTrip`
  shows that a decoder following any code string inside the final interval repeats every decision.
- `CarryOutput`, `ArithEncoder` refine it to jcarith.c: a 32-bit C register with spacer bits, a byte that may still
  change, stacked FF bytes, pending zero bytes. `SegmentSource`, `ArithDecoder` refine it to jdarith.c: a code register
  with a floating cut point, fed from stuffed bytes, zeros behind the marker. `ArithTable` is jaricom.c.
  `ArithDecisions` is the round trip of arbitrary decisions through bytes.
- `Binarisation`, `McuCoding`, `ArithSegment` turn coefficients into decisions and back; `DecisionLists` writes the
  decisions for a block out bin by bin; `ArithMcuEncoder`, `ArithMcuDecoder`, `ArithScan` are the MCU routines with
  restart intervals, up to a round trip of whole scans.

Huffman coding
- `HuffmanCode`, `HuffmanTables`: canonical codes and the derived tables of both coders. `BitStrings`, `HuffmanInput`,
  `HuffmanOutput`: bit buffers in front of stuffed bytes, from a source that may pause at any byte. `HuffmanBlocks`,
  `HuffmanEncoder`, `HuffmanDecoder`, `HuffmanScan`, `HuffmanPasses`: sequential coding, from blocks over MCUs that are
  suspended and restart intervals to whole scans with their tables. `HuffmanRange` says in numbers what can be sent.
- `HuffmanStatistics`, `OptimalTree`, `PseudoSymbol`, `OptimalTable`: gathering statistics and tables from them.
  `OptimizedCoding` puts gathering, table generation, encoding and decoding together.
- `Refinement`, `EobRuns`, `RefinementCoder`, `Suspension`, `RefinementDecoder`, `RefinementScan`: refinement of AC
  coefficients with runs of bands and correction bits that are deferred across blocks, decoding that is suspended and
  started over, and restart intervals.

Control
- `ScanScripts`, `PassControl`: scan scripts and the order of passes. `CompressorContext`, `DecompressorContext`:
  row windows through circular buffers and rearranged pointer lists. `ImageLayout`, `CoefControllers`,
  `WholeImage`: how blocks make up an image and a scan, where MCUs come from, and where every block of the image goes.

`Numbers`, `Sequences`, `Blocks`, `ByteStuffing`, `RestartIntervals` are shared. `Opening` explains how large definitions
are kept closed in proofs.

## Findings

- A DC difference of magnitude above 2 to the power 15, possible between 16-bit coefficients, is encoded by the
  arithmetic encoder without complaint and makes the decoder report corrupt data for the rest of the restart interval.
  The round trip is stated as an equivalence with exactly this condition (`DcComesBack`, `IntervalRoundTrip`,
  `ScanComesBack`); `TooLargeADifference` is the case of the two extreme values.
- The comment on the spacer bits of the C register is right: on overflow the outgoing byte is at most 11F, so the new
  pending byte is never FF, and no carry arrives when nothing but FF bytes is pending (`NextByte`).
- The shift counter of the arithmetic decoder doubles as an error flag with the value -1; no decision leaves it at that
  value by accident (`NotAnError`).
- `emit_restart` and `process_restart` of the arithmetic coder zero the statistics areas but not the fixed bin. That is
  harmless, because state 113 leads only to itself (`ClearedStats`).
- The comment in `jpeg_gen_optimal_table` that a code length above 32 cannot happen is right whenever fewer than 9227464
  symbols are counted (`FewSymbols`). Code lengths are counted in 8-bit counters, which is right exactly as long as no
  length has more than 255 codes (`CountLengths`); a scan has at most 12 DC and 176 AC symbols and at least one of each
  that it needs, so the limit is never reached (`FewUsed`, `CountsAreFit`).
- The comment that the pseudo-symbol 256 is placed last in the largest codeword category is right: it has count 1 and the
  highest number, ties are broken in its favour, and no symbol gets a longer code (`LongestCode`). So the code taken away
  at the end is its own, and lengths up to 16 are those of the merged tree (`LengthsKept`).
- In `decode_mcu_AC_refine` corrections need not be undone on suspension because correcting twice is correcting once,
  inside and outside an end-of-band run; this is what `DecodePatiently` rests on.

## Model

| member | source | states |
|---|---|---|
| ByteStuffing.StuffedHasNoMarker | FreeRDP/src/jchuff.c:326-335 | in stuffed data every FF is followed by a zero byte |
| ByteStuffing.UnstuffStuff | FreeRDP/src/jdarith.c:117-137 | reading stuffed data up to any marker, with any number of fill bytes before it, gives back the data, the marker and the position behind it |
| SegmentSource.Reader.NextByte | FreeRDP/src/jdarith.c:117-137 | the next unstuffed byte of the segment, and zero for ever once its marker has been reached |
| SegmentSource.PausingReader.TryByte | FreeRDP/src/jdhuff.c:482-532 | the next unstuffed byte of the segment, or its marker exactly at the end of the data; or a pause, exactly where it began, only if the segment has not been delivered to its end |
| SegmentSource.PausingReader.NextMarker | FreeRDP/src/jdmarker.c:911-954 | skips to the marker that ends the segment, from anywhere within it; or a pause, only if the segment has not been delivered to its end |
| SegmentSource.PausingReader.ReadRestartMarker | FreeRDP/src/jdmarker.c:1159-1185 | succeeds exactly if the segment ends with the expected restart marker, and then stands at the next segment; may pause, and then nothing of the segment is lost |
| ArithTable.Unpacked | FreeRDP/src/jaricom.c:29-29 | the shifts and masks of the coders recover all four components of a packed state |
| ArithTable.AriTab | FreeRDP/src/jaricom.c:31-153 | the 114 states are a valid table: estimates between 0 and 8000 hex, all successors in the table |
| IntervalCoder.Switch | FreeRDP/src/jcarith.c:246-258 | the new state index is that of the table entry, and the sense of the more probable symbol is exchanged exactly if the entry says so |
| ArithRoundTrip.PrecisionIrrelevant | FreeRDP/src/jdarith.c:156-160 | comparing the code string with a split point at working precision or at any higher precision gives the same answer |
| ArithRoundTrip.InsideSplit | FreeRDP/src/jdarith.c:157-171 | a code string inside one part of a split interval lies inside the whole, and the comparison tells which part |
| ArithRoundTrip.DecodesWhatWasEncoded | FreeRDP/src/jdarith.c:148-181 | from any code string inside the encoder's next interval the decoder returns the encoded bit, conditional exchange included |
| ArithRoundTrip.DecoderFollowsEncoder | FreeRDP/src/jdarith.c:106-182 | for every sequence of decisions and every code string inside the final interval, the decoder returns the same bits and ends with the same statistics bins |
| CarryOutput.ByteStack.FlushWithCarry | FreeRDP/src/jcarith.c:268-283 | a carry is added to the pending number: buffer byte incremented, stacked FF bytes turned into zeros |
| CarryOutput.ByteStack.ByteOut | FreeRDP/src/jcarith.c:265-306 | the bytes committed to, carry included, are those before with the outgoing byte pushed; the buffer is never FF |
| CarryOutput.ByteStack.Terminate | FreeRDP/src/jcarith.c:148-192 | the output is the stuffed form of the pending bytes and the final bytes, with trailing zero bytes removed |
| ArithEncoder.OutgoingByte | FreeRDP/src/jcarith.c:267-283 | on overflow the outgoing value is at most 11F hex, so the new buffer byte cannot be FF |
| ArithEncoder.NoCarryPastTheFront | FreeRDP/src/jcarith.c:268-279 | a carry never arrives when all bytes so far are FF or there are none |
| ArithEncoder.NextByte | FreeRDP/src/jcarith.c:262-310 | moving a byte out of the C register keeps the register bounds and the interval that registers and pending bytes denote together |
| ArithEncoder.Encoder.ArithEncode | FreeRDP/src/jcarith.c:219-311 | the denoted interval and the statistics are those of the ideal encoder, for every bin and bit |
| ArithEncoder.Encoder.FinishPass | FreeRDP/src/jcarith.c:133-193 | the written bytes point into the final interval, and no data byte at the end is zero |
| ArithDecoder.OneRound | FreeRDP/src/jdarith.c:114-146 | each round of input keeps the code register equal to the bytes read less the base of the interval |
| ArithDecoder.Compare | FreeRDP/src/jdarith.c:157-161 | the comparison with the shifted split point decides between the parts of the interval, and the register stays aligned |
| ArithDecoder.Decoder.ArithDecode | FreeRDP/src/jdarith.c:106-182 | bit and state are those of the ideal decoder on the data of the segment, whatever it holds |
| Binarisation.CategoryComesBack | FreeRDP/src/jdarith.c:549-556 | a magnitude category comes back from its decisions if it is below 2 to the power 15, and is reported as overflow otherwise |
| Binarisation.PatternComesBack | FreeRDP/src/jdarith.c:565-569 | the bit pattern below the leading bit comes back |
| Binarisation.DcMagnitudeComesBack | FreeRDP/src/jdarith.c:547-569 | a DC magnitude comes back exactly if it is below 2 to the power 15 |
| Binarisation.AcMagnitudeComesBack | FreeRDP/src/jdarith.c:601-620 | an AC magnitude comes back exactly if it is below 2 to the power 15 |
| McuCoding.DcComesBack | FreeRDP/src/jdarith.c:538-572 | a DC difference comes back exactly if its magnitude is at most 2 to the power 15; otherwise the data is reported corrupt |
| McuCoding.AcComesBack | FreeRDP/src/jdarith.c:582-623 | all AC coefficients up to the end-of-block index come back, in place, and the others stay zero |
| McuCoding.BlockComesBack | FreeRDP/src/jdarith.c:526-624 | a block comes back with the same DC prediction and conditioning category, or is reported corrupt, exactly by the size of its DC difference |
| McuCoding.McusComeBack | FreeRDP/src/jdarith.c:503-627 | the MCUs of a restart interval come back exactly if all DC differences fit |
| McuCoding.NothingLost | FreeRDP/src/jdarith.c:574-623 | what is transmitted is the whole block if it is zero beyond the last coded coefficient |
| DecisionLists.SmallDcListed | FreeRDP/src/jcarith.c:722-754 | the decisions for the DC differences 0, 1 and -1, bin by bin |
| DecisionLists.DcListed | FreeRDP/src/jcarith.c:722-763 | the decisions for all other DC differences, bin by bin: nonzero, sign, not 1, the category from bin 20 on, and the bits below the leading one 14 bins behind its end |
| DecisionLists.ContextBySize | FreeRDP/src/jcarith.c:755-759 | the conditioning category behind a difference by the size of the difference alone: thresholds are half of 2 to the power L for the magnitude less one, and 2 to the power U for the magnitude |
| DecisionLists.SmallCoefListed | FreeRDP/src/jcarith.c:784-812 | the decisions for the coefficients 1, -1, 2 and -2, bin by bin |
| DecisionLists.CoefListed | FreeRDP/src/jcarith.c:784-816 | the decisions for all other coefficients, bin by bin: sign, neither 1 nor 2, the category from bin 189 or 217 on by Kx, and the bits below the leading one 14 bins behind its end |
| DecisionLists.AcListed | FreeRDP/src/jcarith.c:766-822 | the decisions for the AC coefficients place by place: that the block goes on, at the first place and behind nonzero coefficients, whether the coefficient is nonzero, and the coefficient; and at the end that nothing follows, unless the band is full |
| DecisionLists.BlockListed | FreeRDP/src/jcarith.c:715-822 | the decisions for a block: its DC difference with the DC table of the component, then the AC places with its AC table and that table's Kx |
| DecisionLists.PredictionBehind | FreeRDP/src/jcarith.c:723-759 | the prediction behind a block is its DC value, and its category that of the difference |
| ArithSegment.McusInBounds | FreeRDP/src/jcarith.c:715-822 | whatever the coefficients, every DC bin index stays below 64 and every AC bin index below 256 |
| ArithSegment.PlanComesBack | FreeRDP/src/jdarith.c:106-182 | a structured plan of decisions is answered by the decoder from any code string inside its interval |
| ArithSegment.IntervalRoundTrip | FreeRDP/src/jdarith.c:503-627 | from any code string for an interval the decoder rebuilds its first n MCUs exactly if their DC differences fit, for every n |
| ArithMcuEncoder.BinEncoder.EncodeDiff | FreeRDP/src/jcarith.c:722-763 | the decisions coded for a DC difference are those of its plan, and the returned mask is the leading bit of the magnitude less one |
| ArithMcuEncoder.BinEncoder.EncodeAc | FreeRDP/src/jcarith.c:766-822 | the decisions coded for the AC coefficients are those of their plan |
| ArithMcuEncoder.IntervalEncoder.EncodeDc | FreeRDP/src/jcarith.c:722-764 | prediction and conditioning category move as sections F.1.4.4.1 says |
| ArithMcuEncoder.IntervalEncoder.Add | FreeRDP/src/jcarith.c:709-823 | one more MCU joins the interval; coder and predictions are where the MCUs so far lead |
| ArithMcuEncoder.ScanEncoder.EmitRestart | FreeRDP/src/jcarith.c:319-353 | the finished interval is filed with a code string for its MCUs and the right restart marker; then every DC and AC bin, prediction and category is 0, and the fixed bin is in state 113 as before |
| ArithSegment.ClearedStats | FreeRDP/src/jcarith.c:335-350 | zeroing the statistics areas makes every DC and AC bin 0 and leaves the fixed bin alone; since state 113 leads only to itself, all statistics are those of the start |
| ArithMcuEncoder.ScanEncoder.EncodeMcu | FreeRDP/src/jcarith.c:686-826 | the MCU joins the current interval, after a restart exactly if that is full |
| ArithMcuEncoder.ScanEncoder.FinishPass | FreeRDP/src/jcarith.c:133-193 | the output consists of stuffed code strings for all intervals, in order, with restart markers between them |
| ArithMcuDecoder.BinDecoder.DecodeDiff | FreeRDP/src/jdarith.c:538-570 | the difference read is that of the decoding function on any data, and the mask is its leading bit |
| ArithMcuDecoder.BinDecoder.DecodeAc | FreeRDP/src/jdarith.c:582-623 | the block read is that of the decoding function on any data, with the same error cases |
| ArithMcuDecoder.IntervalDecoder.DecodeMcu | FreeRDP/src/jdarith.c:520-627 | one more MCU, or the error flag exactly if the decoding function fails |
| ArithMcuDecoder.IntervalDecoder.NotAnError | FreeRDP/src/jdarith.c:520-520 | as long as no error was found the shift counter is not -1 |
| ArithScan.ScanDecoder.ProcessRestart | FreeRDP/src/jdarith.c:190-222 | exactly if the marker is the expected one the next segment is entered, with every DC and AC bin, prediction and category 0 and the fixed bin in state 113 |
| ArithScan.ScanDecoder.DecodeMcu | FreeRDP/src/jdarith.c:503-627 | restart bookkeeping, and nothing but reported corruption until the next restart after an error |
| RestartIntervals.PlaceMeans | FreeRDP/src/jcarith.c:697-705 | place in the scan is interval number times interval length plus place in the interval |
| RestartIntervals.ScanRead | FreeRDP/src/jdmarker.c:1159-1185 | a source that holds a written scan gives back every code string with its restart marker |
| ArithScan.ScanComesBack | FreeRDP/src/jdarith.c:503-627 | every MCU of a written scan comes back, or is reported corrupt, exactly by the DC differences of its interval up to it; no restart marker is missed |
| ArithScan.EncodeScan | FreeRDP/src/jcarith.c:686-826 | a whole scan through the encoder: intervals in order, each MCU in its place |
| ArithScan.DecodeScan | FreeRDP/src/jdarith.c:503-627 | a whole scan through the decoder is the decoding function, MCU by MCU, as long as restart markers are in sync |
| ArithScan.EncodeThenDecode | FreeRDP/src/jdarith.c:503-627 | for every table, scan, restart interval and MCU sequence, the encoder's bytes followed by fill bytes, any marker and anything decode to what was encoded |
| ArithScan.TooLargeADifference | FreeRDP/src/jdarith.c:552-557 | the DC values -8000 and then 7FFF hex: the encoder takes both, and the second one is reported corrupt |
| ArithDecisions.EncodeThenDecode | FreeRDP/src/jcarith.c:132-311 | for every sequence of decisions from any valid statistics, the bytes followed by fill bytes, any marker and anything make the decoder return the same bits and end with the same statistics bins |
| HuffmanCode.InOrder | FreeRDP/src/jchuff.c:206-221 | codes are disjoint intervals in increasing order, as are their positions in the symbol list |
| HuffmanCode.NotAllOnes | FreeRDP/src/jchuff.c:214-218 | no code of an accepted table is all ones |
| HuffmanCode.PrefixFree | FreeRDP/src/jchuff.c:203-221 | no code is a prefix of another one |
| HuffmanCode.EndsIsCode | FreeRDP/src/jdhuff.c:609-627 | at the first length at which the bits read are below the limit they are a code |
| HuffmanCode.LookupExact | FreeRDP/src/jdhuff.c:592-627 | the search from length 1 finds a code exactly if the stream continues with it |
| HuffmanTables.CodeSizes | FreeRDP/src/jchuff.c:190-201 | code lengths of all listed symbols; fails exactly if there are more than 256 |
| HuffmanTables.Codes | FreeRDP/src/jchuff.c:203-221 | canonical codes of all listed symbols; fails exactly if the Kraft sum does not leave the all-ones code free |
| HuffmanTables.AcceptedInNumbers | FreeRDP/src/jchuff.c:190-221 | counts are accepted exactly if there are at most 256 codes, and they take at most 65535 of the 65536 values of 16 bits |
| HuffmanTables.EnterCodes | FreeRDP/src/jchuff.c:223-245 | codes by symbol; fails exactly on a symbol out of range or listed twice |
| HuffmanTables.MakeEncoderTable | FreeRDP/src/jchuff.c:161-246 | accepts exactly the valid tables, and gives each listed symbol its code and no other symbol any |
| HuffmanTables.SerialTables | FreeRDP/src/jdhuff.c:387-402 | maximum code and offset for each length |
| HuffmanTables.LookaheadTables | FreeRDP/src/jdhuff.c:404-425 | the entry for eight bits is the code they begin with, if there is one of at most eight bits, and empty otherwise |
| HuffmanTables.MakeDecoderTable | FreeRDP/src/jdhuff.c:323-440 | accepts exactly the tables with a fitting code (and DC symbols up to 15), and fills all derived tables for them |
| HuffmanInput.TakeBits | FreeRDP/src/jdhuff.c:141-145 | taking bits off the buffer gives the next bits of the stream and leaves the others |
| HuffmanInput.PutBits | FreeRDP/src/jdhuff.c:534-535 | shifting in a byte in a 32-bit buffer keeps the buffered bits the next ones of the stream |
| HuffmanInput.LookaheadRight | FreeRDP/src/jdhuff.c:168-188 | a filled lookahead entry is what bit-serial decoding finds; an empty one means that the code is longer |
| HuffmanInput.SerialRight | FreeRDP/src/jdhuff.c:592-627 | the search by limits and offsets, stopped at the first length within its limit, finds exactly the symbol that the stream continues with |
| HuffmanInput.BitReader.Fill | FreeRDP/src/jdhuff.c:465-562 | the buffer holds the next bits of the segment, zeros behind its end; the flag for missing data is set exactly when such zeros are asked for; it fails only if the source has paused inside the segment |
| HuffmanInput.BitReader.GetBits | FreeRDP/src/jdhuff.c:135-145 | the next n bits of the segment, with zeros behind its end |
| HuffmanInput.BitReader.SlowDecode | FreeRDP/src/jdhuff.c:592-627 | bit-serial decoding gives the symbol whose code comes next, or 0 after 17 bits, on any data, and stays inside the symbol list |
| HuffmanInput.BitReader.HuffDecode | FreeRDP/src/jdhuff.c:168-188 | lookahead decoding has the same result and position as bit-serial decoding from length 1, on any data |
| HuffmanInput.BitReader.Rewind | FreeRDP/src/jdhuff.c:104-109 | after a pause the bit buffer, its fill and the place in the source are those saved last, and with them the position in the bit stream |
| HuffmanInput.BitReader.Restart | FreeRDP/src/jdhuff.c:636-674 | the next segment is entered with an empty buffer exactly if the marker is the expected one; on a pause the position is that saved last |
| HuffmanOutput.AddBits | FreeRDP/src/jchuff.c:318-324 | masking, aligning and merging appends the bits to the left-justified buffer |
| HuffmanOutput.BitWriter.EmitBits | FreeRDP/src/jchuff.c:307-341 | the bits sent so far are extended by the code; at most seven stay in the buffer; length 0 is refused |
| HuffmanOutput.BitWriter.FlushBits | FreeRDP/src/jchuff.c:386-393 | the bytes of the segment hold all bits sent, and ones up to the next byte boundary |
| HuffmanBlocks.SymbolComesBack | FreeRDP/src/jdhuff.c:168-188 | the code of any symbol that has one is decoded to that symbol |
| HuffmanBlocks.ExtendExtra | FreeRDP/src/jdhuff.c:566-584 | a value is recovered from its number of bits and its extra bits |
| HuffmanBlocks.AcComesBack | FreeRDP/src/jdhuff.c:1240-1263 | run-length coded AC coefficients come back, runs above 15 and end of block included |
| HuffmanBlocks.BlockComesBack | FreeRDP/src/jdhuff.c:1218-1291 | a block comes back with its DC value, and the position is exactly behind its bits |
| HuffmanBlocks.McusComeBack | FreeRDP/src/jdhuff.c:1212-1293 | the MCUs of a restart interval come back |
| HuffmanBlocks.CountedAreCodable | FreeRDP/src/jchuff.c:314-316 | if every symbol that is counted has a code, no code of length 0 is ever used |
| HuffmanEncoder.LowNegative | FreeRDP/src/jchuff.c:929-934 | two's complement: the low n bits of a negative number |
| HuffmanEncoder.ExtraAsCode | FreeRDP/src/jchuff.c:952-956 | the low bits of v, or of v - 1 if v is negative, are the extra bits of v |
| HuffmanEncoder.ItemWriter.EncodeAc | FreeRDP/src/jchuff.c:958-1005 | the items written are the run-length coding of the block; fails exactly on a value out of range or a symbol without a code |
| HuffmanEncoder.ItemWriter.EncodeOneBlock | FreeRDP/src/jchuff.c:916-1008 | the items written are those of the block; fails exactly on a value out of range or a symbol without a code |
| HuffmanRange.BlockRange | FreeRDP/src/jchuff.c:929-988 | a block is in range exactly if every coded AC value has magnitude at most 1023 and its DC difference magnitude at most 2047 |
| HuffmanRange.LastBefore | FreeRDP/src/jchuff.c:1034-1045 | the prediction of a component is the DC value of its last block before |
| HuffmanRange.PredictionsFollow | FreeRDP/src/jchuff.c:490-505 | predictions go on from MCU to MCU, and are zero at the start of every restart interval |
| HuffmanRange.ScanRange | FreeRDP/src/jchuff.c:929-988 | a scan can be written exactly if all its values are in range, in numbers, and all its symbols have codes; the gathering pass asks for the range alone |
| HuffmanEncoder.McuWriter.EncodeMcu | FreeRDP/src/jchuff.c:1034-1045 | one more MCU joins the restart interval, or the encoder stops exactly if it cannot be written |
| HuffmanEncoder.McuWriter.Finish | FreeRDP/src/jchuff.c:1073-1104 | the data of the segment are the bits of all items, padded with ones |
| HuffmanStatistics.ItemCounter.CountBlock | FreeRDP/src/jchuff.c:1122-1188 | counts exactly the symbols that the encoder writes for the block, and fails on the same blocks for their range |
| HuffmanStatistics.McuCounter.GatherMcu | FreeRDP/src/jchuff.c:1197-1225 | fails exactly on an MCU out of range behind the others of its interval; the symbols counted are those of all MCUs, with predictions reset at restart intervals |
| HuffmanStatistics.GatheredIsWritable | FreeRDP/src/jchuff.c:1197-1225 | with tables that have codes for all counted symbols, every MCU that went through the gathering pass can be written, in every restart interval |
| HuffmanStatistics.ListedCovers | FreeRDP/src/jchuff.c:1397-1441 | a table that lists all symbols with nonzero counts has codes for them |
| HuffmanDecoder.McuReader.DecodeAc | FreeRDP/src/jdhuff.c:1240-1263 | the block read is that of the decoding function, on any data, with all writes inside the block; after a pause there is nothing to undo |
| HuffmanDecoder.McuReader.DecodeMcu | FreeRDP/src/jdhuff.c:1203-1297 | within a restart interval: one more MCU by the decoding function, or zeros once the data has run out; a pause leaves predictions and bit state as they were, and does not happen once the whole segment has been delivered |
| HuffmanDecoder.LeftZero | FreeRDP/src/jdhuff.c:1203-1207 | once bits behind the end of the data have been used, every coefficient of the MCUs that follow is zero |
| HuffmanDecoder.IntervalRoundTrip | FreeRDP/src/jdhuff.c:1212-1293 | from one-padded data both sides of which use the same tables, the first n MCUs come back without reading past the data |
| HuffmanScan.ScanWriter.EncodeMcu | FreeRDP/src/jchuff.c:1016-1065 | the MCU joins the current interval, after a restart marker exactly if that is full; fails exactly if it cannot be written |
| HuffmanScan.EncodeScan | FreeRDP/src/jchuff.c:1016-1104 | a whole scan through the encoder: fails exactly on an MCU that cannot be written; otherwise the intervals in order, each MCU in its place, with restart markers between the stuffed segments |
| HuffmanScan.ScanReader.DecodeMcu | FreeRDP/src/jdhuff.c:1187-1302 | restart bookkeeping under suspension: a restart is passed once, however often the call is repeated, and the MCU is that of the decoding function |
| HuffmanScan.DecodeScan | FreeRDP/src/jdhuff.c:1187-1302 | a whole scan through the decoder, with a source that pauses anywhere, is the decoding function, as long as restart markers are in sync |
| HuffmanScan.ScanComesBack | FreeRDP/src/jdhuff.c:1187-1302 | every MCU of a written scan comes back, and no restart marker is missed |
| HuffmanPasses.StartEncoder | FreeRDP/src/jchuff.c:1489-1538 | fails exactly if a table that a component of the scan names is missing or not accepted |
| HuffmanPasses.StartDecoder | FreeRDP/src/jdhuff.c:1423-1440 | fails exactly if a table that a component of the scan names is missing or not accepted; AC tables are not needed without AC coefficients |
| HuffmanPasses.EncodeThenDecode | FreeRDP/src/jdhuff.c:1187-1302 | for all tables, scans, restart intervals and MCU sequences encoding fails exactly on a table not accepted, an AC value above 1023 or a DC difference above 2047 in magnitude, or a symbol without a code; otherwise the bytes, with fill bytes, any marker and anything behind them, decode to what was encoded, however the source delivers them |
| OptimalTree.FindLeast | FreeRDP/src/jchuff.c:1284-1302 | the smallest nonzero count, the last of equal ones |
| OptimalTree.Lengthen | FreeRDP/src/jchuff.c:1312-1326 | exactly the symbols of one tree get longer codes, and the end of their chain is found |
| OptimalTree.MergedOk | FreeRDP/src/jchuff.c:1308-1326 | merging two trees keeps every chain complete and every Kraft sum 1, keeps the total count, and leaves one tree less |
| OptimalTree.CodeLengthsNeed | FreeRDP/src/jchuff.c:1273-1327 | a code length of n takes a total count of at least a Fibonacci number |
| OptimalTree.BuildTree | FreeRDP/src/jchuff.c:1273-1327 | ends with one tree: Kraft sum 1, code lengths for exactly the used symbols, and those that merging the two rarest trees again and again leads to |
| PseudoSymbol.LongestCode | FreeRDP/src/jchuff.c:1268-1272 | no symbol gets a longer code than the pseudo-symbol with count 1 and number 256 |
| OptimalTable.CountLengths | FreeRDP/src/jchuff.c:1329-1339 | fails exactly on a length above 32; the 8-bit counters hold a complete code exactly if no length has more than 255 codes |
| OptimalTable.Pairs | FreeRDP/src/jchuff.c:1353-1356 | the longest codes come in pairs, and there are codes shorter by at least two |
| OptimalTable.ShortenedComplete | FreeRDP/src/jchuff.c:1358-1361 | the step keeps Kraft sum and number of codes |
| OptimalTable.LimitLengths | FreeRDP/src/jchuff.c:1352-1363 | ends with a complete code of lengths up to 16 with the same number of codes, by taking two of the greatest length at a time and the longest code that is shorter by at least two |
| OptimalTable.RemovePseudo | FreeRDP/src/jchuff.c:1365-1368 | the greatest length in use loses one code and no other length does; the Kraft sum leaves the all-ones code free |
| OptimalTable.ListSymbols | FreeRDP/src/jchuff.c:1373-1385 | all symbols with codes, once each, in order of code length and number, each among those of its length |
| OptimalTable.LengthsKept | FreeRDP/src/jchuff.c:1365-1385 | if no length exceeds 16, the code taken away is that of the pseudo-symbol, and every symbol keeps its length |
| OptimalTable.GenOptimalTable | FreeRDP/src/jchuff.c:1256-1389 | fails exactly if merging leads to a code length above 32; otherwise the encoder accepts the table, it has codes for exactly the symbols with nonzero counts, listed by merged length and number, and its counts are those of the merged lengths, limited, less one of the greatest; if no merged length exceeds 16, every symbol has a code of exactly that length |
| OptimalTable.FewSymbols | FreeRDP/src/jchuff.c:1330-1337 | below 9227464 symbols no distribution leads to a code length above 32 |
| OptimizedCoding.FewUsed | FreeRDP/src/jchuff.c:1122-1188 | at most 12 DC symbols and 176 AC symbols can be counted |
| OptimizedCoding.CountsAreFit | FreeRDP/src/jchuff.c:1397-1441 | the counts of a gathering pass over at least one MCU meet what table generation asks: between 1 and 254 used symbols in each table that is named |
| OptimizedCoding.MakeTables | FreeRDP/src/jchuff.c:1397-1441 | each named table is made once; fails exactly if some code length exceeds 32 |
| OptimizedCoding.NothingMissing | FreeRDP/src/jchuff.c:314-316 | with the tables made from the counts of the gathering pass no MCU of the scan meets a symbol without a code |
| OptimizedCoding.EncodeOptimized | FreeRDP/src/jchuff.c:1197-1441 | gathering, table generation, output and decoding as a whole: fails exactly on an AC value above 1023 or a DC difference above 2047 in magnitude, or on a merged code length above 32, which takes more than nine million symbols; otherwise every MCU comes back |
| Refinement.Corrected | FreeRDP/src/jdhuff.c:984-993 | a correction bit takes a coefficient from precision Al + 1 to precision Al |
| Refinement.RunLength | FreeRDP/src/jdhuff.c:967-975 | a run length comes back from its symbol and extra bits, which are at most 14 |
| Refinement.CorrectRefines | FreeRDP/src/jdhuff.c:1016-1029 | in the rest of a band without newly nonzero coefficients the correction bits do all the work |
| Refinement.AdvanceRefines | FreeRDP/src/jdhuff.c:982-999 | advancing over r zeros stops exactly at the coefficient meant, with corrections applied on the way |
| Refinement.ZrlPlace | FreeRDP/src/jchuff.c:844-855 | when sixteen zeros are coded, all buffered correction bits belong before the sixteenth |
| Refinement.FlushWorks | FreeRDP/src/jdhuff.c:1010-1032 | an end-of-band run with deferred correction bits makes the decoder refine all blocks of the run |
| Refinement.BandWorks | FreeRDP/src/jchuff.c:834-894 | what is written from any point of a block on makes the decoder refine everything from the pending run on |
| Refinement.RefinementRoundTrip | FreeRDP/src/jdhuff.c:923-1037 | any sequence of bands is refined from precision Al + 1 to Al, and the decoder stops where the written bits end |
| EobRuns.QuietBand | FreeRDP/src/jchuff.c:885-894 | a band without newly nonzero coefficients joins the run, which is written at once exactly if it has 32767 bands then or more than 937 correction bits |
| EobRuns.OneItem | FreeRDP/src/jchuff.c:459-482 | up to 32767 such bands with at most 937 correction bits are one symbol, 16 times the number of bits of their number below the leading one, these bits, and the correction bits |
| EobRuns.LongRun | FreeRDP/src/jchuff.c:885-894 | after 32767 such bands a new run begins |
| RefinementCoder.RefineEncoder.EmitEobrun | FreeRDP/src/jchuff.c:459-482 | a pending run and its correction bits are written; more than 14 bits are never needed |
| RefinementCoder.RefineEncoder.BufferBit | FreeRDP/src/jchuff.c:862-866 | a correction bit is buffered, always within the 1000 places of the buffer |
| RefinementCoder.RefineEncoder.EndBand | FreeRDP/src/jchuff.c:885-894 | between blocks the run is below 7FFF hex, at most 937 correction bits are buffered, and none without a run |
| RefinementCoder.RefineEncoder.EncodeMcu | FreeRDP/src/jchuff.c:806-894 | the items written and those still to come make up the coding of all bands; fails only if that needs a symbol without a code |
| RefinementCoder.RefineEncoder.Finish | FreeRDP/src/jchuff.c:1073-1087 | the data hold the coding of all bands, padded with ones |
| RefinementScan.RefineScanEncoder.EncodeMcu | FreeRDP/src/jchuff.c:786-910 | the band joins the current interval, after a restart exactly if that is full; the pending run is written before the marker |
| RefinementDecoder.RefineDecoder.DecodeMcu | FreeRDP/src/jdhuff.c:919-1049 | block, position and run are those of the decoding function, on any data and also inside an end-of-band run; on a pause bit state and run are as before, and the block, with new coefficients undone and corrections kept, still leads to the same outcome; there is no pause once the whole segment has been delivered |
| Suspension.AdvanceAgain | FreeRDP/src/jdhuff.c:982-999 | an advance, done again on its own result, changes nothing, whatever stands behind the place where it stopped |
| RefinementDecoder.RefineDecoder.CorrectFrom | FreeRDP/src/jdhuff.c:1010-1029 | the corrections of a block inside an end-of-band run can be interrupted anywhere: from the partly corrected block they lead to the same result |
| RefinementDecoder.RefineDecoder.DecodePatiently | FreeRDP/src/jdhuff.c:904-1050 | however often and wherever the source pauses the decoder finishes, with the block, position and run of an uninterrupted decoding |
| RefinementScan.DecodeScan | FreeRDP/src/jdhuff.c:904-1050 | a whole refinement scan, with a source that pauses anywhere, is the decoding function, band by band, as long as restart markers are in sync |
| RefinementScan.EncodeThenDecode | FreeRDP/src/jdhuff.c:904-1050 | for every restart interval, and however the source delivers the bytes, encoding and decoding a refinement scan takes every coefficient v from its sign and magnitude without the low Al + 1 bits to the same without the low Al bits; encoding fails exactly on a table not accepted or a symbol without a code |
| ScanScripts.CheckComponents | FreeRDP/src/jcmaster.c:397-408 | accepts exactly one to four components of the image in increasing order |
| ScanScripts.CheckScan | FreeRDP/src/jcmaster.c:409-454 | accepts exactly a scan that continues what was sent, and notes the new bit positions |
| ScanScripts.ValidateScript | FreeRDP/src/jcmaster.c:358-489 | accepts exactly the acceptable scripts, sequential or progressive as the first scan tells |
| ScanScripts.EachBitOnce | FreeRDP/src/jcmaster.c:438-454 | in an accepted script every bit plane of every coefficient down to the last position is sent exactly once, the others never |
| ScanScripts.DcFirst | FreeRDP/src/jcmaster.c:440-441 | no AC coefficient is sent before the DC coefficient of its component |
| ScanScripts.SequentialSendsAll | FreeRDP/src/jcmaster.c:456-488 | an accepted sequential script sends every bit of every coefficient of every component exactly once |
| ScanScripts.DecoderAgrees | FreeRDP/src/jdhuff.c:1316-1356 | every scan of an accepted script passes the decoder's progression check without error or warning, for every block size whose coefficients the script stays within |
| ScanScripts.StartPass | FreeRDP/src/jdhuff.c:1316-1356 | the decoder's check is content exactly under its conditions, for components in any order and any block size, and tracks the bit positions |
| ScanScripts.Replay | FreeRDP/src/jdhuff.c:1316-1356 | replaying an accepted script raises neither error nor warning, for every block size whose coefficients it stays within |
| ScanScripts.FillDcScans | FreeRDP/src/jcparam.c:531-550 | one interleaved scan for up to four components, otherwise one for each |
| ScanScripts.SimpleProgression | FreeRDP/src/jcparam.c:559-630 | the scans are those recommended, one by one, for luminance and chrominance and for any number of components; the script has the announced length, is accepted, and sends every coefficient down to its last bit |
| ScanScripts.ReduceScript | FreeRDP/src/jcmaster.c:493-522 | in-place compaction is filtering and clamping, and touches nothing behind the script |
| ScanScripts.ReducedLast | FreeRDP/src/jcmaster.c:493-522 | coefficients inside the smaller block reach the same bit positions |
| ScanScripts.ReducedGood | FreeRDP/src/jcmaster.c:493-522 | a reduced script still continues properly from scan to scan |
| PassControl.StoryIsRight | FreeRDP/src/jcmaster.c:665-739 | in the story of all scans each is output once with one header, has a statistics pass exactly if optimising and not a DC refinement, and there is one frame header |
| PassControl.StoryInOrder | FreeRDP/src/jcmaster.c:665-739 | the frame header stands before every scan header and all data, each scan header just before the data of its scan, statistics before them, and scans follow one another |
| PassControl.Master.PrepareForPass | FreeRDP/src/jcmaster.c:665-739 | the scan in force is the current one, headers are written in output passes only, and DC refinements skip their statistics pass |
| PassControl.Master.RunPass | FreeRDP/src/jcapimin.c:168-183 | each pass advances the story by one step, and the last pass is recognised |
| PassControl.Compress | FreeRDP/src/jcapimin.c:155-189 | compression and transcoding tell the story of all scans in order and end with as many passes as announced |
| CompressorContext.SeesWindow | FreeRDP/src/jcprepct.c:286-304 | through the wraparound pointers every offset shows the clamped image row |
| CompressorContext.CreateContextBuffer | FreeRDP/src/jcprepct.c:262-308 | the pointer list filled by the loops shows the buffer in the middle, its last row group above and its first below |
| CompressorContext.PrepController.ExpandBottomEdge | FreeRDP/src/jcprepct.c:106-115 | the bottom is padded with copies of the last row, also across the wraparound |
| CompressorContext.PrepController.PreProcess | FreeRDP/src/jcprepct.c:197-261 | for every chunking of the input the g-th row group is seen with a full row group of clamped context on either side |
| CompressorContext.SeeImage | FreeRDP/src/jcprepct.c:197-261 | for every image height, row group height and chunking at least all row groups of the image are seen, in order, and offset i of row group g shows row g * rg - rg + i, clamped to the image |
| DecompressorContext.MakeFunnyPointers | FreeRDP/src/jdmainct.c:195-234 | the two pointer lists show the workspace in plain and in swapped order |
| DecompressorContext.SetWraparound | FreeRDP/src/jdmainct.c:238-262 | the ends of a list show its last and its first row group |
| DecompressorContext.SetBottom | FreeRDP/src/jdmainct.c:266-299 | two row groups of pointers behind the last real row repeat it |
| DecompressorContext.NextKept | FreeRDP/src/jdmainct.c:391-398 | reading the next iMCU row through the other list overwrites no row that is still needed |
| DecompressorContext.MiddleView | FreeRDP/src/jdmainct.c:428-434 | row groups inside an iMCU row are seen with clamped rows above and below |
| DecompressorContext.PostponedView | FreeRDP/src/jdmainct.c:406-412 | the postponed row group is seen with the first row of the next iMCU row below |
| DecompressorContext.BottomView | FreeRDP/src/jdmainct.c:417-434 | row groups at the bottom are seen with the last row repeated |
| DecompressorContext.MainController.ProcessData | FreeRDP/src/jdmainct.c:385-447 | row groups are seen in order, once each, with their context; a call that has input, and from which anything is taken, delivers at least one row group |
| DecompressorContext.OutputImage | FreeRDP/src/jdmainct.c:385-447 | for every pattern of input and consumption, exactly the row groups with real rows are seen, in order, once each, and offset o of row group k shows row k * q - 1 + o, clamped to the image |
| ImageLayout.InitialSetup | FreeRDP/src/jcmaster.c:220-333 | fails exactly on a size outside 1 to 65500, a block size outside 1 to 16, a number of components outside 1 to 10 or a factor outside 1 to 4; otherwise gives the size of every component in blocks |
| WholeImage.Across | FreeRDP/src/jcmaster.c:278-321 | a component with the greatest horizontal factor has one block for every blockSize samples of the width, rounded up, and the others in proportion to their factors; an MCU takes as many samples as the greatest factor has blocks |
| WholeImage.Down | FreeRDP/src/jcmaster.c:278-321 | the same for the height and the vertical factors |
| ImageLayout.PlaneFits | FreeRDP/src/jcmaster.c:312-321 | for every image size and all legal sampling factors the blocks of a component fill all iMCUs but the last one in each direction, and reach into that |
| ImageLayout.ScanFits | FreeRDP/src/jcmaster.c:572-638 | every choice of components, one or several, gives a scan whose MCUs fit the image |
| ImageLayout.PerScanSetup | FreeRDP/src/jcmaster.c:572-638 | fails exactly on a wrong number of components or too many blocks in an MCU; the numbers are those of the scan, and each block of an MCU is assigned to its component |
| CoefControllers.OnePassMcu | FreeRDP/src/jccoefct.c:143-222 | an MCU of the one-pass controller is the specified one, dummy blocks included, and blkn - 1 is always in range |
| CoefControllers.FirstPassStrip | FreeRDP/src/jccoefct.c:248-328 | the virtual array of a component, made once for the image, holds whole rows of iMCUs with the specified dummy blocks at the right and bottom |
| CoefControllers.CutOut | FreeRDP/src/jccoefct.c:372-385 | the blocks of an MCU row of any scan, interleaved or not, stand together in the virtual array made for the image |
| CoefControllers.OutputMcu | FreeRDP/src/jccoefct.c:345-400 | an MCU of any scan, interleaved or not, cut out of the virtual arrays made once for the image is the specified one |
| CoefControllers.TranscodeMcu | FreeRDP/src/jctrans.c:271-345 | an MCU of the transcoder is the specified one |
| CoefControllers.CoefController.CompressData | FreeRDP/src/jccoefct.c:143-222 | the MCUs handed over are those specified, in order; an unfinished call has handed over exactly as many as the entropy coder accepted |
| CoefControllers.McuSize | FreeRDP/src/jcmaster.c:625-633 | an MCU has as many blocks as its components have together, which fit into MCU_buffer |
| CoefControllers.CoefController.RunPass | FreeRDP/src/jccoefct.c:346-400 | a pass hands over all MCUs of its scan, however often the entropy coder suspends it, and saves the virtual arrays in the first pass only |
| CoefControllers.CompressImage | FreeRDP/src/jccoefct.c:143-400 | for every legal image, every list of scans and every pattern of suspension all three controllers hand over the same MCU sequence in each scan |
| WholeImage.SingleScan | FreeRDP/src/jcmaster.c:577-604 | in a scan of one component every block of the component is an MCU, in raster order |
| WholeImage.InterleavedScan | FreeRDP/src/jccoefct.c:143-222 | in an interleaved scan MCUs stand in raster order and hold, row by row, v rows of h blocks of each component; blocks outside the image have no AC values and the DC value of the last block inside |

## Left out

- Progressive modes of the arithmetic coder (DC and AC first scans and refinements): the decisions differ, the coder and
  the proofs about it are the same.
- Huffman DC first scans, DC refinement scans and AC first scans: they use parts of what is modelled for the sequential
  mode and for AC refinement, and add nothing harder. Statistics are modelled for the sequential mode.
- SegmentSource.PausingReader.ReadRestartMarker: `resync_to_restart` after a wrong marker is not modelled; a scan is
  followed up to the first marker that is not the expected one. The same holds for HuffmanInput.BitReader.Restart,
  ArithScan.ScanDecoder.ProcessRestart and all members about whole scans.
- HuffmanBlocks.McusComeBack, HuffmanEncoder.McuWriter.EncodeMcu, HuffmanDecoder.McuReader.DecodeMcu,
  HuffmanDecoder.IntervalRoundTrip and the members of RefinementCoder and RefinementDecoder: one restart interval;
  HuffmanScan and RefinementScan add the restarts.
- HuffmanDecoder.McuReader.DecodeMcu: MCUs are values, so the caller's zeroed blocks, which a suspended call leaves partly
  written and which are written again, are not modelled.
- OptimalTable.GenOptimalTable: optimality of the code is not stated, only that it is a complete prefix code for the used
  symbols. It is stated for 1 to 254 used symbols, which is all that statistics can give.
- OptimizedCoding.EncodeOptimized: counts are unbounded numbers, for at most 1000000000 / 64 blocks in a scan, so that no
  count passes the limit of the search for the rarest tree.
- RefinementDecoder.RefineDecoder.DecodeMcu: blocks are bands in zigzag order; the mapping to natural order, and a write
  behind the band that corrupt data can cause there, are not captured. RefinementScan.EncodeThenDecode has the same bands.
- Suspension of the encoders' output. Behind its end the data source supplies a fake EOI marker again and again, as
  jdatasrc.c does.
- Reduced resolution in the Huffman decoder (coef_limit below the block size): all coefficients are stored.
- CoefControllers.CompressImage: the DCT is a given function from block positions to blocks, and the memory manager a
  sequence.
- ImageLayout.InitialSetup: DCT scaling of components, and sizes in samples, are not modelled; the restart interval of
  per_scan_setup is a parameter of the entropy coders.
- CompressorContext.PrepController.PreProcess: columns are not modelled; a row is represented by its number. The same
  holds for DecompressorContext.MainController.ProcessData.
- PassControl.Master.PrepareForPass: headers and passes are events in a log; what the modules do in a pass is modelled
  elsewhere.
- Arithmetic conditioning tables and all sixteen statistics areas are taken to be allocated; table 0 to 15 and a
  conditioning index up to 16 are what start_pass provides.
- Colour conversion, sampling, DCT, quantisation, marker segments, memory management, the applications and the scripts
  around the library.
