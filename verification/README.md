# Verification of the JPEG codec and of the badge lockdown

This project models the hardest parts of the repository in Dafny and proves properties of the models. Most of it is about
`components/libjpeg`, an implementation of ITU-T T.81 (ISO/IEC 10918-1); one part is about the lockdown procedure of
`tools/provision.py`.

`dafny verify dfyconfig.toml` verifies all of it.

| area | modules |
|---|---|
| bytes, bits, integers, coefficients | `Words`, `Integers`, `BitStrings`, `ByteStuffing`, `Coefficients` |
| restart markers | `Restarts` |
| arithmetic coder (T.81, sections D.1 and D.2) | `ArithTable`, `ArithModel` (the ideal coder on unbounded integers), `ArithShortest`, `ArithEncoder`, `ArithDecoder`, `ArithRoundTrip` |
| arithmetic-coded MCUs (T.81, sections F.1.4 and F.2.4) | `ArithBinarization`, `ArithFigures`, `ArithAreas`, `ArithMcuEncoder`, `ArithMcuDecoder`, `ArithMcuRoundTrip` |
| Huffman tables and bits (T.81, Annex C) | `HuffTables`, `HuffDerived`, `HuffBitWriter`, `HuffBitReader`, `HuffDecode`, `HuffTokens` |
| sequential Huffman scans (T.81, sections F.1.2 and F.2.2) | `HuffBlocks`, `HuffFigures`, `HuffBlockEncoder`, `HuffReader`, `HuffBlockDecoder`, `HuffRoundTrip` |
| optimal tables (T.81, section K.2) | `CodeLengths`, `HuffMerging`, `HuffSorting`, `HuffLimiting`, `HuffOptimal`, `HuffBest` |
| statistics passes | `HuffCounts`, `HuffSizes`, `HuffSink`, `HuffGeneration`, `HuffStatistics`, `DcStatistics`, `AcFirstStatistics`, `RefineStatistics` |
| progressive scans (T.81, section G.1) | `DcScans`, `DcRoundTrip`; `AcFirst`, `AcFirstEncoder`, `AcFirstDecoder`, `AcFirstRoundTrip`; `RefineDecoding`, `RefineDecoder`, `RefineEncoding`, `RefineFigures`, `RefineStream`, `RefineEncoder`, `RefineRoundTrip` |
| whole progressive images | `ImagePlaces`, `ProgressiveBlocks`, `ProgressiveImage`, `OptimizedImage` |
| buffer controllers | `ContextRows`, `ContextMain`; `McuStream`, `ScanOrder`, `CoefBlocks`, `CoefSinglePass`, `CoefTranscode`, `CoefMultiPass`, `CoefAgreement`; `PrepContext`, `PrepMain` |
| scan scripts and passes | `ScanScripts`, `ScriptValidation`, `ScriptDecoding`, `ScriptGeneration`, `PassControl` |
| lockdown | `Lockdown`, `LockdownRuns` |

Objects that the C code updates in place are classes with the same fields; ghost fields beside them record the ideal
state, such as the list of decisions coded so far or the bits taken from the segment. Registers have their real widths:
32-bit bit buffers with wrap-around, 16-bit coefficients, 8-bit counts of code lengths, and the 28-bit code register with
its floating cut point. Loops of the C code are loops here; specifications such as the ideal coder, the canonical code,
the symbols of a scan and the MCU stream of a picture are functions.

A few conventions run through the project. `Follows(data, c, ds)` says that data, read as a binary fraction, codes the
decisions ds from coder state c. `Spell(books, toks)` is the bit string of a list of symbols and raw bits; a `Fault`
among them stands for a coefficient that is too large, and `AllCoded` says that there is none and that every symbol
has a code. `Segment(src, pos)` is the unstuffed data from a position to the next marker, and `Landing(src, pos)` that
marker. `Limitable(counts)` says that no optimal code length for the counts exceeds 32, and `Searchable(counts)` that
no merge on the way to them needs a weight above 10^9. Past the end of the source the source managers supply FF D9 for
ever, and so does `SourceByte`.

## Model

| member | source | states |
|---|---|---|
| `ArithTable.RowMeans` | components/libjpeg/jaricom.c:29-31 | For every bin, the packed table entry of its state gives the size of the less probable part, the next state after either symbol and, after the less probable one, whether the two change roles. |
| `ArithModel.LargerPart` | components/libjpeg/jcarith.c:240-261 | Whatever the interval and the bin: it is divided into a lower part and an upper one of size Qe, and the more probable symbol gets the larger of the two, the lower one if they are equal. |
| `ArithModel.DecisionMeans` | components/libjpeg/jcarith.c:219-313 | Stated of one whole decision, after renormalization: the division, which symbol gets which part, and that the bin adapts after the less probable symbol, and after the other one exactly if its part has to be renormalized. |
| `ArithModel.RenormIs` | components/libjpeg/jcarith.c:262-312 | Renormalization doubles base and size as often as it takes to bring the size up to 0x8000, and no more. |
| `ArithModel.FixedBinStays` | components/libjpeg/jaricom.c:146-153 | A bin that starts with the estimate for probability one half keeps it through every run of decisions, so the fixed bin never adapts. |
| `ArithEncoder.Encoder.Encode` | components/libjpeg/jcarith.c:219-313 | After every decision, the bytes written (unstuffed), the postponed zeros, the held byte, the stacked FFs and the registers together denote exactly the ideal interval of all decisions so far; the held byte is never FF, the registers keep their layout (`c + a <= 2^(27-ct) + 2^(24-ct)`), and bytes already written are never changed by a carry. |
| `ArithEncoder.Encoder.Finish` | components/libjpeg/jcarith.c:133-193 | Termination writes what is pending so that the data, continued with zeros without end, lies in the final interval and therefore codes every decision made; trailing zero bytes are dropped and FF bytes are stuffed. No shorter data codes the same decisions. |
| `ArithDecoder.Decoder.Decode` | components/libjpeg/jdarith.c:106-182 | On any data, the decoded bit is the one the ideal coder reads from the whole code string at this state, although the registers hold a cut-off part of it with a floating cut point; the statistics bin moves as in the encoder. |
| `ArithDecoder.Decoder.TraceCoded` | components/libjpeg/jdarith.c:106-182 | Whatever data is read, the decisions made so far are decisions that this data codes, so decoding never leaves the current interval. |
| `ArithRoundTrip.CodedOnce` | components/libjpeg/jdarith.c:65-182 | The same data cannot code two different sequences of decisions under the same bins. |
| `ArithRoundTrip.RoundTrip` | components/libjpeg/jcarith.c:133-313 | For every sequence of (bin, bit) decisions and every initial state of the bins: encoding, terminating, appending a marker and anything else, and decoding under the same bins gives the same bits and leaves every statistics bin of both coders in the same state. |
| `ArithAreas.DcInside` | components/libjpeg/jcarith.c:724-773 | Every decision of a DC difference of up to 65536 uses a bin of the 64 bins of its own conditioning table. |
| `ArithAreas.AcInside` | components/libjpeg/jcarith.c:775-831 | Every decision of the AC coefficients of any block uses a bin of the 256 bins of its own conditioning table, or the fixed bin. |
| `ArithAreas.ScanInTables` | components/libjpeg/jcarith.c:694-835 | Over a whole scan no decision spills from one conditioning table into another one, whatever the coefficients. |
| `ArithBinarization.ContextIs` | components/libjpeg/jcarith.c:764-768 | The conditioning a DC difference v leaves: 0 if and only if v is zero or 2 |v| <= 2^L; otherwise the large categories if and only if |v| > 2^U; of either pair the second one if and only if v is negative. |
| `ArithFigures.DcFigure` | components/libjpeg/jcarith.c:730-773 | The decisions of every DC difference, written out: zero or not, sign, a one for each further bit of the magnitude under bins 20, 21 and so on, and its low bits under the bin 14 further. |
| `ArithFigures.AcFigure` | components/libjpeg/jcarith.c:783-829 | From one nonzero coefficient to the next, written out: not the end of the block, a zero decision for each coefficient between, the sign under the fixed bin, the magnitude, with bins 3 (k - 1) and following, and from 189 or 217 on. |
| `ArithFigures.AcMagnitudeFigure` | components/libjpeg/jcarith.c:805-829 | The decisions of every AC magnitude, written out likewise. |
| `ArithFigures.AcFigureEnd` | components/libjpeg/jcarith.c:783-831 | Behind the last nonzero coefficient there is one end-of-block decision, and none at the last position. |
| `ArithFigures.BlockFigure` | components/libjpeg/jcarith.c:716-831 | A block is coded as its DC difference from the prediction and then its coefficients in zigzag order, under the 64 bins of its DC table and the 256 of its AC table. |
| `ArithFigures.PredictionIs` | components/libjpeg/jcarith.c:727-733 | After an MCU, the prediction of each component is its own last DC coefficient there. |
| `ArithMcuEncoder.McuEncoder.EncodeDc` | components/libjpeg/jcarith.c:724-773 | One DC coefficient is turned into exactly the decisions of its difference under the conditioning context; prediction and context move on. |
| `ArithMcuEncoder.McuEncoder.EncodeAc` | components/libjpeg/jcarith.c:775-831 | One block of AC coefficients is turned into exactly the decisions of Figure F.5 of T.81, with the end-of-block decision left out at the last position. |
| `ArithMcuEncoder.McuEncoder.EncodeMcu` | components/libjpeg/jcarith.c:716-835 | One MCU is turned into the decisions of its blocks in order, with prediction and context carried over per component. |
| `ArithMcuDecoder.McuDecoder.DecodeDc` | components/libjpeg/jdarith.c:540-583 | On arbitrary data only bins of the 64-bin area of the table are read; where the data codes a difference, decoding succeeds if and only if its magnitude is at most 32768, and then prediction and context are those of the encoder. |
| `ArithMcuDecoder.McuDecoder.DecodeAc` | components/libjpeg/jdarith.c:585-632 | On arbitrary data only bins of the 256-bin area of the table or the fixed bin are read; where the data codes a block, all its AC coefficients are stored. |
| `ArithMcuDecoder.McuDecoder.DecodeMcu` | components/libjpeg/jdarith.c:529-636 | Where the data codes an MCU, exactly its blocks come out, or the decoder gives up because a DC difference is out of reach; once it has given up it touches nothing; on arbitrary data every decision stays inside the area of a table of the scan. |
| `ArithMcuRoundTrip.RoundTripScan` | components/libjpeg/jcarith.c:694-835 | For every scan and every restart interval, any marker and any bytes behind it: decoding an interval succeeds if and only if every DC difference in it has magnitude at most 32768, and then every coefficient of every block of it is unchanged; an interval that fails does not disturb the others, and no restart marker is lost. |
| `ArithMcuRoundTrip.SmallScanCodable` | components/libjpeg/jdarith.c:555-566 | DC values between -16384 and 16384 always meet that condition. |
| `ArithMcuRoundTrip.ExtremeJumpIsNotCodable` | components/libjpeg/jcarith.c:731-773 | A jump of the DC value from -32768 to 32767 is encoded without complaint and makes the decoder give up. |
| `Restarts.IntervalsKeep` | components/libjpeg/jchuff.c:1035-1068 | Dividing a scan into restart intervals keeps its MCUs and their order; every interval but the last has exactly the MCUs it should have, the last one at least one if there are any, and without restarts there is one interval. |
| `Restarts.IntervalAhead` | components/libjpeg/jdmarker.c:1007-1048 | Where an interval starts, its data is exactly what lies ahead up to the next marker, which is the restart marker of its number modulo 8, and the next interval starts behind it. |
| `Restarts.NextMarker` | components/libjpeg/jdmarker.c:1007-1048 | Skipping data bytes, fill bytes and stuffed zeros leads to the marker that ends the segment, whatever the bytes are. |
| `Restarts.ReadRestartMarker` | components/libjpeg/jdmarker.c:1259-1289 | Wherever in the segment the reader has stopped, also if it has met the marker already, the marker that ends the segment is the one compared with the expected restart marker, and reading goes on behind it. |
| `HuffTables.CodesCount` | components/libjpeg/jchuff.c:183-218 | The first code is zero, and each further one is the next number, with as many zeros appended as its length is greater. |
| `HuffTables.PrefixFree` | components/libjpeg/jchuff.c:183-238 | In a legal table no code word is a prefix of another one. |
| `HuffDerived.MakeEncodeTable` | components/libjpeg/jchuff.c:155-239 | A table is accepted if and only if its lengths leave the all-ones word of each length unused and no symbol is repeated (or, for DC, above 15); then every symbol has its canonical code word, and every other one length zero. |
| `HuffDerived.MakeDecodeTable` | components/libjpeg/jdhuff.c:323-439 | A table is accepted if and only if its lengths leave the all-ones words unused and DC symbols are at most 15; then maxcode, valoffset and the look-ahead entries describe exactly the canonical code. |
| `HuffBitWriter.BitWriter.EmitBits` | components/libjpeg/jchuff.c:300-337 | Emitting a code appends exactly its low bits to the bit string behind the stuffed bytes and the 24-bit register; size zero is refused. |
| `HuffBitWriter.BitWriter.Flush` | components/libjpeg/jchuff.c:384-391 | Flushing completes the last byte with fewer than eight one bits and loses nothing. |
| `HuffBitReader.BitReader.Get` | components/libjpeg/jdhuff.c:464-561 | Fetching n bits gives the next n bits of the unstuffed segment, with zeros behind its end; the shortage of data is reported if and only if a bit from behind the end was taken. |
| `HuffBlocks.ExtendAppended` | components/libjpeg/jdhuff.c:564-583 | Sign extension undoes what the encoder appends for a nonzero value, for every value. |
| `HuffDecode.LookaheadTest` | components/libjpeg/jdhuff.c:403-424 | An entry of the look-ahead table is zero exactly when no code of up to eight bits stands at the current position; otherwise it gives that code's length and symbol. |
| `HuffDecode.MissBound` | components/libjpeg/jdhuff.c:591-626 | If no code of up to l bits stands at a position, the l bits there exceed the largest code of that length, which is why the comparison with maxcode finds the right length. |
| `HuffDecode.Decode` | components/libjpeg/jdhuff.c:168-188 | For every accepted table and every bit string, decoding by look-ahead, from nine bits on after a miss, or from one bit on near the end gives the symbol whose code stands at the current position and consumes exactly that code; if there is none it consumes 17 bits, reports a bad code and gives zero. |
| `HuffFigures.DcFigure` | components/libjpeg/jchuff.c:927-959 | A DC difference of n bits is the symbol n and the low n bits of the difference, less one if it is negative; with more bits than precision + 3 it cannot be coded. |
| `HuffFigures.AcFigure` | components/libjpeg/jchuff.c:965-1007 | The next nonzero coefficient, of n bits behind a run of zeros, is the symbol 0xF0 for every sixteen zeros, the symbol made of the other zeros and n, and the low n bits of the coefficient, less one if it is negative. |
| `HuffFigures.EndFigure` | components/libjpeg/jchuff.c:1009-1012 | Zeros up to the end are one end-of-block symbol, and a block that ends with a coefficient has none. |
| `HuffFigures.BlockFigure` | components/libjpeg/jchuff.c:915-1012 | A block is sent as its DC difference from the prediction and then its coefficients in zigzag order. |
| `HuffFigures.PredictionIs` | components/libjpeg/jchuff.c:1043-1053 | After an MCU, the prediction of each component is its own last DC coefficient there. |
| `HuffBlockEncoder.HuffEncoder.EncodeMcu` | components/libjpeg/jchuff.c:1042-1053 | An MCU is emitted as the code words and bits of its symbols; it fails if and only if a coefficient is too large or a symbol has no code. |
| `HuffReader.SymbolReader.DecodeDc` | components/libjpeg/jdhuff.c:1237-1255 | Where the data spells a DC difference, exactly it is read; on any other data the position moves on and shortage of data is reported truthfully. |
| `HuffBlockDecoder.HuffDecoder.DecodeMcu` | components/libjpeg/jdhuff.c:1218-1313 | Where the data spells an MCU, the wanted coefficients come out and the position stands right behind it, also when the rest of a block is only skipped; after a shortage of data blocks stay zero and nothing is read. |
| `HuffRoundTrip.RoundTripScan` | components/libjpeg/jchuff.c:916-1071 | For every sequential scan, every restart interval and all tables, any marker and any bytes behind it: tables are refused exactly if improper, encoding fails exactly if a coefficient is too large or a symbol lacks a code, and otherwise all wanted coefficients of all intervals come back and neither missing data nor a bad code nor a lost restart marker is reported. |
| `CodeLengths.OptimalSplit` | components/libjpeg/jchuff.c:1386-1405 | Splitting the merged weight of two lightest symbols again keeps an optimal assignment of lengths optimal. |
| `HuffMerging.MergeMeans` | components/libjpeg/jchuff.c:1386-1404 | One merge of the two lightest symbols, the larger symbol first among equals: the first stands for both with the sum of the weights, and each gets one bit more than what stands for them. |
| `HuffMerging.LengthsOptimal` | components/libjpeg/jchuff.c:1357-1405 | Huffman's merging gives lengths of least weighted sum among all lengths that satisfy the Kraft inequality. |
| `CodeLengths.BeatsEveryPrefixCode` | components/libjpeg/jchuff.c:1350-1405 | Optimal lengths cost no more than those of any prefix code on the symbols with nonzero count. |
| `HuffMerging.AssignLengths` | components/libjpeg/jchuff.c:1350-1405 | For all counts: the loops over freq, codesize and others give optimal lengths if and only if no merge needs a weight above 10^9, where the searches stop looking; then they are exactly these lengths, with ties broken towards the larger symbol. Symbols with count zero have no code. |
| `HuffMerging.SmallIsSearchable` | components/libjpeg/jchuff.c:1362-1384 | Counts with a total of at most 10^9 always meet that condition. |
| `HuffMerging.SearchableIsSmall` | components/libjpeg/jchuff.c:1362-1384 | Two or more counts with a total above 2 * 10^9 never meet it. |
| `HuffMerging.HeavyCountsAreNotSearchable` | components/libjpeg/jchuff.c:1362-1384 | Two symbols counted more than 10^9 times each do not meet it: the second symbol of the first merge is not seen. |
| `HuffSorting.SortSymbols` | components/libjpeg/jchuff.c:1286-1348 | huffval receives each symbol with nonzero count once, by descending count, the smaller symbol first among equals. |
| `HuffLimiting.CountLengths` | components/libjpeg/jchuff.c:1407-1417 | Counting fails if and only if a length exceeds 32; otherwise bits counts the symbols of each length, and number of codes and code space are those of the lengths. |
| `HuffLimiting.SplitOnce` | components/libjpeg/jchuff.c:1430-1444 | One step of limiting takes two codes from the longest class, and splits a code of the longest class that is at least two bits shorter and has any: every class is given its new count. |
| `HuffLimiting.LimitLengths` | components/libjpeg/jchuff.c:1419-1452 | Limiting to 16 bits takes such steps until no class above 16 is left, always finds a class to split and never takes from an empty one; dropping the pseudo-symbol from the longest class leaves one code fewer and the all-ones word unused. |
| `HuffOptimal.GenOptimalTable` | components/libjpeg/jchuff.c:1268-1473 | For every count array of one to 254 symbols that the searches can handle: the error is raised if and only if an optimal length exceeds 32; otherwise the table serves the counts, that is, its lengths are the optimal ones limited to 16, the all-ones word is unused, and its symbols are those counted, by descending count. |
| `HuffBest.ShortTableIsBest` | components/libjpeg/jchuff.c:1286-1452 | If no optimal length exceeds 16, the generated table with its symbols in order of count, together with the longest word for the pseudo-symbol, takes no more bits than any prefix code for the same symbols: sorting and leaving the pseudo-symbol out lose nothing. |
| `HuffOptimal.ServingTableAccepted` | components/libjpeg/jchuff.c:183-238 | A table that serves some counts passes the table builder. |
| `HuffOptimal.CountedIsCoded` | components/libjpeg/jchuff.c:1312-1346 | It has a code for a symbol if and only if the symbol was counted. |
| `HuffOptimal.ListedByCount` | components/libjpeg/jchuff.c:1323-1346 | In it the symbols are listed by descending count, the smaller symbol first among equals. |
| `HuffOptimal.FrequentNotLonger` | components/libjpeg/jchuff.c:1289-1294 | In it a more frequent symbol never has a longer code. |
| `HuffCounts.TallyIs` | components/libjpeg/jchuff.c:1128-1200 | A tally holds for each table and symbol how often it occurs. |
| `HuffSink.TokenSink.SendSymbol` | components/libjpeg/jchuff.c:409-430 | In a statistics pass a symbol is counted, in an output pass its code is emitted; only the latter can fail, and does so exactly if there is no code. |
| `HuffStatistics.HuffGatherer.EncodeMcuGather` | components/libjpeg/jchuff.c:1209-1237 | The sequential statistics pass counts the symbols of exactly what encode_mcu_huff emits for the MCU, and fails exactly at a coefficient that is too large. |
| `HuffStatistics.ScanCountsAre` | components/libjpeg/jchuff.c:1209-1237 | After the pass over a scan with restarts, every count is the number of times the output pass emits the symbol, with DC prediction started again in each interval. |
| `HuffGeneration.GenTables` | components/libjpeg/jchuff.c:1481-1525 | All tables that components of the scan use are generated, each fit for its counts; this fails if and only if an optimal length of one of them exceeds 32, and every table left behind passes the table builder. |
| `HuffGeneration.NothingMissing` | components/libjpeg/jchuff.c:409-430 | With tables generated from the counts of a scan, nothing the scan sends lacks a code. |
| `HuffSizes.SizedIsCountable` | components/libjpeg/jchuff.c:1128-1237 | A scan with a block in it sends at least one symbol of each table it uses, and at most 64 for each block, so the counts of a scan with at most 15624999 blocks are always such that tables can be generated. |
| `HuffStatistics.OptimizeScan` | components/libjpeg/jchuff.c:1209-1525 | For every sequential scan with any restart intervals, at least one block and not more than 15624999, or counts that can be searched all the same: statistics pass, table generation and output pass together fail if and only if a coefficient is too large, or else an optimal length of a used table exceeds 32; otherwise each interval's segment spells all of its symbols and bits. |
| `RefineStatistics.ScanCountsAre` | components/libjpeg/jchuff.c:786-910 | The statistics pass of an AC refinement scan counts what its output pass emits, with end-of-band runs held back over blocks and closed at restarts. |
| `RefineStatistics.OptimizeRefinement` | components/libjpeg/jchuff.c:438-530 | The optimizing encoder for AC refinement scans with restarts fails if and only if an optimal length exceeds 32. |
| `AcFirstStatistics.ScanCountsAre` | components/libjpeg/jchuff.c:626-733 | The statistics pass of a first AC scan counts what its output pass emits, with end-of-band runs held back over blocks and closed at restarts. |
| `AcFirstStatistics.OptimizeFirst` | components/libjpeg/jchuff.c:457-733 | The optimizing encoder for first AC scans with restarts fails if and only if a coefficient is too large, or else an optimal length exceeds 32. |
| `DcStatistics.ScanCountsAre` | components/libjpeg/jchuff.c:539-617 | The statistics pass of a first DC scan counts what its output pass emits, with prediction started again at restarts. |
| `DcStatistics.OptimizeFirst` | components/libjpeg/jchuff.c:509-617 | The optimizing encoder for first DC scans with restarts fails if and only if a difference is too large, or else an optimal length exceeds 32. |
| `HuffFigures.RunFigure` | components/libjpeg/jchuff.c:457-480 | A run of n blocks, 2^e <= n < 2^(e+1), is the symbol 16 e and the low e bits of n. |
| `AcFirst.SilentRun` | components/libjpeg/jchuff.c:706-711 | Any number of blocks below 0x7FFF with nothing to send, up to the next one that has something, are sent as one run. |
| `AcFirst.RunSplit` | components/libjpeg/jchuff.c:457-480 | An end-of-band run that is held back and the blocks that join it are sent as one run, whose length is their number, up to 0x7FFF. |
| `AcFirst.RunValue` | components/libjpeg/jdhuff.c:815-832 | Category and low bits of a run length, as sent, give the length back. |
| `AcFirstEncoder.FirstEncoder.EncodeMcu` | components/libjpeg/jchuff.c:644-717 | One block is sent, or joins the run held back, so that what has been sent and what is still owed is always the whole scan; the run stays below 0x7FFF between blocks, and failure means that some part of the scan cannot be sent. |
| `AcFirstEncoder.FirstEncoder.FinishPass` | components/libjpeg/jchuff.c:509-530 | At a restart or the end of the scan the run held back is closed, and exactly the scan has been sent. |
| `AcFirstDecoder.FirstDecoder.DecodeMcu` | components/libjpeg/jdhuff.c:797-850 | Where the data spells the rest of a first AC scan, the band of the next block gets its coefficients cut down to bit Al, nothing else in it changes, and run and position stand at the next block; EOBRUN stays below 0x7FFF on any data. |
| `AcFirstRoundTrip.RoundTripFirst` | components/libjpeg/jchuff.c:644-717 | For every table, band and number of blocks: encoding fails exactly if a coefficient is too large or a symbol lacks a code; otherwise decoding gives every coefficient of the band without its Al low bits, changes no other one, and reports neither missing data nor a bad code. |
| `RefineDecoding.RefinedMarks` | components/libjpeg/jdhuff.c:961-1050 | On any data, refining changes the coefficients of the band only by setting bit Al of old nonzero ones or by storing plus or minus 2^Al in zero ones. |
| `RefineDecoding.StoredOrdersServe` | components/libjpeg/jdhuff.c:916-950 | Every natural order as stored, also those for blocks smaller than 8x8 and with their 16 spare entries, is an order for every band that the block size allows. |
| `RefineDecoder.RefineDecoder.DecodeMcu` | components/libjpeg/jdhuff.c:916-1066 | Whether it completes or suspends: a completed call gives the block, EOBRUN and position of the uninterrupted decoding; a suspended one has undone its new coefficients and left only corrections, and has not moved. |
| `RefineDecoder.RefineDecoder.DecodeUnderSchedule` | components/libjpeg/jdhuff.c:955-1065 | For every bit stream and every schedule of suspensions, calling until it succeeds gives the same block, EOBRUN and bit position as one uninterrupted call. |
| `RefineFigures.NewFigure` | components/libjpeg/jchuff.c:838-886 | A coefficient that becomes nonzero behind at most 15 zeros is the symbol made of their number and 1, its sign, with one for plus, and then the correction bits of the coefficients passed over. |
| `RefineFigures.RunsAreMaximal` | components/libjpeg/jchuff.c:888-898 | No end-of-band run is ended early: between two groups of blocks either the first has no open band, or the next block has new coefficients, or the count is 0x7FFF, or more than 937 correction bits are held back. |
| `RefineEncoding.OneMoreBit` | components/libjpeg/jchuff.c:817-905 | For every coefficient and Al, the encoder's three cases (still zero, newly nonzero with its sign, one more bit) lead from the value without Al+1 low bits to the value without Al low bits. |
| `RefineStream.BlockDecodes` | components/libjpeg/jdhuff.c:916-1066 | Where the data spells a group of blocks with folded zero runs and delayed correction bits, refining the next block by it gives one more bit of each coefficient and leaves the rest of the stream. |
| `RefineEncoder.RefineEncoder.EmitEobrun` | components/libjpeg/jchuff.c:457-480 | Closing the held-back run writes its symbol, its low bits and all correction bits delayed behind it, for a run of up to 0x7FFF blocks. |
| `RefineEncoder.RefineEncoder.EncodeMcu` | components/libjpeg/jchuff.c:786-910 | After every block the sent and held-back parts are those of all the blocks so far; the correction buffer never exceeds 1000 entries and the run stays below 0x7FFF. |
| `RefineEncoder.RefineEncoder.FinishPass` | components/libjpeg/jchuff.c:509-530 | At the end everything held back has been written, and the groups of blocks written are all the blocks in order. |
| `RefineRoundTrip.RoundTripRefinement` | components/libjpeg/jchuff.c:786-910 | For any number of blocks, any table, and any schedule of suspensions: encoding fails exactly if a symbol lacks a code; otherwise, where the blocks hold the coefficients without Al+1 low bits, decoding leaves them without Al low bits, touches nothing outside the band, and reports no missing data. |
| `DcScans.DcNextBit` | components/libjpeg/jchuff.c:743-778 | Bit Al of a DC value is what its point transform by Al has over that by Al+1, for negative values too. |
| `DcScans.DcEncoder.EncodeMcuFirst` | components/libjpeg/jchuff.c:556-601 | The differences of the point-transformed DC values of one MCU are sent as the next part of the scan; failure means that the scan cannot be sent. |
| `DcScans.DcDecoder.DecodeMcuFirst` | components/libjpeg/jdhuff.c:726-763 | Where the data spells an MCU of a first DC scan, its DC coefficients come out without their Al low bits and nothing else changes. |
| `DcScans.DecodeMcuRefine` | components/libjpeg/jdhuff.c:881-901 | Where the data holds the bits of an MCU, bit Al is set in each DC coefficient where the bit is one, whatever the coefficient was, and nothing else changes. |
| `DcRoundTrip.RoundTripFirst` | components/libjpeg/jchuff.c:556-601 | For every first DC scan: encoding fails exactly if a difference is too large or a symbol lacks a code; otherwise all DC values come back without their Al low bits. |
| `DcRoundTrip.RoundTripRefine` | components/libjpeg/jchuff.c:743-778 | A DC refinement scan cannot fail, and enters bit Al of every DC value into what was there before, whatever that was. |
| `ScanOrder.InterleavedOrder` | components/libjpeg/jccoefct.c:144-219 | In an interleaved scan the MCUs come row by row, and block number (blocks of the components before) + y h + x of MCU (r, col) is the block of the component at row r v + y and column col h + x. |
| `ScanOrder.AloneOrder` | components/libjpeg/jccoefct.c:144-219 | In a scan of one component, MCU number row * width + col is the block at that row and column, and there are no others. |
| `ImagePlaces.StreamMatches` | components/libjpeg/jccoefct.c:144-219 | In the MCU stream of a scan each block stands at the place that the sampling factors give it: the block of the picture there, or a dummy block outside of it. |
| `ImagePlaces.Covered` | components/libjpeg/jccoefct.c:144-219 | Every real block of every component of the scan stands in some MCU. |
| `ProgressiveBlocks.BlockBack` | components/libjpeg/jcmaster.c:178-305 | A block of which the scans have sent every coefficient down to bit 0 is known completely. |
| `ProgressiveImage.CodeImage` | components/libjpeg/jchuff.c:539-910 | For every picture of any number of components, every valid progressive script and all tables: the scans, interleaved or not, coded one after the other from zeroed blocks, give each coefficient of each real block with exactly the bits that the script sends of it; coding fails exactly if an interleaved MCU has too many blocks or some scan cannot be sent. |
| `ProgressiveImage.AllBack` | components/libjpeg/jcparam.c:514-589 | If a script brings every coefficient down to bit 0, each real block comes back unchanged. |
| `ProgressiveImage.CodeSimpleProgression` | components/libjpeg/jcparam.c:514-589 | The generated script for any number of components is valid and loses nothing. |
| `OptimizedImage.CodeOptimized` | components/libjpeg/jchuff.c:1481-1525 | With tables from statistics passes, coding a whole progressive image of any number of components fails exactly if an interleaved MCU has too many blocks, a coefficient of some scan is too large or an optimal length exceeds 32; otherwise every coefficient of every real block comes back with all the bits sent, and the picture itself if all bits are sent. |
| `ContextRows.ImcuCount` | components/libjpeg/jdmaster.c:123-162 | Counting iMCU rows and row groups by ceiling division leaves between one and M row groups for the last iMCU row. |
| `ContextRows.DimensionsFromImage` | components/libjpeg/jdmaster.c:123-162 | The numbers of rows, row groups and iMCU rows of every component computed from the image height fit together as the row pointers need, whatever the sampling factors, so that the count of row groups in the last iMCU row is the same for every component. |
| `ContextMain.MainController.MakeFunnyPointers` | components/libjpeg/jdmainct.c:198-239 | The two pointer lists show the workspace in order and with its last four row groups swapped; above the first row group the first row is repeated. |
| `ContextMain.MainController.SetWraparoundPointers` | components/libjpeg/jdmainct.c:243-269 | Both lists wrap around at their ends. |
| `ContextMain.MainController.SetBottomPointers` | components/libjpeg/jdmainct.c:273-308 | The last real row is repeated below itself, the other list is left alone, and the number of row groups left is what the image has below its full iMCU rows. |
| `ContextMain.MainController.ProcessData` | components/libjpeg/jdmainct.c:383-444 | Whatever the decoder delivers and the post-processor takes, the row groups handed out are still a prefix of the image in order with the right rows around them; a call that is not suspended and meets some appetite hands out at least one. |
| `ContextMain.MainController.EndMeansAll` | components/libjpeg/jdmainct.c:383-444 | The controller stands at the end of its pass if and only if all row groups have been handed out. |
| `ContextMain.OutputPass` | components/libjpeg/jdmainct.c:383-444 | Over any schedule of suspensions and appetites each row group is handed out at most once, in image order, and each row handed out with it is the true image row, or the first or last one repeated, if and only if it is not below the image behind the last group of the next-to-last iMCU row; if as many calls as there are row groups make progress, all of them are handed out, including those at the bottom. |
| `ContextMain.ContextIsTrue` | components/libjpeg/jdmainct.c:273-444 | A row next to a group is the true image row, or the first or last row repeated, if and only if it is not below the image behind the last group of the next-to-last iMCU row. |
| `ContextMain.AdjacentRowsAreTrue` | components/libjpeg/jdmainct.c:273-444 | The rows directly above and below a row group are always right. |
| `ContextMain.PaddingBelow` | components/libjpeg/jdmainct.c:273-444 | 33 rows in groups of two and iMCU rows of eight groups: the second row below group 15 is padding of the decoder and not the last row repeated. |
| `McuStream.SizesFromImage` | components/libjpeg/jcmaster.c:47-172 | The block dimensions that initial setup computes from the image leave at least one real block in the last iMCU row and column of every component. |
| `McuStream.PerScanSetup` | components/libjpeg/jcmaster.c:388-467 | Setup of a scan refuses exactly the interleaved scans with more blocks per MCU than allowed, and otherwise the MCU geometry agrees with the components. |
| `CoefSinglePass.CoefController.CompressData` | components/libjpeg/jccoefct.c:144-219 | Whenever the entropy coder suspends, what it has accepted is a prefix of the MCU stream of the picture; a row is done exactly when all its MCUs have been accepted, and each accepting call makes progress. |
| `CoefTranscode.CoefController.CompressOutput` | components/libjpeg/jctrans.c:293-371 | The same for transcoding, where dummy blocks are made on the spot. |
| `CoefMultiPass.CoefController.CompressFirstPass` | components/libjpeg/jccoefct.c:246-330 | The same for the first pass of buffered compression, which also stores every row with its dummy blocks. |
| `CoefMultiPass.CoefController.CompressOutput` | components/libjpeg/jccoefct.c:344-400 | The same for later passes over the stored blocks. |
| `CoefAgreement.Agree` | components/libjpeg/jccoefct.c:144-400 | Single-pass compression, buffered compression and transcoding hand the entropy coder the identical MCU stream, dummy blocks and their DC values included, for every picture, sampling and scan; any schedule with enough accepting calls for the MCUs and rows ends with all of it accepted. |
| `PrepContext.CreateContextBuffer` | components/libjpeg/jcprepct.c:271-309 | The pointer list of five buffer parts shows the three real row groups wrapped around at both ends. |
| `PrepContext.PrepController.ExpandBottomEdge` | components/libjpeg/jcprepct.c:107-117 | The last row is repeated into exactly the rows below it. |
| `PrepContext.PrepController.PreProcessContext` | components/libjpeg/jcprepct.c:199-263 | Whatever rows a call brings and however much room there is, every row group handed on has the real rows above and below it, with the first and last row repeated at the edges, and groups come once each in order; the call stops only when room or rows are used up. |
| `PrepMain.MainController.WriteScanlines` | components/libjpeg/jcmainct.c:114-159 | For any split of the input rows over calls and any suspensions, rows are consumed exactly as reported, and when all rows have been written every iMCU row has been accepted. |
| `PrepMain.EveryGroupIsRight` | components/libjpeg/jcprepct.c:199-263 | Every row group of every accepted iMCU row was downsampled from its own rows and the true or repeated rows around them. |
| `ScriptValidation.ValidateScript` | components/libjpeg/jcmaster.c:178-305 | A script is accepted if and only if it is valid; a refusal names an error that the script has, at the first scan that has one. |
| `ScriptValidation.ReduceScript` | components/libjpeg/jcmaster.c:309-338 | In place, a script loses the scans above the block size and the others are cut to it. |
| `ScriptValidation.ReductionKeepsBits` | components/libjpeg/jcmaster.c:309-338 | The reduced script brings every remaining coefficient to the same bit. |
| `ScriptValidation.ReductionKeepsOrder` | components/libjpeg/jcmaster.c:309-338 | The reduced progressive script still has its scans in a valid order. |
| `ScriptDecoding.ProgressionStatus.StartPass` | components/libjpeg/jdhuff.c:1328-1378 | A scan is refused exactly if its parameters are bad; a warning is given exactly if it does not continue what earlier scans have sent. |
| `ScriptDecoding.ValidIffClean` | components/libjpeg/jcmaster.c:178-305 | A progressive script is accepted if and only if the decoder takes each scan of it without refusing it or warning, the parameters are in range, no coefficient known down to bit 0 is sent again, and every component has some of its DC bits sent. |
| `ScriptDecoding.ValidScriptDecodesCleanly` | components/libjpeg/jcmaster.c:178-338 | Every progressive script that is accepted, reduced to any block size, passes the decoder's checks with no error and no warning, and the decoder ends with the bit positions that the script promises. |
| `ScriptDecoding.ValidSequentialIsClean` | components/libjpeg/jcmaster.c:178-338 | Every sequential script that is accepted looks sequential to the decoder after reduction and still sends every component. |
| `ScriptGeneration.ScriptParameters.SimpleProgression` | components/libjpeg/jcparam.c:514-589 | For every number of components the generated script fills exactly the scans counted, each with the parameters listed for it and in that order, is valid at normal and at high precision, and brings every coefficient of every component down to bit 0. |
| `PassControl.Compressor.Compress` | components/libjpeg/jcapimin.c:155-189 | For any list of scans, optimizing or not, compressing or transcoding, the driver terminates and the passes are exactly those of the schedule, followed by the trailer. |
| `PassControl.EachScanOnce` | components/libjpeg/jcmaster.c:479-613 | In the schedule each scan is output exactly once, in order. |
| `PassControl.AllWellPlaced` | components/libjpeg/jcmaster.c:479-613 | In the schedule each statistics pass stands immediately before the output of its own scan, and is there if and only if it is needed or made from the input anyway; the last pass is flagged exactly on the output of the final scan. A pass reads the coefficient buffer if and only if another file or an earlier pass has filled it; the first pass over the input fills it if and only if a further pass follows, and otherwise hands the data through. |
| `LockdownRuns.LockdownIsSafe` | tools/provision.py:954-1058 | At every moment of every run, with crashes between any two operations: steps are done in list order, files, fuses, flash and records name one pair of keys, the enable fuses are burned only after the release flash is recorded, and download mode is disabled only when every step is done and a verified boot is recorded. |
| `LockdownRuns.KeysAreForever` | tools/provision.py:800-870 | Along every run key files and burned keys never change once they exist, and fuses never clear. |
| `LockdownRuns.AlwaysConsistent` | tools/provision.py:993-1003 | As long as only the tool changes fuses, the consistency check never refuses a readable manifest. |
| `LockdownRuns.LockdownCanFinish` | tools/provision.py:1006-1147 | From a resting state of any run the badge can be locked to the end if and only if the manifest is readable, every existing key file is complete and recorded, and the enable fuses have not outrun the record of the verified boot. |
| `LockdownRuns.HardeningMayPrecedeTheBootCheck` | tools/provision.py:887-952 | Whenever enabling is the next step, some run hardens the badge although its boot was never verified, and then it can never be locked to the end. |
| `LockdownRuns.FreshBadgeMayBeHardenedUnverified` | tools/provision.py:887-952 | Every fresh badge can come to that: a run brings it to the enabling step, and a run hardens it unverified. |
| `LockdownRuns.HardeningStartsVerifiedIff` | tools/provision.py:974-985 | Whenever a call of lock-esp starts with the hardening step, in any run: the manifest is readable, and a verified boot has been recorded if and only if the manifest holds the stage verified_boot, which is exactly when the badge can still be locked to the end. |
| `LockdownRuns.HardeningBurnsVerifiedIff` | tools/provision.py:920-952 | The same equivalence holds whenever a hardening fuse is burned. |
| `LockdownRuns.HardeningFollowsTheBootIff` | tools/provision.py:887-985 | From a resting state of any run, every continuation burns hardening fuses only after a recorded verified boot, if and only if that boot has been recorded already, or all hardening fuses are burned, or the manifest is cut short, or a key file is there without its record, its digest or its key block. |

## Findings

Five properties one would expect do not hold of the code. For each there is a concrete input, and the exact condition
under which the property does hold.

| property | source | where it fails | exact condition |
|---|---|---|---|
| An arithmetic-coded scan decodes to what was encoded | components/libjpeg/jcarith.c:731-773, components/libjpeg/jdarith.c:555-566 | `ArithMcuRoundTrip.ExtremeJumpIsNotCodable`: the encoder accepts any DC difference, the decoder gives up once a magnitude category reaches 0x8000 | `ScanCodable`: every DC difference has magnitude at most 32768. `ArithMcuRoundTrip.RoundTripScan` proves that decoding succeeds if and only if it holds; `SmallScanCodable` shows that 12-bit samples always meet it |
| Each row group is handed to the post-processor between its true neighbours, or the first or last row repeated | components/libjpeg/jdmainct.c:273-308, components/libjpeg/jdmainct.c:383-444 | `ContextMain.PaddingBelow`: the last row group of the iMCU row before the last one is handed out ahead of `set_bottom_pointers`, so if the row group below it is not full, it is shown padding of the decoder there | `ContextMain.ContextIsTrue`: a row of the context is right if and only if it is not a row below the image seen from that one group; the rows directly above and below a group are always right (`AdjacentRowsAreTrue`) |
| Generated code lengths are optimal | components/libjpeg/jchuff.c:1357-1384 | `HuffMerging.HeavyCountsAreNotSearchable`: the searches for the two lightest symbols pass over every weight above 10^9, so merging stops early when two symbols were counted more often | `Searchable`: no merge needs a weight above 10^9. `HuffMerging.AssignLengths` proves that the lengths are optimal if and only if it holds; a total of at most 10^9 is enough for it (`SmallIsSearchable`), which every scan of at most 15624999 blocks stays within (`HuffSizes.SizedIsCountable`), and a total above 2 * 10^9 is too much (`SearchableIsSmall`) |
| An interrupted lockdown can be continued | tools/provision.py:204-208, tools/provision.py:887-952, tools/provision.py:974-979 | `LockdownRuns.FreshBadgeMayBeHardenedUnverified` ends in such a badge: enable fuses burned ahead of the boot check stay unverified; a manifest cut short while it is written, and a key file without its record, cannot be repaired either | `Recoverable`: `LockdownRuns.LockdownCanFinish` proves that a badge at rest can be locked to the end if and only if it holds |
| Hardening follows a verified boot | tools/provision.py:887-952, tools/provision.py:974-979 | `LockdownRuns.FreshBadgeMayBeHardenedUnverified`: the enable step counts as done as soon as its fuses are burned, so after a crash before the boot check the next call of `lock-esp --continue` hardens the badge, and it can never be locked to the end | the stage `verified_boot` in the manifest before the call: `LockdownRuns.HardeningStartsVerifiedIff` proves, for every run, that a call that starts with the hardening step does so after a recorded verified boot if and only if the manifest holds that stage, and `HardeningBurnsVerifiedIff` the same for every hardening fuse. For whole runs: `HardeningFollowsTheBootIff`, with `NoMoreHardening` for the badges that cannot reach the step |

## Left out

- Progressive arithmetic modes (`encode_mcu_DC_first` and its three siblings in jcarith.c and jdarith.c) are not modelled; the coder below them and the sequential mode are.
- Recovery from lost restart markers (`jpeg_resync_to_restart`) is not modelled; a marker other than the expected one is reported as lost.
- AcFirstRoundTrip.RoundTripFirst: covers one restart interval, with any marker behind it; the sequential and arithmetic scans, and all statistics passes, cover all intervals.
- DcRoundTrip.RoundTripFirst: covers one restart interval.
- DcRoundTrip.RoundTripRefine: covers one restart interval.
- RefineRoundTrip.RoundTripRefinement: covers one restart interval.
- ProgressiveImage.CodeImage: its scans have no restarts.
- HuffOptimal.GenOptimalTable: requires counts that the searches can handle (`Searchable`) and one to 254 symbols (`Admissible`). With no symbol at all the C function reads in front of its array of lengths, and with 256 codes of one length its 8-bit count wraps; no scan leads to either, as is proved on the way to `OptimizeScan` and its siblings.
- HuffStatistics.OptimizeScan: scans without any block are left out, and so are those of more than 15624999 blocks whose counts cannot be searched (`FewEnough`). The same holds for the other optimizing encoders.
- HuffGeneration.GenTables: counts are copied for each table instead of being used up in place.
- Suspension of the entropy decoders is modelled for AC refinement only; the others restore their saved state, which is easier. Suspension by the data destination is left out.
- Overflow of the 32-bit DC prediction on corrupt data is left out; prediction is an integer.
- Natural orders in sequential and arithmetic scans are permutations of all 64 positions; a reduced order is represented by a completion of it. AC scans of progressive images take the orders as stored.
- DC scans are decoded into copies of the blocks at scan level, and MCU buffers in the multi-pass controller are sequences of blocks; aliasing between MCU and image there is not captured.
- ContextMain.OutputPass: shows one component; every component has the same schedule and its own rows. Where the post-processor puts its output is left out.
- PrepMain.WriteScanlines: shows one component; color conversion and downsampling of samples are not modelled, only which rows they read.
- The preprocessor without context rows (`pre_process_data`) and the merged upsampler are left out.
- Some macros and long C functions are divided into several methods here.
- LockdownRuns.LockdownIsSafe: the count fuse SPI_BOOT_CRYPT_CNT is either burned to 7 or not, and free key blocks are assumed to be there; other subcommands of the tool, the serial protocol and the contents of images are left out.
- Quantisation, the DCT, color conversion, marker parsing and memory management of the library are left out.
