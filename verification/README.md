# Verified models from five small systems

This project models and verifies the parts of the repository whose correctness is least visible in the
code:

- the JPEG decoder of luvcview (ITU-T T.81): byte-stuffed bit reader, fused Huffman index, run-length
  decoding, fixed-point inverse DCT, 4:2:0 tile writer, restart intervals, up to the bytes of the picture;
- the work scheduler of dcrack: chunks of a dictionary assigned, expired, reassigned, reported and closed;
- the output ring of the shortprint driver and the scull pipe: processes, work function, interrupt and
  timer interleaved at their accesses to shared pointers;
- the scull block store, and its page-based variant scullp with page faults;
- the RC4 state, the key byte guesses and the vote table of the PTW attack.

Code that updates state is modelled as methods on classes and arrays, proved against functions over
values. Protocols are state machines whose steps are the accesses to shared variables; their theorems
hold for every run. `dafny verify dfyconfig.toml` checks everything.

## Files

| file | content |
|---|---|
| Options, BitStream | optional values; bits, shifts, windows on a bit stream, unstuffing |
| BitReader | the 32-bit register and its refilling |
| AnnexC, HuffTable, HuffDecode | canonical codes, the decoder's tables, decoding one symbol |
| McuDecode | blocks and MCUs |
| Idct, Dct | the fixed-point transform, its error, and that it is an inverse DCT with exact constants |
| DctError, TrueDct | the distance of the rounded constants from the cosines, the quantizers with the cosine factors, and the distance of a sample from the inverse DCT |
| Tile420, PictureMap | one macroblock's bytes, all macroblocks of a picture |
| JpegEncode | the encoder of T.81, which the decoder undoes |
| ScanSpec, ScanDecode, ScanPicture | what a scan with restart intervals stands for, the loop that decodes it, and the decoder from its tables on |
| DcrackTables, DcrackRuns | tables and queries, the steps and what each keeps |
| DcrackRows | what the steps do to the rows of the tables |
| DcrackProperties, DcrackServer | what holds in every run; the handlers and the client's slices |
| Ring | a circular buffer with one free place |
| ShortPrint, ShortPrintLost | the printer's steps, and when a writer is never woken |
| ScullPipe, ScullPipeRuns | the pipe's data sections, and all interleavings |
| ScullGeometry, ScullCells, ScullStore | positions, quanta, the device |
| ScullpMap | page faults, reads, writes and mappings |
| Rc4, PtwGuess, PtwVotes | key setup and stream, guesses, votes |

## Findings

- A writer of the shortprint driver can sleep for ever. `shortp_out_space` reads the tail twice without
  the lock; if the last byte leaves between the reads and the tail wraps, the space comes out as -1
  although the ring is empty, and the wake-up test `(PAGE_SIZE + tail - head) % PAGE_SIZE` is 0 for an
  empty ring, so nobody wakes the writer. `ShortPrintLost.LostReachable` gives the run and
  `ShortPrintLost.LostExactly` the exact condition: a sleeping writer is lost if and only if the ring is
  empty. `ShortPrintLost.LosingStep` names the one step that gets there. The promise that a writer does
  not stay asleep with more than half the ring free and data still queued does hold (`ShortPrint.RunOk`).
- In dcrack's `try_network` the test that clips a new chunk looks at the row after the one that opened
  the gap. It is right only because all rows are aligned to 5,000,000 lines, which `DcrackRuns.StepKeeps`
  shows for every request; then the clipping never takes effect.
- In dcrack a network that was closed and is then asked for again with `crack` is never closed by
  reports: `do_crack` inserts a second row, `do_getwork` goes by any active row, `do_result` by the
  first one, which is closed, and ignores every report. `DcrackProperties.CompletedNotClosed` gives the
  run, `DcrackProperties.ResultCloses` the exact condition under which a report closes an active network
  and `DcrackProperties.StuckStep` the only two requests that end such a row.
- In scullp the items behind the first one do not inherit the order: their pages have 4096 bytes although
  positions are computed with quanta of 4096 << order bytes. Reads and writes there can leave their page;
  `ScullpMap.Scullp.Fits` says exactly when, and `ScullpMap.SecondItemShort` is an instance. With order
  zero it never happens, and only then can the device be mapped.
- dcrack's forced reassignment gives up the oldest row without asking whether it can be handed out again;
  if it cannot, the client gets nothing although other rows could (`DcrackProperties.ForcedReassignment`).
- `dec_readmarker` accepts a marker with up to 24 unread bits in front of it, where T.81 allows less than
  a byte of padding (`BitReader.EarlyMarker`); the scan specification here says what the code does.

## Model

| member | source | states |
|---|---|---|
| BitStream.UnstuffStuff | luvcview-20070512/utils.c:604-617 | bytes stuffed as T.81 section F.1.2.3 says and followed by a marker are read back as exactly their bits, with that marker and the position behind it |
| BitStream.LowBitsIs | luvcview-20070512/utils.c:639-643 | the n bits of a value, read as a number, are the value modulo 2^n |
| BitStream.BytesBack | luvcview-20070512/utils.c:604-617 | the eight bits at position 8k of a segment are byte k of its data |
| BitStream.SegmentIsStuffed | luvcview-20070512/utils.c:604-617 | conversely, every segment that ends with a marker is the stuffed form of some bytes, whose bits it has |
| BitReader.In.constructor | luvcview-20070512/utils.c:581-589 | a reader set to a terminated buffer stands before the first bit of its first segment |
| BitReader.In.FillBits | luvcview-20070512/utils.c:591-620 | refilling moves no read position and loses no bit: register and remaining bytes stay the unread rest of the segment; at least 16 bits are available afterwards and never more than 32; the marker is seen exactly when at most 24 data bits are left |
| BitReader.In.NextByte | luvcview-20070512/utils.c:603-617 | one byte of the loop: FF 00 is the data byte FF, FF with another byte is the marker, anything else data; at the marker zeros are supplied |
| BitReader.In.GetBits | luvcview-20070512/utils.c:639-643 | the value read is the next n bits of the unstuffed stream, most significant first, zeros behind its end, for every n up to 16; the position moves on by n |
| BitReader.ReadBytes | luvcview-20070512/utils.c:639-643 | reading eight bits at a time from stuffed bytes with a marker behind them gives back those bytes, in order, and then the marker |
| BitReader.In.UngetBits | luvcview-20070512/utils.c:645-647 | bits that the register still holds become unread again; afterwards register and bytes are again the unread rest |
| BitReader.In.ReadMarker | luvcview-20070512/utils.c:622-633 | gives the marker that ends the segment if and only if at most 24 of its bits are unread, and then stands at the start of the next segment |
| BitReader.MarkerBehind | luvcview-20070512/utils.c:622-633 | asked for before anything is read, the marker behind n plain data bytes is accepted exactly for n up to three |
| BitReader.EarlyMarker | luvcview-20070512/utils.c:622-633 | a buffer of three data bytes whose EOI is accepted with all 24 bits unread |
| AnnexC.CanonicalCodes | luvcview-20070512/utils.c:759-785 | the running code of the table builder gives every symbol the code word of T.81 Annex C (HUFFSIZE, HUFFCODE) |
| AnnexC.PrefixFree | luvcview-20070512/utils.c:759-785 | in a table that is not over-subscribed a bit stream begins with at most one code word |
| AnnexC.ExtendNonzero | luvcview-20070512/utils.c:678-683 | EXTEND never gives zero for a size above zero, so a decoded zero means size zero |
| HuffTable.DecHuffTbl.MakeHuff | luvcview-20070512/utils.c:740-787 | for every table whose code lengths are not over-subscribed, maxcode, valptr and vals hold the limits, first indices and symbols, and llvals is the index over ten bits |
| HuffTable.DecHuffTbl.MakeLength | luvcview-20070512/utils.c:761-784 | the codes of one length extend maxcode, valptr, vals and the index and leave the entries made before |
| HuffTable.DecHuffTbl.FillEntries | luvcview-20070512/utils.c:765-779 | the inner loop writes the entries of one code word and no others |
| HuffTable.IndexNonzero | luvcview-20070512/utils.c:740-787 | an index entry is non-zero if and only if its ten bits are below the code limit of length ten, and if and only if some code of at most ten bits is a prefix of them |
| HuffTable.IndexHit | luvcview-20070512/utils.c:763-783 | the entry found for a stream that begins with a short code is the one packed for that code word and the bits behind it |
| HuffTable.IndexMiss | luvcview-20070512/utils.c:763-783 | a stream that begins with a long code finds zero |
| HuffTable.SizeFields | luvcview-20070512/utils.c:775-778 | the fields of an entry without a value are the run, the size and the number of bits to give back of the code word the stream begins with |
| HuffTable.ValueFields | luvcview-20070512/utils.c:769-774 | the fields of an entry with a value are the run, the extended value and the bits to give back |
| HuffDecode.LongCode | luvcview-20070512/utils.c:664-670 | the loop over longer codes ends by the sentinel and stops at the length of the code the stream begins with, or beyond 16 if there is none |
| HuffDecode.LongSymbol | luvcview-20070512/utils.c:670-672 | valptr[i] + c - 2*maxcode[i-1] is the index of the symbol that Annex C assigns |
| HuffDecode.RunAndSize | luvcview-20070512/utils.c:659-673 | run and size of the symbol, its code consumed, for the size-only entry and for the long code |
| HuffDecode.DecRec2 | luvcview-20070512/utils.c:650-684 | dec_rec2 gives the run and the extended value and consumes code and value bits; a stream with no code word sets the bad-Huffman marker |
| HuffDecode.DecRec | luvcview-20070512/utils.c:686-702 | on all three routes DEC_REC gives the run and the signed value of bit-by-bit DECODE, RECEIVE and EXTEND (T.81 sections F.2.2.1, F.2.2.3, F.2.2.4) and consumes exactly as many bits |
| McuDecode.DecodeAc | luvcview-20070512/utils.c:721-733 | the run-length loop gives the coefficients of T.81 section F.2.2.2 and the position behind them, touches no other coefficient, and reports the index behind the last coded coefficient |
| McuDecode.DecodeBlock | luvcview-20070512/utils.c:717-733 | one block: the DC difference added to the prediction, then the AC coefficients; the prediction becomes the new DC value |
| McuDecode.DecodeMcus | luvcview-20070512/utils.c:704-738 | all blocks of an MCU, each with its component's tables and prediction; a reported maximum of 1 means that all AC coefficients of the block are zero |
| Idct.ZigzagColumns | luvcview-20070512/utils.c:801-810 | zig2 lists the columns of the zigzag order of T.81 figure A.6 in the butterfly's input order; the DC coefficient comes first and only there |
| Idct.InputOrder | luvcview-20070512/utils.c:827-846 | input m of column i is the dequantized coefficient of vertical frequency Frequency(m) and horizontal frequency Frequency(i); the offset goes to the DC coefficient |
| Idct.InPlaceButterfly | luvcview-20070512/utils.c:863-894 | the assignments to the local variables compute the butterfly |
| Idct.ButterflyFlat | luvcview-20070512/utils.c:848-862 | when the other seven inputs are zero the butterfly copies the first one: the shortcut for a row or column is exact |
| Idct.FlatBlock | luvcview-20070512/utils.c:820-826 | for a block without AC coefficients every sample is the scaled DC value: the shortcut for max 1 is exact |
| Idct.Idct | luvcview-20070512/utils.c:812-955 | with all its shortcuts idct computes the samples of the two unshortened passes, for every block for which max 1 implies zero AC coefficients, and writes nothing else |
| Idct.ButterflyError | luvcview-20070512/utils.c:863-894 | one butterfly's floors add at most five to 31 times the error of its inputs |
| Idct.SampleError | luvcview-20070512/utils.c:812-955 | for all coefficients and quantizers every sample differs by at most one from the same two passes over exact rationals, floored once at the end |
| Dct.RoundedConstants | luvcview-20070512/utils.c:797-799 | the rational butterfly is the general one with the rounded constants 2896, 1567 and 3784 over 2048 |
| Dct.ButterflyIsInverse | luvcview-20070512/utils.c:863-894 | with exact cosines for its constants, and each input scaled by its cosine, the butterfly is the one-dimensional inverse DCT of T.81 section A.3.3 |
| Dct.ScaledOrder | luvcview-20070512/utils.c:801-810 | the butterfly's eight inputs, each scaled by its own cosine, are the coefficients in the order of the columns of zig2 |
| Dct.TwoPasses | luvcview-20070512/utils.c:827-953 | with exact constants columns and then rows are the two-dimensional inverse DCT |
| DctError.ConstantsNear | luvcview-20070512/utils.c:797-799 | 2896, 1567 and 3784 over 2048 differ by at most 1/4096 from 2cos(pi/4), 2cos(3pi/8) and 2cos(pi/8), whatever function satisfies the addition theorem with these cosines positive |
| TrueDct.ZigzagRule | luvcview-20070512/utils.c:957-966 | zig numbers the 64 places along the diagonals, alternately upwards and downwards, turning at the edges (T.81 figure A.6) |
| TrueDct.PrepareQuant | luvcview-20070512/utils.c:976-986 | every quantizer is multiplied with the rounded product of the factors of its row and its column, at its zigzag place |
| TrueDct.SampleTrue | luvcview-20070512/utils.c:812-955 | for all coefficients and quantizers the decoder's sample differs from the inverse DCT of T.81 section A.3.3 of the dequantized coefficients, plus offset, by at most 1.08 and 1/910 of the sum of their absolute values: rounding of constants, factors and intermediate results together |
| TrueDct.OffsetAdded | luvcview-20070512/utils.c:479-491 | the offset in the DC coefficient adds its 2048th part to every sample |
| Tile420.Quad | luvcview-20070512/utils.c:1034-1049 | the four samples a round of the inner loop reads are those of its two pixels: luma by block and place, chroma shared |
| Tile420.ClipNearest | luvcview-20070512/utils.c:1040-1043 | no other value of 0..255 is nearer to a sample than the byte stored; a sample in that range is stored unchanged |
| Tile420.WriteTile | luvcview-20070512/utils.c:1020-1062 | every byte of the 16x16 tile is the value of 0..255 nearest to the sample of its pixel (luma of its block, chroma shared by 2x2 pixels), and no byte outside the tile changes |
| PictureMap.TilesDisjoint | luvcview-20070512/utils.c:470-471 | no byte of the picture belongs to two tiles |
| PictureMap.TilesCover | luvcview-20070512/utils.c:418-428 | when width and height are multiples of 16 every byte belongs to a tile |
| PictureMap.PlacedNext | luvcview-20070512/utils.c:527 | drawing a macroblock in raster order leaves the earlier ones in place |
| PictureMap.PixelFormula | luvcview-20070512/utils.c:527 | the byte at any pixel row and position is that of its tile |
| ScanSpec.ScanComplete | luvcview-20070512/utils.c:470-476 | a scan without a wrong restart marker gives all its MCUs |
| ScanSpec.IntervalsIndependent | luvcview-20070512/utils.c:254-275 | MCU j of restart interval i comes out of that interval's own segment with DC predictions zero, and the segment ends with RST((k + i) mod 8), or with EOI if it is the last (T.81 section E.2.4) |
| JpegEncode.BlockBack | luvcview-20070512/utils.c:717-733 | a block encoded as T.81 sections F.1.2.1 and F.1.2.2 say (difference of the DC coefficient, runs of zeros, sixteen zeros at a time, end of block) decodes to its 64 coefficients and exactly its bits are consumed |
| JpegEncode.McuBack | luvcview-20070512/utils.c:704-738 | the same for the blocks of an MCU and their predictions |
| JpegEncode.ScanBack | luvcview-20070512/utils.c:464-543 | any MCUs that the tables can encode, cut into restart intervals, filled up with ones, stuffed and separated by RST0 to RST7 in turn with EOI (FF D9) at the end, decode to exactly these MCUs without an error |
| JpegEncode.WrongRestart | luvcview-20070512/utils.c:264-275 | with any other marker behind an interval the scan ends with its MCUs and error 12 |
| JpegEncode.WrongEnd | luvcview-20070512/utils.c:531-534 | with anything but EOI at the end all MCUs are decoded and the error is 13 |
| ScanDecode.NextRestart | luvcview-20070512/utils.c:271 | the expected marker after RST7 is RST0 |
| ScanDecode.Decoder.constructor | luvcview-20070512/utils.c:289-297 | a decoder over initialized tables, with three scans and quantizers, is ready for the first scan |
| ScanDecode.Decoder.InitScans | luvcview-20070512/utils.c:254-262 | counter, expected marker and all predictions at the start of a scan |
| ScanDecode.Decoder.CheckMarker | luvcview-20070512/utils.c:264-275 | succeeds exactly when at most 24 bits are unread and the marker is the expected one; then predictions are zero, the counter is the interval and the reader stands in the next segment |
| ScanDecode.Decoder.Restart | luvcview-20070512/utils.c:472-476 | the countdown reaches zero exactly before the first MCU of an interval; then the interval begins, or the scan ends with the wrong-marker error as it should |
| ScanDecode.Decoder.SixBlocks | luvcview-20070512/utils.c:479-491 | the six idct calls give the samples of a macroblock: four luma blocks, one of each chroma |
| ScanDecode.Decoder.DecodeMacro | luvcview-20070512/utils.c:477-492 | one macroblock: the next one of the scan, its samples in the output buffer |
| ScanDecode.Decoder.DrawRow | luvcview-20070512/utils.c:471-528 | one row of macroblocks drawn, or the scan's error with what was drawn before it |
| ScanDecode.Decoder.DecodeScan | luvcview-20070512/utils.c:464-543 | the MCU loop draws exactly the macroblocks that the interval-by-interval specification of the scan gives, each in its tile and nothing else, and returns that specification's error or zero |
| ScanPicture.DecodePicture | luvcview-20070512/utils.c:289-543 | from quantizers and Huffman tables that are not over-subscribed to the picture: the tables are made, the quantizers prepared, the scans set up with the components' choice of tables, and the picture drawn is that of the interval-by-interval specification, with its error or zero |
| ScanPicture.FourOneOne | luvcview-20070512/utils.c:467-469 | as the scans are set up, an MCU is four luminance blocks, each predicted from the one before, and one of each chrominance, with the tables chosen for their components |
| ScanPicture.PictureTrue | luvcview-20070512/utils.c:464-543 | in a completely decoded picture every byte is nearest to a number that differs from 128.5 plus the inverse DCT of the pixel's block, with the quantizers of the headers, by at most 1.08 and 1/910 of the block's sum of absolute coefficients |
| ScanDecode.MacroblockOrder | luvcview-20070512/utils.c:467-469 | with hand-over counts 2, 1, 0 an MCU is four blocks of the first component, the prediction going from each to the next, one of the second and one of the third |
| ScanDecode.WholePicture | luvcview-20070512/utils.c:418-428 | for sides that are multiples of 16, once all macroblocks are drawn every byte is nearest to the sample of its pixel, in macroblock (r / 16) * (width / 16) + b / 32 |
| DcrackTables.PrefixNext | aircrack-ng-1.2-beta2/scripts/dcrack.py:391-400 | a row that begins where the coverage ends extends it |
| DcrackTables.PrefixEnd | aircrack-ng-1.2-beta2/scripts/dcrack.py:391-400 | where the next row does not begin there, the first free line is found, and a whole chunk fits before any later row |
| DcrackServer.Gap | aircrack-ng-1.2-beta2/scripts/dcrack.py:387-403 | the loop of try_network finds the least uncovered line; the clipping against the row behind the one that opened the gap never takes effect |
| DcrackServer.Reach | aircrack-ng-1.2-beta2/scripts/dcrack.py:283-289 | the loop of do_result computes how far the reported rows reach from line 0 without a gap |
| DcrackServer.Server.TryNetwork | aircrack-ng-1.2-beta2/scripts/dcrack.py:378-420 | hands out the chunk at the least uncovered line and inserts its row, or changes nothing when every line is covered |
| DcrackServer.Server.TryNetworks | aircrack-ng-1.2-beta2/scripts/dcrack.py:439-442 | the loop over the networks: the first of them with an uncovered line |
| DcrackServer.Server.GetWork | aircrack-ng-1.2-beta2/scripts/dcrack.py:422-459 | do_getwork is the specified step: expired rows deleted, the first free chunk of the active networks, else the oldest assigned row given up and handed out again; a deletion that frees nothing is rolled back; without a current dictionary the request fails |
| DcrackRows.GetWorkRows | aircrack-ng-1.2-beta2/scripts/dcrack.py:422-459 | on rows: after a request for work no row is in state 1 for more than 3600 seconds, the only new row is the chunk handed out, and every row that was reported or is younger than that is still there, except the longest waiting one when it is handed out again |
| DcrackRows.HandedAgain | aircrack-ng-1.2-beta2/scripts/dcrack.py:444-455 | a chunk assigned at most 3600 seconds ago, or reported, is handed out again only if every line of every active network is covered by such rows |
| DcrackRows.HandedFree | aircrack-ng-1.2-beta2/scripts/dcrack.py:378-442 | otherwise an active network gets the 5,000,000 lines, or the last ones, that begin at its first line not covered by such rows, none of them covered |
| DcrackRows.ChunkSizes | aircrack-ng-1.2-beta2/scripts/dcrack.py:387-406 | in every reachable state each row begins at a multiple of 5,000,000 lines and has that many, or ends with its dictionary |
| DcrackRows.ResultRows | aircrack-ng-1.2-beta2/scripts/dcrack.py:262-299 | on rows: a report puts its chunk into state 2 and changes no other row, or closes the network, and then exactly the network's rows go |
| DcrackRows.RemoveRows | aircrack-ng-1.2-beta2/scripts/dcrack.py:148-161 | on rows: exactly the network's own rows and work go |
| DcrackRows.CrackRows | aircrack-ng-1.2-beta2/scripts/dcrack.py:324-335 | on rows: one active row without a password more, nothing else |
| DcrackRows.PasswordRows | aircrack-ng-1.2-beta2/scripts/dcrack.py:237-245 | on rows: every row of the network is closed with the password, its work goes, no other row changes |
| DcrackServer.Server.Result | aircrack-ng-1.2-beta2/scripts/dcrack.py:247-299 | do_result without a password is the specified step, including the networks that are already done and late reports |
| DcrackServer.Server.ResultPass | aircrack-ng-1.2-beta2/scripts/dcrack.py:205-235 | a confirmed password closes the network, deletes its work and is stored |
| DcrackProperties.NoMoreWork | aircrack-ng-1.2-beta2/scripts/dcrack.py:237-245 | once a network is done, no later request hands out any of its work until somebody asks for the network again |
| DcrackProperties.NetDoneEnds | aircrack-ng-1.2-beta2/scripts/dcrack.py:237-245 | a network done has no active row and no work, and no other network loses or gains work |
| DcrackServer.Server.Remove | aircrack-ng-1.2-beta2/scripts/dcrack.py:148-161 | the network's rows and work disappear, and no other row |
| DcrackServer.Server.Crack | aircrack-ng-1.2-beta2/scripts/dcrack.py:324-335 | a network row in state 1 is added |
| DcrackServer.Server.DictSet | aircrack-ng-1.2-beta2/scripts/dcrack.py:337-349 | exactly the dictionaries with this id are current |
| DcrackServer.Server.UploadDict | aircrack-ng-1.2-beta2/scripts/dcrack.py:62-93 | a dictionary row is added, not current; equal ids have equal lines |
| DcrackRuns.StepKeeps | aircrack-ng-1.2-beta2/scripts/dcrack.py:105-146 | every request keeps: rows are distinct chunks of their dictionary aligned to 5,000,000 lines; rows in state 2 are the reports written down, which are all reports since the network's work was deleted unless the network's first row is closed; networks closed without a password have had a dictionary reported |
| DcrackProperties.RunKeeps | aircrack-ng-1.2-beta2/scripts/dcrack.py:105-146 | every run of requests keeps all of that |
| DcrackProperties.RunSafe | aircrack-ng-1.2-beta2/scripts/dcrack.py:378-455 | in every state of every run of requests the rows of a network and dictionary are pairwise disjoint aligned chunks, and a network closed without a password has had every line of some dictionary reported |
| DcrackProperties.NextChunkLeast | aircrack-ng-1.2-beta2/scripts/dcrack.py:378-420 | what is handed out begins at the least uncovered line and none of its lines is covered; nothing is handed out if and only if every line is covered |
| DcrackProperties.ForcedReassignment | aircrack-ng-1.2-beta2/scripts/dcrack.py:444-455 | when every line of every active network is handed out, the row that has waited longest is handed out again, unchanged, if its network is active and its dictionary current, and otherwise nothing is handed out, whatever other rows are waiting |
| DcrackProperties.ResultCases | aircrack-ng-1.2-beta2/scripts/dcrack.py:262-299 | what a report does in every state: nothing to the tables if the network's first row is closed, else close the network if all reports since its work was deleted cover the dictionary, else be written down |
| DcrackProperties.ResultCloses | aircrack-ng-1.2-beta2/scripts/dcrack.py:262-299 | a report ends the search of an active network if and only if the network's first row is not closed and the reports since its work was deleted, ignored ones included, now cover the whole dictionary |
| DcrackProperties.StuckStep | aircrack-ng-1.2-beta2/scripts/dcrack.py:262-265 | with the first row closed and another one active, exactly `remove` and a confirmed password end the active row; no report changes a table |
| DcrackProperties.StuckForever | aircrack-ng-1.2-beta2/scripts/dcrack.py:262-265 | ... however many requests follow |
| DcrackProperties.CompletedNotClosed | aircrack-ng-1.2-beta2/scripts/dcrack.py:324-335 | a run from the empty database in which the report that completes the coverage of an active network changes nothing |
| DcrackServer.CutSlice | aircrack-ng-1.2-beta2/scripts/dcrack.py:676-681 | the client's loop copies exactly the lines of its chunk |
| DcrackServer.SlicesWhole | aircrack-ng-1.2-beta2/scripts/dcrack.py:676-681 | the slices for the reported chunks of a network that is given up are, in order, the whole dictionary |
| Ring.StoreKeeps | LDD3-examples/shortprint/shortprint.c:298-301 | bytes stored into free places do not touch what the ring holds |
| Ring.PublishAppends | LDD3-examples/shortprint/shortprint.c:128-134 | moving the head publishes the stored bytes at the end of what the ring holds |
| Ring.TakeDrops | LDD3-examples/shortprint/shortprint.c:128-134 | moving the tail takes the oldest bytes |
| ShortPrint.SpaceFits | LDD3-examples/shortprint/shortprint.c:119-126 | the space computed from two separate reads of the tail is never more than the contiguous free space, however the tail moved in between |
| ShortPrint.SpaceExact | LDD3-examples/shortprint/shortprint.c:119-126 | with the tail unmoved between the reads it is all of it: up to the end of the buffer or to the one place that stays free |
| ShortPrint.NextKeeps | LDD3-examples/shortprint/shortprint.c:228-400 | every step of the writer, the work function, the interrupt and the timer keeps order, activity and wake-up invariants |
| ShortPrint.RunOk | LDD3-examples/shortprint/shortprint.c:228-400 | in every state of every run: bytes strobed out and ring contents are the accepted bytes, each call's together; queued data has output active or about to be; active output has a timer, work or a handler in progress; a sleeping writer not woken has at most half the ring free, or nothing queued, or the wake-up test next |
| ShortPrint.AllPrinted | LDD3-examples/shortprint/shortprint.c:271-317 | in every state of every run without signals and failing copies the bytes printed, those in the ring and those the call under way has not stored yet are, in order, all that the calls were given |
| ShortPrint.Drains | LDD3-examples/shortprint/shortprint.c:325-400 | from every state of every run in which output has been made active for what is queued, steps of the work function and the timer alone, with the printer ready, bring out every byte queued, in order, even if no interrupt ever comes |
| ShortPrint.EverythingComesOut | LDD3-examples/shortprint/shortprint.c:228-400 | so after any run without signals and failing copies, once the calls have returned, the printer can get exactly what all calls were given, in order |
| ShortPrint.WholeWrite | LDD3-examples/shortprint/shortprint.c:271-317 | a call that nobody disturbs puts all its data at once into an empty ring it fits into |
| ShortPrint.SignalEnds | LDD3-examples/shortprint/shortprint.c:290-292 | a signal ends the wait: the call returns or goes on with space it has found |
| ShortPrintLost.AsleepStep | LDD3-examples/shortprint/shortprint.c:325-349 | while the writer sleeps, any step leaves it asleep on an empty ring, or wakes it before the ring runs empty |
| ShortPrintLost.LostForever | LDD3-examples/shortprint/shortprint.c:289-293 | asleep on an empty ring the writer is never woken except by a signal |
| ShortPrintLost.LostExactly | LDD3-examples/shortprint/shortprint.c:345-348 | a sleeping writer that has not been woken can still be woken by the driver if and only if data is queued |
| ShortPrintLost.LosingStep | LDD3-examples/shortprint/shortprint.c:119-126 | the one step that loses a writer: its second read of the tail, past prepare_to_wait, not above the head, with no byte in the ring and no wake-up or signal; no other step of anybody does |
| ShortPrintLost.LostReachable | LDD3-examples/shortprint/shortprint.c:119-126 | for every ring of at least three bytes a run leads, by one torn read of the tail, to a writer that has data left and sleeps for ever on an empty ring with output inactive |
| ScullPipe.SpaceFreeIs | LDD3-examples/scull/pipe.c:181-186 | spacefree is the capacity (one less than the size) minus what the buffer holds: full is never taken for empty |
| ScullPipe.SpaceFreeAtEnd | LDD3-examples/scull/pipe.c:181-186 | the same with a pointer about to be wrapped, except that an empty buffer then shows as -1, which does not put a writer to sleep |
| ScullPipe.Pipe.Free | LDD3-examples/scull/pipe.c:181-186 | the free space of the queue |
| ScullPipe.Pipe.Read | LDD3-examples/scull/pipe.c:137-148 | the oldest bytes leave the queue, in order: as many as asked for, or all there are, or all up to the end of the buffer |
| ScullPipe.Pipe.Write | LDD3-examples/scull/pipe.c:202-215 | the first bytes of the data join the queue: all, or as many as there is space for, or as many as fit before the end of the buffer |
| ScullPipe.ReadCountIs | LDD3-examples/scull/pipe.c:138-141 | a read moves no more than there is, stays inside the buffer, and stops short of what is asked for only at the end of the data or of the buffer |
| ScullPipe.WriteCountIs | LDD3-examples/scull/pipe.c:203-207 | a write never fills the last place, stays inside the buffer, and stops short of the data only at a full queue or the end of the buffer |
| ScullPipeRuns.StoreKeepsWaiting | LDD3-examples/scull/pipe.c:146-152 | what waiting processes know survives another process's pointer store |
| ScullPipeRuns.NextKeeps | LDD3-examples/scull/pipe.c:118-226 | every step of every process keeps order, mutual exclusion and the wake-up invariant |
| ScullPipeRuns.RunOk | LDD3-examples/scull/pipe.c:118-226 | in every state of every run of any number of readers and writers: delivered bytes and buffer contents are the accepted bytes in order, at most size - 1 of them undelivered; a process asleep though it could go on, and not woken, has another one between its pointer store and the end of its wake-up call |
| ScullPipeRuns.MovesSomething | LDD3-examples/scull/pipe.c:137-148 | a call that reaches its data section with a length other than zero moves at least one byte |
| ScullPipeRuns.ReturnsOnly | LDD3-examples/scull/pipe.c:118-226 | a call returns only after its wake-up call, with data moved, or on a fault or signal, or without waiting when it asked for that and there is really nothing to read or no space |
| ScullPipeRuns.NotAsleep | LDD3-examples/scull/pipe.c:125-178 | a call that is not to block never waits, a reader with a signal pending does not go to sleep, and a writer woken by one returns |
| ScullPipeRuns.GetsThrough | LDD3-examples/scull/pipe.c:118-226 | waking up is not in vain: a process that has been woken, or is about to test its condition, reaches its data section by its own steps alone if the semaphore is free and there is something to read, or space to write |
| ScullGeometry.PlaceIs | LDD3-examples/scull/main.c:309-312 | list item, slot and offset are the unique decomposition of a position |
| ScullGeometry.PlaceUnique | LDD3-examples/scull/main.c:309-312 | two positions never share a place |
| ScullGeometry.PlaceByQuantum | LDD3-examples/scull/main.c:309-312 | item and slot are quotient and remainder of the quantum number |
| ScullStore.Dev.Follow | LDD3-examples/scull/main.c:262-287 | the list grows by empty items exactly as far as needed, or as far as allocations are granted; existing items are found unchanged |
| ScullStore.Dev.Read | LDD3-examples/scull/main.c:292-334 | gives the bytes last written at its positions, up to the end of the quantum or file (short of both it ends at a quantum boundary); zero bytes from a hole; the list may grow, contents and size do not change |
| ScullStore.Dev.Write | LDD3-examples/scull/main.c:336-387 | -ENOMEM exactly when more allocations are missing on the way to the quantum than are granted, so never for a quantum that is there; otherwise the bytes up to the end of the quantum become the contents at their positions, no other position changes and the size is the maximum of write ends; a shorter write ends at a quantum boundary; when memory runs out nothing changes |
| ScullStore.Dev.WrittenPresent | LDD3-examples/scull/main.c:317-318 | a written position lies below the size and in a quantum, so a read there gives bytes |
| ScullStore.Dev.Trim | LDD3-examples/scull/main.c:63-84 | everything is given back, nothing twice; the device is empty and takes over the parameters |
| ScullStore.Dev.Open | LDD3-examples/scull/main.c:238-253 | opening write-only empties the device, opening otherwise changes nothing |
| ScullStore.Dev.Seek | LDD3-examples/scull/main.c:523-547 | the new position by whence; negative positions and other whence values are refused |
| ScullCells.WrittenThrough | LDD3-examples/scull/main.c:373-382 | bytes stored in one quantum are the bytes written at their positions |
| ScullCells.FreedMember | LDD3-examples/scull/main.c:69-78 | what trim gives back is exactly the list items, arrays and quanta of the device, or for scullp all but the first item |
| ScullCells.FreedOnce | LDD3-examples/scull/main.c:69-78 | each of them once |
| ScullpMap.Scullp.Walk | LDD3-examples/scullp/mmap.c:77-81 | repeated subtraction along the list finds item n / qset with rest n mod qset, or the end of the list |
| ScullpMap.Scullp.NoPage | LDD3-examples/scullp/mmap.c:60-93 | a page fault in a mapping finds the page of the quantum that holds the position, by the same place that read computes; a hole or a position beyond the size is a bus error |
| ScullpMap.Scullp.constructor | LDD3-examples/scullp/main.c:558-562 | a device starts with one item, no array and no mapping, and every later item is as empty |
| ScullpMap.Scullp.Fits | LDD3-examples/scullp/main.c:243-253 | a stretch of a quantum runs over its page exactly when the order is not zero, the position lies behind the first item and the stretch ends beyond 4096 bytes |
| ScullpMap.Scullp.Read | LDD3-examples/scullp/main.c:168-212 | for every order: a stretch of the very page that a page fault at that position finds, up to the end of quantum and file; nothing where there is no page; and an overrun exactly where the page is short |
| ScullpMap.Scullp.Write | LDD3-examples/scullp/main.c:216-268 | for every order: no memory exactly when more allocations are missing than are granted, an overrun exactly when the page is short, and otherwise the bytes up to the end of the quantum are there afterwards, a new page has zeros around them, no other byte changes and the size is the maximum of write ends; when memory runs out no byte and no size changes |
| ScullpMap.Scullp.Allocate | LDD3-examples/scullp/main.c:236-250 | item, array and page are there afterwards; no byte changes, and there are new ones, zero, exactly in the new page |
| ScullpMap.CopiedBytes | LDD3-examples/scullp/main.c:251-256 | bytes copied into one page are the bytes at their positions, and no other position changes |
| ScullpMap.SecondItemShort | LDD3-examples/scullp/main.c:243-253 | with order one, a write into the second half of the second item never succeeds, and leaves its page unless memory runs out first |
| ScullpMap.Scullp.Follow | LDD3-examples/scullp/main.c:151-162 | the item with this number, the list extended if need be |
| ScullpMap.Scullp.Mmap | LDD3-examples/scullp/mmap.c:104-118 | refused exactly when the order is not zero; otherwise one more mapping |
| ScullpMap.Scullp.Trim | LDD3-examples/scullp/main.c:482-510 | refused, with geometry, size and contents unchanged, exactly while there are mappings; otherwise every page, array and item but the device itself is given back, nothing twice, and the parameters take effect |
| Rc4.SwapPerm | aircrack-ng-1.2-beta2/src/aircrack-ptw-lib.c:288-290 | an exchange keeps a permutation of 0..255 |
| Rc4.SharedPrefix | aircrack-ng-1.2-beta2/src/aircrack-ptw-lib.c:349-355 | the key setup of any key that begins with the initialization vector is, up to its length, that of the vector alone |
| Rc4.State.Init | aircrack-ng-1.2-beta2/src/aircrack-ptw-lib.c:272-294 | the key setup with the key repeated, and a permutation at the end |
| Rc4.State.Update | aircrack-ng-1.2-beta2/src/aircrack-ptw-lib.c:297-308 | one turn of the generator, still a permutation, and its byte |
| Rc4.TurnBack | aircrack-ng-1.2-beta2/src/aircrack-ptw-lib.c:297-308 | a turn can be undone from its result: index, exchanged entries and all others are determined |
| Rc4.ByteOfEntry | aircrack-ng-1.2-beta2/src/aircrack-ptw-lib.c:297-308 | when the exchanged entries add up to the index, the stream byte and the entry that stood there add up to it, too |
| Rc4.Test | aircrack-ng-1.2-beta2/src/aircrack-ptw-lib.c:310-324 | true exactly when the first six key stream bytes match |
| PtwGuess.Search | aircrack-ng-1.2-beta2/src/aircrack-ptw-lib.c:358-361 | the search for a value in the permutation ends at its place |
| PtwGuess.GuessKeyBytes | aircrack-ng-1.2-beta2/src/aircrack-ptw-lib.c:341-368 | the guesses for all key byte sums, and no other entry of the result changes |
| PtwGuess.IndexAfter | aircrack-ng-1.2-beta2/src/aircrack-ptw-lib.c:356-366 | while the entries ahead are undisturbed the index j is the vector's index plus those entries plus the key bytes |
| PtwGuess.GuessRight | aircrack-ng-1.2-beta2/src/aircrack-ptw-lib.c:341-368 | a guess is the sum of the key bytes so far whenever the entries ahead are undisturbed and the entry put in place is the position minus the key stream byte |
| PtwGuess.GuessFromStream | aircrack-ng-1.2-beta2/src/aircrack-ptw-lib.c:341-368 | a guess from a byte that the generator itself put out is the sum of the key bytes so far under the classical conditions on the state |
| PtwVotes.IvNumberUnique | aircrack-ng-1.2-beta2/src/aircrack-ptw-lib.c:710 | different initialization vectors have different bits in the bitmap |
| PtwVotes.SeenSet | aircrack-ng-1.2-beta2/src/aircrack-ptw-lib.c:711-714 | setting a vector's bit marks this vector and no other |
| PtwVotes.Attack.constructor | aircrack-ng-1.2-beta2/src/aircrack-ptw-lib.c:748-769 | a new attack has no sessions, no votes and no vector seen, and every table entry is labelled with its byte |
| PtwVotes.Attack.CountVotes | aircrack-ng-1.2-beta2/src/aircrack-ptw-lib.c:717-720 | one session's votes turn the recount of the earlier sessions into that of all |
| PtwVotes.VotesConserved | aircrack-ng-1.2-beta2/src/aircrack-ptw-lib.c:717-720 | in each row of the table the votes add up to the weights of all sessions |
| PtwVotes.StreamsAt | aircrack-ng-1.2-beta2/src/aircrack-ptw-lib.c:717-720 | session number j of a call is its vector, bytes 32j to 32j + 31 of the key streams and weight j |
| PtwVotes.Attack.AddSession | aircrack-ng-1.2-beta2/src/aircrack-ptw-lib.c:704-743 | after every call the table is the weighted recount over all sessions, its labels unchanged; a call is accepted exactly when its vector was never seen before, adds exactly its key streams, and fills the next control session while there is room |

## Left out

- JPEG headers, table parsing (`readtables`, `huffman_init`) and the colour tables: the decoder starts from tables, quantizers and a position in the buffer.
- Huffman tables that are over-subscribed and entropy data that is not decodable: well-formedness is a precondition, as is a terminating marker in the buffer.
- The callback `func` at end of file: no caller sets it, so 0x80 is a marker like any other; fill bytes FF FF are taken as a marker, as the code does.
- The register copies `le` and `bi` in the decoding macros are the fields of the reader here; the two are written back before every call.
- The 4:2:2, 4:4:4 and grey paths: they pass idct maxima that `decode_mcus` does not fill for them.
- Integer widths other than the reader's 32-bit register: coefficients, samples and counters are unbounded.
- dcrack: HTTP, SQLite and the files themselves; a request is one atomic step, time is a parameter, whether aircrack-ng confirms a password is a parameter. Client pings and status queries. Clients report only ranges they were given.
- dcrack: that an uncommitted deletion is rolled back rests on each request having a connection of its own, closed when its thread ends.
- dcrack: where SQL leaves the order of equal keys open, the model takes table order; rows have distinct starts, so only the choice among equally old rows is affected.
- shortprint: reading, release, module set-up; printer ports beyond the strobed byte; that `add_timer` may meet a timer that is already pending.
- shortprint: copying, strobing and the lock's critical sections of one step are single steps where nobody else can observe the difference.
- scull pipe: opening resets both pointers, so a run is what happens between opens; poll and asynchronous notification; a changed `scull_p_buffer`.
- scull: geometry is read before the semaphore is taken; here each call is atomic. Copy faults. Positions and sizes are unbounded. Contents of quanta at positions never written are not determined.
- scullp: asynchronous calls, ioctls, copy faults, failing allocation in `scullp_follow` (the code does not test it), page reference counts; negative orders. What happens after a copy has left its page is not defined.
- scull: the ioctls are modelled (`ScullStore.Params`) without a row: they only store and give back parameters.
- PTW: the key search, floating-point statistics, the SSE2 variant of the key stream test; overflow of vote counters; allocation failure ends the program and is not modelled.
- scullc, sculld, scullv, snull, sbull, short, tiny_tty, qextserialport and the user interfaces: easier repetitions or foreign calls.
