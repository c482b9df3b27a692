# Verified models: QR codes, region labelling, chain compiler, RPC channel, profile store

This project models five parts of the repository in Dafny and proves what they promise each other.

**QR symbols.** `3rdparty/qrcodegen.cpp` writes QR symbols and `3rdparty/quirc/decode.c` reads them. They
share no code: one multiplies in GF(256) bit by bit, the other through tables; one draws the zigzag with
three loops, the other reads it with one; block tables and alignment coordinates are kept twice. The model
follows both, from the arithmetic of both fields over Reed-Solomon encoding, Berlekamp-Massey, Chien search
and Forney's formula, interleaving, function patterns, format information, penalty score and mask choice up
to the segments, and ends with one theorem
(`SymbolCodec.Transmit`): any segments that fit, written at any level, version range and mask, decode to
the original text from an exact capture of the symbol, unless the version is 21. A damaged capture decodes
to it as well (`SymbolCodec.ReadSymbol`) if two conditions on what the capture shows hold. The first copy of
the format information has at most three wrong bits, or it is not accepted and the second has at most three.
And in every block few enough of the codewords that the modules show are wrong.

**Region labelling.** The flood fill of `3rdparty/quirc/identify.c` keeps an explicit stack of scans that
can be resumed and gives up when it is full. It is shown to end on every image and to recolour exactly a
4-connected component, and on that rest the labelling invariant of `region_code` and the relabelling trick
of `find_region_corners`.

**Chains.** `src/configs/generate.cpp` compiles a list of hops into two configurations, for sing-box and
for Xray, that hand traffic to each other over local socks bridges. The model follows traffic through
detours, proxySettings, bridge inbounds and rules, and proves that it passes exactly the user's hops in order, for the
main chain and every outbound of the routing profile, and that it leaves outside the TUN device.

**RPC channel.** `src/api/RPC.cpp` multiplexes concurrent calls over one local socket to
`core/server/dispatch.go`. The model is a step relation in which callers, timeouts, the io thread,
disconnects, reconnects and the handlers of the core interleave in every way that their locks allow.

**Profile store.** `src/database/ProfilesRepo.cpp` hands out one shared object for each profile id through a
map of weak references, and takes new ids from a counter in the database that `src/database/Database.cpp`
keeps ahead of restored rows. The methods are tied to a transition relation, and the theorems are about
all its runs.

Where the code and its own expectations disagree, the model follows the code:

- `codestream_ecc` reads the extra data byte of every long block from the wrong place (decode.c:597-598
  against qrcodegen.cpp:524-529). The round trip therefore spends one correction on each long block, and
  `Interleave.GatheredNearby` says exactly how far the gathered block is off.
- The decoder's table has 92 where the encoder computes 94 as the last alignment coordinate of version 21.
  The reserved cells agree exactly in the other versions (`FunctionPatterns.ReservedAgreesExactly`). In
  version 21 the decoder takes module (96, 96) of an alignment pattern for one of the first 606 bits, and so
  under every mask there are streams that it does not read back; every stream is read back exactly in the
  versions other than 21 (`MisreadSymbols.ReadBackExactly`).
- `correct_format` (decode.c:370-403) accepts words that are near no format word, and then `quirc_decode`
  never looks at the second copy. `Accepted` says exactly which words those are, and
  `FormatMisread.FourWrongModules` has four wrong modules in the first copy that make the decoder take a
  symbol of level High and mask 2, its second copy intact, for one of level Medium and mask 0.
- The ECI value is reported with its prefix bits from 128 on (`Payload.EciExactly`).
- The Xray side of a loopback-protected group of nothing but Xray hops uses the next group's first tag
  (`ChainConfig.XrayTagsDistinctExactly`).
- A profile that is listed twice in one batch gets two ids, and the chunk with its row is refused while the
  call reports success (`Profiles.ProfilesRepo.AddProfileBatch`, `Profiles.AddedBatch`). There is still one
  object for each id then, but the identity map finds it under its first id as well: that what is found has
  the id asked for holds for runs whose batches have no repetitions (`ProfileStore.NamedUntilRebound`).
- A call woken by `wakeAllWithError` can return while its id is still in `pending`
  (`RpcChannel.ReturnsEarly`); once the lock is free it no longer is.

## How it is organised

| files | model |
|---|---|
| Bytes, GaloisTables, Gf256, GaloisField, Polynomials, LinearRecurrence | the fields, polynomials and linear recurrences |
| ErrorLocator, Forney, ErrorValues, BlockDecoder | the decoder's error correction |
| BlockEncoder, Interleave | the encoder's parity, and the codeword sequence of both sides |
| VersionTables, FunctionPatterns, Capacity, Zigzag, SymbolReader, MisreadSymbols | tables, reserved cells, drawing, masking and reading |
| Penalty, QrSymbol | penalty score, mask choice and the QrCode constructor |
| FormatInfo, FormatReader, FormatMisread | format information on both sides |
| Segments, SegmentEncoder, Payload, PayloadDecoder, SymbolCodec | segments, payload and the whole way |
| FloodFill, Regions | flood fill and region labelling |
| Chains, ChainWalk, ChainConfig, ChainEgress, ChainBuilder, RouteTargets | chain compiler |
| Frames, RpcChannel, RpcOutcome, RpcQueue | wire format and channel |
| ProfileStore, Profiles | profile ids, identity map, batches and restores |

Code that works step by step is a method over arrays or a class whose fields it changes, proved against
functions and predicates; the lemmas are about those. Symbol modules and images are two-dimensional arrays
where the source computes offsets into a flat one. `dafny verify dfyconfig.toml` checks everything.

## Model

| member | source | states |
|---|---|---|
| `Gf256.MulAssoc` | 3rdparty/quirc/decode.c:50-124 | multiplying through the logarithm and exponent tables is associative |
| `Gf256.Distrib` | 3rdparty/quirc/decode.c:50-124 | and distributes over exclusive or: with the other laws the two constant tables describe a field |
| `Gf256.DivMul` | 3rdparty/quirc/decode.c:208 | the quotient that berlekamp_massey takes from the tables times the divisor is the dividend, for every non-zero pair |
| `BlockEncoder.Multiply` | 3rdparty/qrcodegen.cpp:740-749 | Russian peasant multiplication equals multiplication through the decoder's tables, for every pair of bytes |
| `GaloisField.ImageProduct` | 3rdparty/quirc/decode.c:34-48 | the product through the tables of GF(16) is the product of GF(256) under an embedding that respects sums and zero; so what is proved about poly_add, poly_eval and berlekamp_massey holds over both fields |
| `GaloisField.ImageQuotient` | 3rdparty/quirc/decode.c:208 | and so is the quotient |
| `GaloisField.InsidePower` | 3rdparty/quirc/decode.c:34-48 | every entry of the power table of GF(16) is the 17th power of an entry of the other |
| `BlockEncoder.ComputeDivisor` | 3rdparty/qrcodegen.cpp:702-724 | the divisor, with its implicit leading 1, takes the value of the product of (x - 2^i) at every point, for every degree |
| `BlockEncoder.ComputeRemainder` | 3rdparty/qrcodegen.cpp:727-737 | the remainder has the divisor's length and is congruent to the shifted data: at every point, data times x^n plus remainder is a multiple of the divisor |
| `BlockEncoder.RemainderMakesCodeword` | 3rdparty/qrcodegen.cpp:727-737 | data followed by its remainder has all syndromes zero, for any data and any degree up to 254 |
| `BlockEncoder.ParityUnique` | 3rdparty/qrcodegen.cpp:727-737 | within 255 bytes no other parity does: two codewords with the same data are equal |
| `BlockEncoder.EncodeBlock` | 3rdparty/qrcodegen.cpp:518-531 | the block that addEccAndInterleave builds starts with its data and is a codeword |
| `ErrorLocator.PolyAdd` | 3rdparty/quirc/decode.c:130-150 | over either field, dst becomes dst + c x^shift src in every coefficient that fits, with the zero shortcut and the table product |
| `ErrorLocator.Discrepancy` | 3rdparty/quirc/decode.c:194-206 | over either field, the discrepancy loop computes the n-th coefficient of the product of C and the syndromes |
| `ErrorLocator.BerlekampMassey` | 3rdparty/quirc/decode.c:178-228 | over either field, for any syndromes with N up to 64: L is at most N, sigma of length L generates them, and no shorter recurrence does, even with coefficients from GF(256) |
| `ErrorLocator.NothingTruncated` | 3rdparty/quirc/decode.c:130-150 | inside the loop, poly_add never shifts a non-zero coefficient out of the buffer |
| `ErrorLocator.Lengthened` | 3rdparty/quirc/decode.c:212-220 | the branch that replaces B keeps the loop invariant with L' = n + 1 - L |
| `ErrorLocator.Repaired` | 3rdparty/quirc/decode.c:221-224 | the branch that keeps B and L keeps the loop invariant |
| `LinearRecurrence.Massey` | 3rdparty/quirc/decode.c:208-224 | a recurrence of length l that fails at term n forces every recurrence that does not to have length at least n + 1 - l |
| `LinearRecurrence.ConvCommutes` | 3rdparty/quirc/decode.c:178-228 | applying two polynomials to a sequence one after the other does not depend on the order |
| `Forney.ConvOfSyndromes` | 3rdparty/quirc/decode.c:236-261 | a polynomial applied to the syndromes of a word gives the syndromes of the word weighted by its values at the inverse locators |
| `Polynomials.Vandermonde` | 3rdparty/quirc/decode.c:236-261 | a word whose syndromes vanish from any point on for as many terms as it has non-zero bytes is zero |
| `Polynomials.RootBound` | 3rdparty/quirc/decode.c:318-330 | a polynomial with constant term 1 and more inverse locators as roots than its degree does not exist |
| `Forney.RecurrenceRoots` | 3rdparty/quirc/decode.c:318-330 | a short recurrence that generates the syndromes vanishes at the inverse of every error locator |
| `Forney.NoOtherRoots` | 3rdparty/quirc/decode.c:318-330 | and at no other: the Chien search finds exactly the error positions |
| `ErrorValues.SimpleRoot` | 3rdparty/quirc/decode.c:310-325 | the roots are simple: the derivative that correct_block computes is non-zero at every error |
| `ErrorValues.ErrorsFound` | 3rdparty/quirc/decode.c:318-330 | Chien search and Forney's formula give, at every position of a word with at most npar/2 errors, exactly the error there, and zero elsewhere |
| `BlockDecoder.PolyEval` | 3rdparty/quirc/decode.c:152-172 | over either field, evaluating through the tables equals evaluating the polynomial, at zero too |
| `BlockDecoder.BlockSyndromes` | 3rdparty/quirc/decode.c:236-261 | computes the syndromes, and reports non-zero exactly when the block is no codeword |
| `BlockDecoder.ElocPoly` | 3rdparty/quirc/decode.c:263-292 | omega holds the low terms of the product of sigma and the shifted syndromes, and zeros after them |
| `BlockDecoder.SigmaDerivative` | 3rdparty/quirc/decode.c:310-313 | the derivative buffer holds the formal derivative of sigma |
| `BlockDecoder.CorrectionLoop` | 3rdparty/quirc/decode.c:318-330 | the correction loop rewrites exactly the block, every byte by Forney's formula |
| `BlockDecoder.CorrectBlock` | 3rdparty/quirc/decode.c:294-336 | success means a codeword; a codeword is left alone; and for every codeword within npar/2 bytes of the block, the result is that codeword; bytes outside the block stay |
| `BlockDecoder.NearbyCodewords` | 3rdparty/quirc/decode.c:294-336 | two codewords of at most 255 bytes that differ in at most npar bytes are equal, so the corrected block is the only candidate |
| `Interleave.AddEccAndInterleave` | 3rdparty/qrcodegen.cpp:498-533 | accepts exactly the right amount of data; the stream interleaves codewords that carry the data in order |
| `Interleave.DataPlaced` | 3rdparty/qrcodegen.cpp:510-521 | byte j of block i is taken from where all the data of the blocks before it ends, the short blocks first |
| `Interleave.StreamUnique` | 3rdparty/qrcodegen.cpp:498-533 | no other stream interleaves codewords with the same data: the result of addEccAndInterleave is determined byte by byte |
| `Interleave.SplitAndAppend` | 3rdparty/qrcodegen.cpp:510-521 | the blocks are codewords in order, short ones padded with one byte before their parity |
| `Interleave.RowsInterleave` | 3rdparty/qrcodegen.cpp:523-531 | the interleaving loop puts every data and parity byte where the stream layout says, skipping the padding bytes |
| `Interleave.Gather` | 3rdparty/quirc/decode.c:597-600 | collects the bytes that codestream_ecc reads for a block, from raw[j*bc+i] |
| `Interleave.GatheredNearby` | 3rdparty/quirc/decode.c:597-600 | a gathered short block is the encoder's block; a long block differs from it in at most the last data byte |
| `Interleave.DamagedNearby` | 3rdparty/quirc/decode.c:597-600 | damage to the stream and the misread byte add up, block by block |
| `Interleave.CodestreamEcc` | 3rdparty/quirc/decode.c:571-612 | success means that the output is the data of codewords, in every block of the one within reach of what was gathered if there is one; failure means that some block has no codeword within reach; so whatever was sent and stays within reach comes out (SentIsNearest) |
| `Interleave.SentIsNearest` | 3rdparty/quirc/decode.c:571-612 | if every gathered block is within reach of the codeword sent, the correction finds the codewords sent |
| `Interleave.RoundTrip` | 3rdparty/quirc/decode.c:571-612 | for every block layout with at least two parity bytes, all data and all damage that leaves room for the misread byte in each long block, decoding an interleaved stream returns the data |
| `VersionTables.LayoutAgrees` | 3rdparty/quirc/version_db.c:19-421 | in every version and level the decoder's block parameters are those that the encoder derives from its own tables |
| `VersionTables.PatternsAgreeExactly` | 3rdparty/quirc/version_db.c:19-421 | the decoder's alignment coordinates are the encoder's exactly in the versions other than 21 |
| `VersionTables.Version21` | 3rdparty/quirc/version_db.c:221-230 | version 21: the decoder's last coordinate is 92, the encoder computes 94 |
| `VersionTables.SizeAgreesAlways` | 3rdparty/qrcodegen.cpp:680-692 | in every version the decoder's number of codewords is the encoder's number of data modules divided by eight |
| `FunctionPatterns.ReservedCell` | 3rdparty/quirc/decode.c:471-525 | the decision from the last nearby row and column pattern is right: true exactly on the function cells of the decoder's coordinates |
| `FunctionPatterns.GetAlignmentPatternPositions` | 3rdparty/qrcodegen.cpp:664-677 | the list filled from the far end is 6 followed by equal steps |
| `FunctionPatterns.MarkFinder` | 3rdparty/qrcodegen.cpp:465-474 | marks exactly the clipped square of nine modules around the centre |
| `FunctionPatterns.MarkAlignments` | 3rdparty/qrcodegen.cpp:401-408 | marks exactly the alignment patterns, without the three at the finders |
| `FunctionPatterns.DrawFunctionPatterns` | 3rdparty/qrcodegen.cpp:387-413 | all marks together are exactly the function cells of the encoder's coordinates |
| `FunctionPatterns.ReservedAgreesExactly` | 3rdparty/quirc/decode.c:471-525 | the decoder's reserved cells are the encoder's function cells exactly in the versions other than 21 |
| `FunctionPatterns.MisplacedPattern` | 3rdparty/quirc/decode.c:471-525 | in version 21 module (96, 96) is a function module that the decoder takes for data |
| `Capacity.RawModulesCounted` | 3rdparty/qrcodegen.cpp:680-692 | getNumRawDataModules is the number of cells that the zigzag scan finds outside the function patterns, in every version |
| `Capacity.FunctionCellCount` | 3rdparty/qrcodegen.cpp:680-692 | how many cells the function patterns take, for any well-spaced alignment coordinates |
| `Capacity.DataCellCount` | 3rdparty/qrcodegen.cpp:536-560 | the scan finds every other cell of the symbol exactly once |
| `Zigzag.PathCells` | 3rdparty/qrcodegen.cpp:536-560 | the scan visits no cell twice and none outside the symbol |
| `Zigzag.PathCovers` | 3rdparty/qrcodegen.cpp:536-560 | and every cell outside the timing column |
| `Zigzag.DrawCodewords` | 3rdparty/qrcodegen.cpp:536-560 | the three nested loops draw the stream on the data cells in scan order and change nothing else |
| `Zigzag.DrawnModules` | 3rdparty/qrcodegen.cpp:536-560 | each data cell then shows its own bit, most significant first |
| `Zigzag.MasksAgree` | 3rdparty/quirc/decode.c:455-469 | the two mask formulas are the same function of row and column |
| `SymbolReader.ApplyMask` | 3rdparty/qrcodegen.cpp:563-584 | inverts exactly the modules outside the function patterns where the mask says, and refuses other masks |
| `SymbolReader.MaskTwice` | 3rdparty/qrcodegen.cpp:563-584 | applyMask is its own inverse |
| `SymbolReader.ReadBit` | 3rdparty/quirc/decode.c:527-542 | appends one unmasked module to the packed bits |
| `SymbolReader.ReadData` | 3rdparty/quirc/decode.c:544-569 | the single loop with a direction flag reads the cells outside the reserved ones in the order of the nested loops, and packs them |
| `SymbolReader.DrawnCarries` | 3rdparty/qrcodegen.cpp:536-584 | a symbol after drawing and masking carries the stream on its data cells |
| `SymbolReader.ReadBack` | 3rdparty/quirc/decode.c:544-569 | reading a capture of a drawn and masked symbol returns exactly the stream, in every version but 21 and under every mask |
| `SymbolReader.UndamagedCodeword` | 3rdparty/quirc/decode.c:544-569 | a codeword whose eight modules are shown as drawn is read as written, whatever the other modules show, in every version but 21 |
| `MisreadSymbols.MisreadAt` | 3rdparty/quirc/decode.c:544-569 | in version 21 one of the first 606 bits read comes from module (96, 96), which belongs to an alignment pattern |
| `MisreadSymbols.MisreadBit` | 3rdparty/quirc/decode.c:544-569 | a stream is not read back if its bit with that number is not what the module shows |
| `MisreadSymbols.MisreadSymbol` | 3rdparty/quirc/decode.c:544-569 | over any function modules and under every mask there is a stream that fits version 21 and is not read back from an exact capture of its symbol |
| `MisreadSymbols.ReadBackExactly` | 3rdparty/quirc/decode.c:544-569 | every stream is read back from every exact capture, under every mask, exactly if the version is not 21 |
| `FormatInfo.FormatSyndromes` | 3rdparty/quirc/decode.c:348-368 | computes the six syndromes of a format word in GF(16), and reports non-zero exactly when it is no format word |
| `FormatInfo.NearbyFormats` | 3rdparty/quirc/decode.c:370-403 | format words that differ in at most six bits are equal |
| `FormatInfo.RootsAreErrors` | 3rdparty/quirc/decode.c:386-394 | if at most three bits are wrong, the locator polynomial vanishes at exactly the wrong ones |
| `FormatInfo.CorrectFormat` | 3rdparty/quirc/decode.c:370-403 | what comes out is determined for every input, and so is when it succeeds: exactly if the word, or the word with the bits flipped at which the shortest recurrence of its syndromes vanishes, is a format word |
| `FormatInfo.MendedWithinThree` | 3rdparty/quirc/decode.c:370-403 | a word within three bits of a format word is accepted and becomes that format word |
| `ErrorLocator.FoundShortest` | 3rdparty/quirc/decode.c:178-228 | the search as a function of the syndromes returns a shortest recurrence; berlekamp_massey returns the same polynomial |
| `FormatReader.CodeWordIsFormat` | 3rdparty/qrcodegen.cpp:416-424 | for every level and mask, the bits that drawFormatBits computes by polynomial division are a format word of the decoder |
| `FormatReader.FieldsOf` | 3rdparty/quirc/decode.c:447-450 | the level and the mask that the decoder takes from that word are the encoder's |
| `FormatReader.CollectFormat` | 3rdparty/quirc/decode.c:415-442 | both copies are read in the order in which drawFormatBits draws them |
| `FormatReader.ReadFormat` | 3rdparty/quirc/decode.c:415-453 | succeeds exactly if correct_format accepts the unmasked copy, and returns the level and the mask in what it makes of it |
| `FormatReader.FindFormat` | 3rdparty/quirc/decode.c:905-910 | the second copy is read exactly if the first is not accepted; fails exactly if neither is, and otherwise returns the level and the mask of the copy that decides |
| `FormatReader.LegibleIsSettled` | 3rdparty/quirc/decode.c:905-910 | the format word is settled on if the first copy is within three bits of it, or if the first copy is not accepted and the second is within three bits of it |
| `FormatMisread.FarFromAll` | 3rdparty/quirc/decode.c:370-403 | the word 0x00d1 is more than three bits from every format word |
| `FormatMisread.MendedToBlank` | 3rdparty/quirc/decode.c:370-403 | and yet it is accepted, and becomes the zero word |
| `FormatMisread.IntactCopyIgnored` | 3rdparty/quirc/decode.c:905-910 | with that word in the first copy the decoder goes by level Medium and mask 0, though the second copy is intact and says High and 2 |
| `FormatMisread.FourWrongModules` | 3rdparty/quirc/decode.c:905-910 | and that happens to every symbol of level High under mask 2 in which four certain modules of the first copy are inverted |
| `Penalty.GetPenaltyScore` | 3rdparty/qrcodegen.cpp:587-661 | returns the penalty of the modules, said by places: in all rows and all columns, every run of five modules or more costs its length less two and every finder-like pattern 40; every 2*2 block of one colour 3; the imbalance 10 for each step; and it is between 0 and 2568888 |
| `Penalty.WholeLineMeans` | 3rdparty/qrcodegen.cpp:591-611 | what the pass over a line adds up is the number of modules in its runs of five or more, less two for each such run, and 40 for each place of a pattern 1:1:3:1:1 with four light units on one side and one on the other, where what is outside the line is light |
| `Penalty.CountMeans` | 3rdparty/qrcodegen.cpp:752-768 | finderPenaltyCountPatterns, on a history of seven runs, counts exactly the patterns whose core ends where the latest light run begins |
| `Penalty.TallyIsScore` | 3rdparty/qrcodegen.cpp:587-661 | the sums over rows, columns, blocks and dark modules are the sizes of the sets of places |
| `Penalty.ScoreTransposed` | 3rdparty/qrcodegen.cpp:591-634 | rows and columns count alike: exchanging them does not change the score |
| `Penalty.ScoreRange` | 3rdparty/qrcodegen.cpp:654-661 | for every odd size up to 177 the score is in the asserted range and k is between 0 and 9 |
| `Penalty.ImbalanceLeast` | 3rdparty/qrcodegen.cpp:654-657 | k is the smallest number from 0 on for which the share of dark modules is between 45 - 5k and 55 + 5k percent; the total must be odd |
| `Penalty.LineBound` | 3rdparty/qrcodegen.cpp:591-611 | a line costs at most 21 for each module and a constant, from any point of it on |
| `Penalty.NoTwoInARow` | 3rdparty/qrcodegen.cpp:752-758 | finder-like patterns never end at two light runs that follow each other |
| `QrSymbol.DrawFormatBits` | 3rdparty/qrcodegen.cpp:416-440 | overwrites exactly the format modules, with the format bits of level and mask |
| `QrSymbol.DarkModule` | 3rdparty/qrcodegen.cpp:439 | the module beside the second copy is dark whatever the format bits |
| `QrSymbol.TrialsIndependent` | 3rdparty/qrcodegen.cpp:341-351 | after a trial and its undoing the codewords are back, and the next trial sees nothing of the earlier format bits |
| `QrSymbol.ChooseMask` | 3rdparty/qrcodegen.cpp:339-353 | the mask chosen has the least penalty of all eight trials, the lowest number among equals |
| `QrSymbol.DrawSymbol` | 3rdparty/qrcodegen.cpp:320-359 | rejects what the constructor rejects; otherwise the symbol is the final trial of the requested or best mask, and carries codewords made from the data |
| `Segments.AppendBits` | 3rdparty/qrcodegen.cpp:823-827 | appends the bits of the value, most significant first, exactly when the value fits the length |
| `Segments.MakeNumeric` | 3rdparty/qrcodegen.cpp:79-99 | the segment holds the digits in groups of three, and only digits are accepted |
| `Segments.MakeAlphanumeric` | 3rdparty/qrcodegen.cpp:102-122 | the segment holds the characters in pairs in base 45, and only the 45 characters are accepted |
| `Segments.MakeBytes` | 3rdparty/qrcodegen.cpp:69-76 | the segment holds the bytes in order |
| `Segments.MakeEci` | 3rdparty/qrcodegen.cpp:143-158 | one, two or three bytes with their prefixes, for values below a million and no others |
| `SegmentEncoder.GetTotalBits` | 3rdparty/qrcodegen.cpp:179-193 | the length of the whole bit stream, or -1 exactly when a count does not fit its field or an int would overflow |
| `SegmentEncoder.EncodeSegments` | 3rdparty/qrcodegen.cpp:259-317 | finds the smallest version in the range that holds the segments, or reports that there is none; with boosting, the level is the strongest of M, Q and H that still holds them, else the one asked for; the data codewords hold the stream with terminator and padding |
| `SegmentEncoder.PaddingIs` | 3rdparty/qrcodegen.cpp:299-308 | behind the stream come up to four zero bits, zero bits up to the next whole byte, and the bytes 236 and 17 in turn up to the capacity |
| `SegmentEncoder.PaddingEnds` | 3rdparty/qrcodegen.cpp:299-308 | terminator and pad bytes fill the capacity exactly, and what follows the segments ends the payload for the decoder |
| `SegmentEncoder.Pack` | 3rdparty/qrcodegen.cpp:310-313 | the bytes hold exactly the bits |
| `Payload.PayloadRoundTrip` | 3rdparty/quirc/decode.c:835-881 | for every list of numeric, alphanumeric, byte and ECI segments whose counts fit, reading the stream returns the gathered text, ECI value and data type |
| `Payload.AfterAllText` | 3rdparty/quirc/decode.c:835-881 | and that text is the concatenation of the segments' texts |
| `Payload.SegmentRoundTrip` | 3rdparty/quirc/decode.c:659-833 | one segment is read back exactly and the cursor stands behind it |
| `Payload.NumericRoundTrip` | 3rdparty/quirc/decode.c:638-693 | groups of three, two and one digits come back as the digits |
| `Payload.AlphaTextRoundTrip` | 3rdparty/quirc/decode.c:695-748 | pairs and a single character in base 45 come back as the characters |
| `Payload.EciRoundTrip` | 3rdparty/quirc/decode.c:812-833 | the ECI value that the decoder reports for each of the three forms |
| `Payload.EciExactly` | 3rdparty/quirc/decode.c:818-830 | the reported ECI value is the encoded one exactly below 128; longer forms keep their prefix bits |
| `Payload.StepOutcome` | 3rdparty/quirc/decode.c:659-810 | reading a numeric, alphanumeric, byte or Kanji segment overflows exactly if its text and a final zero do not fit the buffer, and otherwise underflows exactly if the stream is too short for its characters |
| `Payload.EciOutcome` | 3rdparty/quirc/decode.c:812-833 | reading an ECI value underflows exactly if the bytes that its first bits announce are not there |
| `Payload.AfterAllType` | 3rdparty/quirc/decode.c:870-871 | the data type reported is the highest of the segments |
| `Payload.AfterAllEci` | 3rdparty/quirc/decode.c:812-833 | the ECI value reported is the last one |
| `Payload.KanjiUnpacks` | 3rdparty/quirc/decode.c:788-805 | every Shift-JIS code of the two ranges with a proper second byte is what its 13-bit packing is read as |
| `Payload.KanjiPacks` | 3rdparty/quirc/decode.c:788-805 | and every 13-bit value is read as the code that is packed into it |
| `Payload.CountFieldsAgree` | 3rdparty/quirc/decode.c:659-777 | both sides give the character count the same width in every version |
| `PayloadDecoder.TakeBits` | 3rdparty/quirc/decode.c:619-636 | reads the value of the next bits, stopping at the end of the stream |
| `PayloadDecoder.DecodeNumeric` | 3rdparty/quirc/decode.c:659-693 | does what the specification says on every stream: overflow, underflow or the digits |
| `PayloadDecoder.DecodeAlpha` | 3rdparty/quirc/decode.c:720-748 | likewise for alphanumeric segments |
| `PayloadDecoder.DecodeByte` | 3rdparty/quirc/decode.c:750-770 | likewise for byte segments |
| `PayloadDecoder.DecodeKanji` | 3rdparty/quirc/decode.c:772-810 | likewise for Kanji segments, in Shift-JIS byte pairs |
| `PayloadDecoder.DecodeEci` | 3rdparty/quirc/decode.c:812-833 | likewise for ECI segments |
| `PayloadDecoder.DecodePayload` | 3rdparty/quirc/decode.c:835-881 | the segment loop does what the specification says on every stream and ends the text with a zero |
| `SymbolCodec.Decode` | 3rdparty/quirc/decode.c:883-933 | rejects exactly the sizes that are no version, and exactly the captures neither of whose format copies is accepted; otherwise, with the level and the mask of the copy that decides and the codewords that the capture shows under it, either some block is beyond repair, or the data of the corrected codewords is treated as decode_payload says |
| `SymbolCodec.WordsFound` | 3rdparty/quirc/decode.c:571-612 | as long as every block has few enough wrong codewords, those that the symbol was made of are found |
| `SymbolCodec.ContentDecodes` | 3rdparty/qrcodegen.cpp:290-313 | the data codewords of any accepted segments decode to the segments' text |
| `SymbolCodec.WriteSymbol` | 3rdparty/qrcodegen.cpp:259-359 | from segments to a symbol of the smallest version that holds them, that carries them and that shows its level and mask in both copies of the format information, or the reason why there is none |
| `SymbolCodec.ReadSymbol` | 3rdparty/quirc/decode.c:883-933 | a capture decodes to the text its symbol was written with if the format word can be had from the copies shown and the codewords shown differ from those written in few enough places of every block; in particular an exact capture in any version but 21 |
| `SymbolCodec.ExactIsRecoverable` | 3rdparty/quirc/decode.c:883-933 | exact captures meet that condition on the capture in every version but 21 |
| `SymbolCodec.Transmit` | 3rdparty/quirc/decode.c:883-933 | text to symbol to text: every exact capture of every symbol but those of version 21 decodes to the original text; the decoder is given nothing but the capture |
| `FloodFill.FloodFillLine` | 3rdparty/quirc/identify.c:132-164 | fills the maximal run of the colour through a pixel and nothing else |
| `FloodFill.FloodFillCallNext` | 3rdparty/quirc/identify.c:166-207 | resumes a scan: fills the next run and stacks it, or ends with every neighbour scanned; the fill stays inside every closed set around the seed |
| `FloodFill.FloodFillSeed` | 3rdparty/quirc/identify.c:209-285 | ends on every image; recolours only pixels of the seed's component, reports each exactly once, recolours the whole component unless the stack runs out, which takes a component at least as large as the stack |
| `FloodFill.FilledAll` | 3rdparty/quirc/identify.c:209-285 | when no scan is pending, what is filled is the 4-connected component of the seed |
| `Regions.Quirc.RegionCode` | 3rdparty/quirc/identify.c:347-379 | returns -1 exactly off the image, on white, or when labels run out; otherwise the pixel's label; keeps every label a whole component of non-white pixels with its size counted |
| `Regions.BlackComponent` | 3rdparty/quirc/identify.c:347-379 | under the labelling invariant a component of black pixels is a component of non-white pixels |
| `Regions.NewLabel` | 3rdparty/quirc/identify.c:347-379 | labelling a black component keeps the invariant |
| `Regions.Quirc.FindRegionCorners` | 3rdparty/quirc/identify.c:431-465 | the two fills leave the pixels unchanged unless the stack runs out, and never touch another region; seen along the axis from the reference to a farthest point, corners 0 and 2 are extreme along it and 1 and 3 across it, and the four run round the region in one sense |
| `Regions.CornersRunRound` | 3rdparty/quirc/identify.c:408-429 | corners extreme in that order never turn against the sense in which the x axis turns to the y axis |
| `Regions.BlackenedComponent` | 3rdparty/quirc/identify.c:443-464 | painted black, a labelled region is still exactly one black component, so the second fill finds it again |
| `Regions.StaysInside` | 3rdparty/quirc/identify.c:462-464 | even after an incomplete first fill, the second one stays inside the region |
| `Regions.FindOneCorner` | 3rdparty/quirc/identify.c:388-406 | over all spans of a region, the corner kept is a farthest point of it |
| `Regions.FindOtherCorners` | 3rdparty/quirc/identify.c:408-429 | the four corners kept are points of the region with the greatest dot product with the axis, the greatest cross product, the least dot product and the least cross product |
| `Chains.PartsInOrder` | src/configs/generate.cpp:1061-1070 | initial, Xray and tailing hops together are the chain exactly when it changes cores at most twice |
| `ChainBuilder.BuildContext.EntIDListToEntList` | src/configs/generate.cpp:769-869 | accepts exactly the lists that resolve and obey the rules for full configs, extra cores, custom Xray configs and core transitions; the two transition flags say whether there are Xray hops and tailing hops |
| `ChainBuilder.CheckScan` | src/configs/generate.cpp:824-868 | the checks after the loop accept exactly the acceptable lists |
| `ChainBuilder.SplitEnts` | src/configs/generate.cpp:1061-1070 | the loop splits the chain into its three parts |
| `ChainBuilder.BuildContext.BuildSingboxChain` | src/configs/generate.cpp:894-924 | appends one outbound for each server with its tag, detour and ingress mark |
| `ChainBuilder.BuildContext.BuildXrayChain` | src/configs/generate.cpp:926-1006 | appends one outbound for each Xray hop with its tag and proxySettings, the last one bound to the interface if there is one to bind to, and the socks outbound of the bridge |
| `ChainBuilder.BuildContext.BuildOutboundChain` | src/configs/generate.cpp:1008-1154 | fails exactly on unacceptable lists; otherwise appends the pieces of the chain and its traffic group; the bridge added back to sing-box leads to the hops behind Xray, or past the TUN device if the chain ends in Xray, the device is on and there is no interface to bind to |
| `ChainBuilder.BuildContext.BuildOutbounds` | src/configs/generate.cpp:1156-1204 | all chains together have the layout that the theorems need: consecutive numbers, own endpoints; and there is one traffic group for each chain, with its profiles and its watch tag |
| `ChainBuilder.BuildContext.EmitBridgeInbounds` | src/configs/generate.cpp:1206-1246 | bridge inbounds are paired with ingress tags in order; the mismatch error is raised exactly on a mismatch |
| `ChainBuilder.BuildContext.EmitBridgeRules` | src/configs/generate.cpp:1371-1399 | the bridge rules are paired in the same way |
| `ChainBuilder.BuildContext.EmitXray` | src/configs/generate.cpp:1517-1547 | every Xray ingress tag gets an inbound on its bridge's endpoint and a rule to the tag |
| `ChainBuilder.BuildContext.BuildConfig` | src/configs/generate.cpp:1156-1256 | the mismatch errors never occur; every chain of an accepted configuration is followed hop by hop unless Xray tags clash, and leaves where tunEnabled and defaultInterface say (ChainLeaves); nothing of a loopback bridge is emitted unless the TUN device is on and there is no interface |
| `ChainEgress.ChainLeaves` | src/configs/generate.cpp:1082-1122 | followed from its first tag, a chain that ends in sing-box leaves at the outbound of its last hop; one that ends in Xray leaves at the last Xray hop, bound to the interface if there is one, but with the TUN device on and no interface at a direct outbound of sing-box |
| `ChainEgress.NoLoopbacksWithout` | src/configs/generate.cpp:1103-1122 | with an interface to bind to, or without the TUN device, there is no loopback inbound, no rule for one and no direct outbound for Xray |
| `ChainEgress.BoundOnlyLast` | src/configs/generate.cpp:959-982 | no socket is bound but those of last hops of chains that end in Xray, and to no other interface |
| `ChainWalk.ChainVisitsHops` | src/configs/generate.cpp:894-1154 | traffic that enters a chain at its first outbound passes exactly the user's hops in build order and ends, following detours, bridges, rules and proxySettings |
| `ChainWalk.BehindWarp` | src/configs/generate.cpp:901-915 | traffic that enters at "warp-bypass" passes the same hops without WARP |
| `ChainConfig.CompilerCorrect` | src/configs/generate.cpp:1156-1256 | the same for the main chain and every route group of a whole configuration at once |
| `ChainConfig.AllSingTagsDistinct` | src/configs/generate.cpp:894-924 | all sing-box tags are pairwise distinct, across all chains and the direct outbounds |
| `ChainConfig.XrayTagsDistinctExactly` | src/configs/generate.cpp:992-1005 | all Xray tags are distinct exactly when no loopback-protected group of nothing but Xray hops precedes a group with Xray hops |
| `ChainConfig.ClashRepeats` | src/configs/generate.cpp:992-1005 | such a pair of groups uses one Xray tag twice |
| `ChainConfig.ClashExample` | src/configs/generate.cpp:992-1005 | one server and two routing outbounds of one Xray server each, behind TUN: the second outbound's only hop has the tag of the first one's bridge |
| `ChainConfig.CountsAlwaysMatch` | src/configs/generate.cpp:1210-1215 | bridges and ingress tags match over every sequence of chains |
| `RouteTargets.CollectGroups` | src/configs/generate.cpp:181-234 | every outbound that the routing profile asks for is numbered by the hops collected before it, or an outbound is missing or forbidden |
| `RouteTargets.TagNamesGroup` | src/configs/generate.cpp:173-234 | the tag given out beforehand is the first outbound of the outbound's own group when it is built |
| `RouteTargets.WatchTagEmitted` | src/configs/generate.cpp:1134-1153 | the watch tag of every chain names an emitted sing-box outbound |
| `RouteTargets.WatchedWalk` | src/configs/generate.cpp:1134-1153 | what is counted on the watch tag is the traffic of the hops behind the last Xray hop if the chain comes back to sing-box, and of the whole chain if not |
| `RouteTargets.Compile` | src/configs/generate.cpp:1156-1256 | what a rule sends to an outbound of the routing profile passes exactly that outbound's hops; "proxy" passes the main chain's, "warp-bypass" the same without WARP, "direct" none; and every traffic group of the finished context is counted on an emitted outbound |
| `ProfileStore.FreshIds` | src/database/ProfilesRepo.cpp:566-584 | over every run of adding, in batches with or without repetitions, saving, deleting profiles and groups, selective restores and restarts, a block of new ids is as long as asked for and shares no id with a row, a bound or held object, or an earlier block |
| `ProfileStore.NewIsUnique` | src/database/DatabaseManager.cpp:28-51 | a new database and an empty identity map meet what the theorems about runs start from |
| `ProfileStore.StepKeepsBehind` | src/database/ProfilesRepo.cpp:332-386 | every step keeps the counter at or above all ids in use and never takes it back |
| `ProfileStore.FoundUntilDropped` | src/database/GroupsRepo.cpp:263-268 | deleting the group of a held profile takes its row, and the profile is still found until it is dropped, and then no longer |
| `ProfileStore.NotFoundAfterDelete` | src/database/ProfilesRepo.cpp:527-553 | after a deletion, asking for any of the ids finds nothing, and others are found as before |
| `ProfileStore.SavedComesBack` | src/database/ProfilesRepo.cpp:586-596 | a profile that was saved and dropped is loaded again with the contents saved |
| `ProfileStore.AddedComesBack` | src/database/ProfilesRepo.cpp:332-347 | and so is one that was added, under its new id and group |
| `ProfileStore.RestoredComesBack` | src/database/Database.cpp:242-288 | after a restore of the profiles and a restart, exactly the ids of the backup are found, each with its row |
| `Profiles.Database.DeleteGroup` | src/database/GroupsRepo.cpp:263-268 | the group goes, and with it exactly the rows of its profiles; identity map and counter stay |
| `Profiles.Database.RestoreSelective` | src/database/Database.cpp:242-288 | the rows of the backup replace the table if they are chosen and there; the counter becomes the maximum of itself, the rows and the backup's counters if profiles or routes are restored; and whichever statement fails, the tables are as before |
| `Profiles.Database.RestoreStatements` | src/database/Database.cpp:256-275 | the statements of the transaction, any of which may fail with the earlier ones done |
| `ProfileStore.CoalescedMaxExists` | src/database/Database.cpp:262-275 | the maximum that the counter update takes is defined for every table, an empty one included |
| `ProfileStore.FreshAfterRestoreAll` | src/database/Database.cpp:168-172 | after replacing the whole database no id ever handed out comes again exactly if the restored counter is not behind them |
| `Profiles.ProfilesRepo.GetProfile` | src/database/ProfilesRepo.cpp:388-398 | returns the live object of the identity map, or a new one with the contents of the row, to which the map is then bound; an expired entry goes |
| `Profiles.ProfilesRepo.GetProfileBatch` | src/database/ProfilesRepo.cpp:420-460 | does the same for a whole list, repeated and unknown ids included, and returns the objects in the order asked for |
| `Profiles.ProfilesRepo.LoadProfilesByIdsChunk` | src/database/ProfilesRepo.cpp:400-418 | a new object for each id of the chunk that has a row, with its contents, and no other |
| `ProfileStore.BatchIsOneByOne` | src/database/ProfilesRepo.cpp:420-460 | whatever a batch request does, asking for its ids one after the other can do: the same objects, the same state |
| `ProfileStore.OneByOneIsBatch` | src/database/ProfilesRepo.cpp:388-398 | and whatever asking one after the other does, a batch request can do |
| `ProfileStore.TheObject` | src/database/ProfilesRepo.cpp:388-460 | no held object but the one found has the id asked for, and the one found has it unless the identity map names it wrongly |
| `ProfileStore.OneObjectForEachId` | src/database/ProfilesRepo.cpp:388-460 | over every run in which a restart follows each restore, batches with repetitions included, no two held objects have the same id, and the identity map finds the one there is unless its row was deleted |
| `ProfileStore.NamedExactly` | src/database/ProfilesRepo.cpp:364-369 | the identity map goes on finding objects with the right ids after any step exactly if the step does not bind an object again |
| `ProfileStore.NamedUntilRebound` | src/database/ProfilesRepo.cpp:388-460 | over every such run that binds no object again, a profile found has the id asked for |
| `ProfileStore.SecondObjectExactly` | src/database/Database.cpp:242-288 | between a restore and the restart, a second object for a held one's id can be loaded exactly if the identity map had lost it and the restore brought a row for its id |
| `Profiles.ProfilesRepo.AddProfile` | src/database/ProfilesRepo.cpp:332-347 | takes the next id, binds the object to it and stores its row, and is false exactly for a profile with an id or without a group |
| `Profiles.ProfilesRepo.AddProfileBatch` | src/database/ProfilesRepo.cpp:349-386 | for any list: the profiles without an id are bound to the ids of one block in order, again if listed again, and their rows go to the table in chunks; the whole new state is determined |
| `Profiles.IdPassedOver` | src/database/ProfilesRepo.cpp:364-374 | an object listed twice does not keep the first id it was given, and nobody else has it |
| `Profiles.BatchIsRun` | src/database/ProfilesRepo.cpp:364-376 | adding a batch, with or without repetitions, is a run: its ids are taken from the counter and the objects bound one after the other |
| `Profiles.AddedBatch` | src/database/ProfilesRepo.cpp:349-386 | after adding a batch there is still one object for each id; all ids of the block end up in the table, and the identity map finds the right object for every id, exactly if no object is listed twice |
| `Profiles.BatchNamedExactly` | src/database/ProfilesRepo.cpp:364-369 | the identity map names every object rightly after a batch exactly if no object is listed twice |
| `Profiles.ListedTwice` | src/database/ProfilesRepo.cpp:364-369 | a new profile listed twice: asking for the first id gives an object with the second |
| `Profiles.Database.ExecBatchInsertProfiles` | src/database/ProfilesRepo.cpp:371-376 | the table afterwards: each chunk is inserted as a whole, or not at all if a row repeats an id or has no group |
| `Profiles.ProfilesRepo.Save` | src/database/ProfilesRepo.cpp:586-596 | stores the contents of the object under its id and binds the id to it; false exactly without an id |
| `Profiles.ProfilesRepo.BatchDeleteProfiles` | src/database/ProfilesRepo.cpp:527-553 | if all groups are there, no id but a running one has a row or an entry any more, every other row and entry stays, and so do the counter and the objects; if not, everything is as the lookup left it |
| `Frames.ChunkIndependence` | src/api/RPC.cpp:112-142 | reading a response stream in two pieces finds the same frames as reading it at once |
| `Frames.StreamRoundTrip` | core/server/dispatch.go:36-49 | a stream of response frames is read back as exactly the responses written |
| `Frames.ResponseLayout` | core/server/dispatch.go:36-49 | a response frame is its id, status, length and data, the numbers with the lowest byte first |
| `Frames.RequestLayout` | src/api/RPC.cpp:208-221 | a request frame is its id, the length and bytes of the method, and the length and bytes of the payload |
| `Frames.ResponseReader.OnReadyRead` | src/api/RPC.cpp:91-142 | after any chunks, what processBuffer has delivered are the frames of everything received, and the buffer holds the unfinished one |
| `Frames.RequestRoundTrip` | src/api/RPC.cpp:208-221 | a request frame parses back to its id, method and payload exactly when the three fit their widths |
| `Frames.RequestStreamRoundTrip` | core/server/dispatch.go:51-79 | a stream of such frames parses back to the requests in order |
| `Frames.ReadRequests` | core/server/dispatch.go:51-79 | the field-by-field reader finds exactly the complete frames before the connection ends |
| `RpcChannel.StepKeeps` | src/api/RPC.cpp:97-264 | every step of callers, io thread, reconnects and core keeps the invariant |
| `RpcChannel.ChannelSafe` | src/api/RPC.cpp:97-264 | over every interleaving: a call is completed at most once; success carries the answer to its own request; a returned call's id is out of pending while the lock is free |
| `RpcChannel.ReaderInOrder` | core/server/dispatch.go:36-49 | the reader takes a prefix of the responses that the core began to write, in that order: frames do not interleave |
| `RpcChannel.ReturnsEarly` | src/api/RPC.cpp:97-105 | while wakeAllWithError runs, a woken call can return before its id leaves pending |
| `RpcOutcome.AnswerArrives` | src/api/RPC.cpp:108-142 | over every run: a call whose response the reader takes while its id is pending returns with the data of that response if the status is 0 and fails if not, unless its second wait runs out |
| `RpcOutcome.WokenFails` | src/api/RPC.cpp:97-105 | a call that a disconnect or reconnect wakes fails, whatever happens afterwards |
| `RpcOutcome.AllWoken` | src/api/RPC.cpp:97-105 | when wakeAllWithError lets go of the lock, every call that was registered is completed |
| `RpcOutcome.FailsForAReason` | src/api/RPC.cpp:237-262 | a call fails only if it timed out, was woken, or its own request was answered with an error |
| `RpcOutcome.EveryAnswerReachable` | src/api/RPC.cpp:97-264 | for every method, payload, status and data there is a run from the beginning in which the call returns exactly what its handler answered |
| `RpcQueue.NewSocketAfterReconnect` | src/api/RPC.cpp:178-197 | a request that is dispatched after a reconnect is never sent on a connection older than the one that this reconnect brings |

## Left out

- The colours of the function patterns other than the format information: the constructor takes any, and only which modules they occupy is modelled.
- makeSegments, and Kanji segments on the encoder's side: there is no Kanji encoder, and the decoder's Kanji text is specified but has no round trip.
- Perspective mapping, thresholding, finder scan and grid fitting: a capture is given as a grid of bits.
- Integer widths of the corner scores in identify.c: coordinates are unbounded integers.
- The decoder's borrowing of the payload buffer for raw bits is a buffer of its own, zeroed like the original.
- The span functions of the flood fill run on the list of spans after the fill instead of during it; they do not touch the pixels.
- Build() and BuildXray() of an outbound: a hop is its profile id, and building it does not fail.
- A custom Xray full config as the last hop is treated as a sing-box hop; the inbound that is injected into the user's file is not modelled.
- Endpoints and outbounds of sing-box are one list, and the ports and loopback addresses of bridges are abstract endpoints that never repeat.
- Raw routing profiles with preventModifications, test configurations, DNS, NTP, log and experimental sections.
- The penetrate flag of XHTTP outbounds, which makes Xray bind their download leg as well.
- An empty main chain: the theorems about following traffic need at least one hop.
- Response frames of 2^31 bytes or more and request ids beyond 2^32: excluded by the steps that would produce them.
- Timing of timeouts: a waiting call may time out at any moment at which it is not done.
- The bodies of the dispatched methods, protobuf and sockets: a handler answers anything, bytes arrive in any pieces.
- Objects that other threads drop while a batch request runs count as dropped before the call or after it.
- SQL errors other than a missing group and a repeated id: a counter that cannot be read would give out id 0.
- SaveBatch, SaveTraffic, the lists of the groups and their own identity map; the counters of groups and routing profiles.
- In the chain compiler, profiles are a fixed map from ids.
