# tklb: verified models of the algorithms behind the library

The library builds on a handful of small C and C++ libraries that it carries along under `external/`. This project
models the algorithms in them that are hard to get right by inspection, in the form the code has (arrays rewritten in
place, classes whose methods update their fields, loops with invariants), and proves what they are for.

| files | what they model |
|---|---|
| `Common`, `PowersOfTwo`, `Words` | bytes; shifts, masks and bit reversal of machine words |
| `HuffmanCode`, `Codebook`, `PacketReader` | stb_vorbis: Huffman construction from unsorted lengths, the three decoders, the bit reader over Ogg lacing segments |
| `Floor1` | stb_vorbis: floor 1 set-up, amplitude unwrapping, line drawing and the rendered curve |
| `Crc` | stb_vorbis: the table-driven CRC of Ogg pages |
| `Convolution`, `Spectra`, `FourierTransform`, `ConvolverUtilities`, `FFTConvolver`, `TwoStageFFTConvolver` | the partitioned convolvers, over exact samples |
| `BitReversal`, `RealSplit` | the bit-reversal permutation and the real-transform split and merge of `AudioFFT.cpp` |
| `ImaAdpcm`, `RiffWav`, `RiffMetadata` | dr_wav: streaming IMA ADPCM, the RIFF writer and parser, the metadata chunks |
| `SprintfBuffer`, `SprintfDecimal` | stb_sprintf: the callback buffer and `vsnprintf`, decimal conversion |

Every stateful operation is a method whose postcondition equates the new state with a function of the old one, and
the lemmas are about those functions. The main results are these.

* **Huffman.** `compute_codewords` keeps the assigned intervals and the free leaves an exact partition of the 32-bit
  code space; this is the invariant whose proof its comment leaves open. It follows that each entry gets the lowest
  codeword that is left, that the code is prefix-free, and that construction fails exactly when no prefix code with
  these lengths exists, which is when their Kraft sum exceeds one.
* **Decoding.** The fast table, the binary search and the linear search find the one entry whose codeword the packet
  goes on with. Any interleaving of field reads and decodes, with any number of codebooks, gives back what was written
  *if and only if* every codeword is fetchable where it stands; findable codewords of at most 25 bits are, and a
  codeword of 26 bits need not be.
* **Convolution.** For every response, block size and way of cutting the input into calls, the output of either
  convolver is direct causal convolution of the whole input with the impulse response in force. What this asks of the
  transform is proved of the discrete Fourier transform of every power of two.
* **Floor 1.** Unwrapping is a bijection, and `do_floor` scales every bin exactly once by the curve through the posts,
  the incremental line drawer agreeing with the division at every column. Given which posts are in use, the curve
  determines the wire values; one amplitude more leaves it alone if and only if its post does not show.
* **WAV.** Any partition of reads and any seek delivers the frames of a plain block-at-a-time decoder. A file written
  in any number of calls opens with the same fields, count and bytes exactly for the formats the parser accepts.
* **Formatted output.** Flushing through 512 bytes delivers the unbounded output; truncation keeps its beginning; the
  chunked conversion gives the canonical decimal with separators in their places.

Where the code does less than its documentation or its intention promises, the model follows the code. For each of
these there is a lemma or method with a concrete input, and a lemma with the exact condition:

* A refill guarantees 25 bits, so longer codewords can be lost near a byte boundary (`PacketReader.LongCodeLost`,
  `PacketReader.LongCodeMissed`; condition: `PacketReader.ReadBack`).
* In a dense codebook of more than 32767 entries, a codeword of at most ten bits at entry 32767 or later is in neither
  the fast nor the sorted table (`Codebooks.BigBookLosesLast`, `PacketReader.LastEntryMissed`; condition:
  `Codebooks.Codebook.Findable`, by which `PacketReader.Vorb.Decode` says what it returns).
* What a codebook delivers for a post is not checked, so a floor's heights can leave their range; the line drawer then
  takes them modulo 256, and a value can even be lost (`Floor1.WireTooLarge`, `Floor1.LargeWireLooksUnused`; condition:
  `Floor1.HeightsInRangeIff`). The table of amplitudes is still never indexed outside (`Floor1.DoFloor`).
* A floor's curve does not determine its wire values: a post on the line between its neighbours does not show
  (`Floor1.DifferentWiresSameCurve`; conditions: `Floor1.OneAmplitudeMore`, `Floor1.DistinctWiresDistinctCurves`).
* The two-stage `init` lets each stage trim its own part of the response, so samples below the threshold at the end of
  an inner part count as zero (`TwoStageConvolvers.SmallSampleLost`; conditions: `TwoStageConvolvers.InPartsIsExact`,
  `TwoStageConvolvers.OutputIsThatOfTrimmed`).
* The frame count of an ADPCM file is wrong for some partial blocks at the end: bytes too few for a header, or a group
  that is not whole (`ImaAdpcm.StrayByteMiscounted`; condition: `ImaAdpcm.TotalIsWhatBytesYield`).
* The sequential writer announces a RIFF size that leaves out the data chunk's eight header bytes, so a file with
  fewer than eight sample bytes does not open again (`RiffWav.SequentialFrameLost`; condition:
  `RiffWav.SequentialRoundTrip`).
* Frames that are not whole bytes are not counted back correctly (`RiffWav.HalfBytesMiscounted`; condition:
  `RiffWav.CountComesBack`).
* Empty INFO texts, INFO unknown chunks, labels and notes are counted in the list sizes but not written
  (`RiffMetadata.EmptyTextCounted`; conditions: `RiffMetadata.InfoSizeIsPayload`, `RiffMetadata.AdtlSizeIsPayload`).
* `vsnprintf` with a proper buffer and count 0 puts the terminator in front of the buffer
  (`SprintfBuffer.CountZeroMisses`; condition: `SprintfBuffer.Vsnprintf`, by which the terminator's index is inside the
  buffer if and only if the count is positive).

`dafny verify dfyconfig.toml` checks the whole project.

## Model

| member | source | states |
|---|---|---|
| Words.BitReverseIsRev | external/stb_vorbis.c:1010-1017 | the five mask-and-shift swaps compute the reversal of the word's 32 bits |
| Words.RevInvolution | external/stb_vorbis.c:1010-1017 | reversing twice is the identity on k-bit numbers |
| Words.MatchIffInInterval | external/stb_vorbis.c:1665-1684 | a word begins, least significant bit first, with an l-bit codeword exactly when its reversal lies in that codeword's interval; this is why searching reversed words in order is a prefix search |
| PowersOfTwo.FieldsAreDivMod | external/stb_vorbis.c:1624-1626 | the mask and the shift of a bit field are remainder and quotient by the power of two |
| HuffmanCode.PropagateKeepsPartition | external/stb_vorbis.c:1105-1128 | taking the deepest free leaf that is not below the wanted level, and propagating what is left of it, keeps codewords and free leaves an exact disjoint partition of the code space; the new codeword overlaps no earlier one, and the levels refilled were empty |
| HuffmanCode.PropagateOrdered | external/stb_vorbis.c:1111-1127 | at most one free leaf a level, and deeper free leaves lie strictly lower: the property the comment calls not totally trivial to prove |
| HuffmanCode.NothingLowerIsUnused | external/stb_vorbis.c:1109-1117 | no codeword of the wanted length below the leaf taken is unused: it really is the earliest one |
| HuffmanCode.NoLeafMeansOverfull | external/stb_vorbis.c:1116-1117 | when no leaf is left at or above the wanted level, the Kraft sum of all lengths exceeds one |
| HuffmanCode.TakeLeaf | external/stb_vorbis.c:1105-1128 | one iteration of the loop extends the assignment that gives every entry the lowest codeword left, and re-establishes the partition |
| HuffmanCode.FirstCode | external/stb_vorbis.c:1092-1100 | the first entry's codeword 0 and the leaves beside it are the first step of the same assignment |
| HuffmanCode.GreedyRun | external/stb_vorbis.c:1086-1130 | whenever the lengths fit, the construction reaches every entry and each one has the lowest unused codeword of its length (section 3.2.1 of the Vorbis I specification) |
| HuffmanCode.PrefixFree | external/stb_vorbis.c:1086-1130 | no codeword of the finished assignment is a prefix of another |
| HuffmanCode.FullTreeCovers | external/stb_vorbis.c:1086-1130 | when the Kraft sum is exactly one, every 32-bit word begins with a codeword |
| HuffmanCode.KraftInequality | external/stb_vorbis.c:1086-1130 | any prefix-free assignment whatever has lengths that fit: an independent bound on what failing means |
| HuffmanCode.PrefixCodeExistsIffFits | external/stb_vorbis.c:1086-1130 | a prefix code with given lengths exists exactly when their Kraft sum is at most one |
| Codebooks.Codebook.ComputeCodewords | external/stb_vorbis.c:1086-1130 | returns true exactly when the Kraft sum is at most one, and then the arrays hold the bit-reversed lowest codewords, with lengths and symbols in the sparse case |
| Codebooks.Codebook.AddEntry | external/stb_vorbis.c:1075-1084 | which array elements change, in the dense and in the sparse form, and that no others do |
| Codebooks.DeepestLeaf | external/stb_vorbis.c:1116-1117 | the loop finds the level of the deepest free leaf that is not below the wanted one, 0 if there is none |
| Codebooks.PropagateLeaf | external/stb_vorbis.c:1118-1127 | the in-place propagation leaves exactly the leaves of the specification; the assert in it holds |
| Codebooks.FillSlot | external/stb_vorbis.c:1145-1152 | exactly the fast-table entries whose low bits are the codeword are set |
| Codebooks.Codebook.ComputeAcceleratedHuffman | external/stb_vorbis.c:1134-1154 | the fast table knows the short codewords of the first 32767 slots, and has -1 everywhere else |
| Codebooks.FindSorted | external/stb_vorbis.c:1211-1221 | the halving search ends at the last key that is not above the code, hence at the code itself when it is there |
| Codebooks.Codebook.ComputeSortedHuffman | external/stb_vorbis.c:1179-1230 | sorted left-aligned codewords, each with the entry it belongs to (and its length, in a sparse book), for all included entries |
| Codebooks.Codebook.Build | external/stb_vorbis.c:3772-3844 | the tables for given lengths are built exactly when the lengths fit; the book stays sparse exactly when fewer than a quarter of the entries are used; the finished tables satisfy the invariant that decoding relies on |
| Codebooks.Codebook.SearchSorted | external/stb_vorbis.c:1666-1683 | if the word begins with the codeword of an included entry, the search ends there, although it never compares the codeword |
| Codebooks.Codebook.SearchLinear | external/stb_vorbis.c:1695-1708 | finds the entry whose codeword the word begins with; a hit is a match |
| Codebooks.Codebook.FastAnswers | external/stb_vorbis.c:1717-1729 | a hit in the fast table is a match of at most ten bits; after a miss everything findable at all is left to the search |
| Codebooks.CodesApart | external/stb_vorbis.c:1086-1130 | codewords of two entries are neither equal nor prefixes of one another |
| Codebooks.AtMostOneMatch | external/stb_vorbis.c:1695-1708 | a word begins with the codeword of at most one entry |
| Codebooks.FullTreeMatches | external/stb_vorbis.c:1695-1712 | in a full tree every word matches some entry, so the invalid-stream exit is not taken |
| Codebooks.BigBookFits | external/stb_vorbis.c:1086-1130 | 32767 lengths of 16 followed by a length of 1 are the lengths of a prefix code |
| Codebooks.BigBookLosesLast | external/stb_vorbis.c:1134-1170 | in a dense book of these lengths, entry 32767 is in neither table |
| PacketReader.Vorb.NextSegment | external/stb_vorbis.c:1539-1558 | reports 0 exactly when nothing is left of the packet, otherwise opens a segment of the length it returns without losing a byte; the error flag is set exactly where a page should continue the packet and is not flagged so |
| PacketReader.Vorb.Get8PacketRaw | external/stb_vorbis.c:1563-1573 | delivers the packet's bytes one by one in order, then end of packet; the packet is its segments up to the first one below 255 bytes, across continued pages (section 6 of RFC 3533) |
| PacketReader.Vorb.GetBits | external/stb_vorbis.c:1599-1628 | the next n bits of the packet, least significant first, and they are gone afterwards; past the end 0 (or the low 24 bits of a wide read that broke off), and the reader is marked invalid |
| PacketReader.Vorb.PrepHuffman | external/stb_vorbis.c:1634-1647 | no bit is lost; afterwards the accumulator holds all that is left or between 25 and 32 bits, exactly as many as whole bytes allow |
| PacketReader.Vorb.DecodeScalarRaw | external/stb_vorbis.c:1656-1713 | consumes exactly the codeword of the entry it returns; if the packet goes on with an entry's codeword, it returns that entry exactly when its search reaches it and the refill brought it in |
| PacketReader.Vorb.DecodeRaw | external/stb_vorbis.c:1717-1729 | the same for the fast table followed by the search, for every findable entry |
| PacketReader.Vorb.Decode | external/stb_vorbis.c:1754-1756 | an entry or -1: the entry the packet goes on with, exactly when it is findable and its codeword is no longer than what a refill can hold; exactly its length is consumed |
| PacketReader.ReadBack | external/stb_vorbis.c:1599-1756 | for every sequence of fields (up to 24 bits) and symbols of any of several books that the packet carries, the matching sequence of reads gives it back if and only if every symbol is fetchable at its place (section 2 of the Vorbis I specification) |
| PacketReader.CarriesHead | external/stb_vorbis.c:1599-1628 | what a packet carries starts with the first item's bits, and removing them leaves a packet that carries the rest |
| PacketReader.ShortCodesFetchable | external/stb_vorbis.c:1636-1645 | codewords of at most 25 bits are always fetchable, so the round trip holds for them without a further condition |
| PacketReader.LongCodeLost | external/stb_vorbis.c:1636-1645 | a packet of five bytes, a 26-bit codeword between two 7-bit fields: the refill stops at 25 bits and the codeword is not fetchable |
| PacketReader.LongCodeMissed | external/stb_vorbis.c:1636-1645 | reading that packet does not give back what it carries |
| PacketReader.LastEntryMissed | external/stb_vorbis.c:1717-1729 | a packet goes on with the codeword of entry 32767 and the decode does not return that entry |
| Crc.UpdateIsSerial | external/stb_vorbis.c:1003-1006 | one table-driven update is eight steps of the bit-serial register for polynomial 0x04c11db7, most significant bit first |
| Crc.ShiftIsLinear | external/stb_vorbis.c:997-998 | the register shift is linear over exclusive or |
| Crc.Crc32Init | external/stb_vorbis.c:992-1001 | every table entry is its index, in the top byte, shifted eight times |
| Crc.Crc32Update | external/stb_vorbis.c:1003-1006 | the lookup in that table feeds the byte to the bit-serial register |
| Crc.CrcIsSerial | external/stb_vorbis.c:1003-1006 | for every byte string, the table-driven CRC is the bit-serial one (section 6 of RFC 3533) |
| Crc.CrcOfPieces | external/stb_vorbis.c:1003-1006 | running over two pieces in turn is running over their concatenation |
| Crc.CrcIsLinear | external/stb_vorbis.c:1003-1006 | the CRC of a difference of two messages is the difference of their CRCs |
| Crc.BurstIsDetected | external/stb_vorbis.c:991-1006 | two messages of any equal length that differ within four neighbouring bytes only have the same CRC if and only if they are equal |
| Floor1.SetUpFloor | external/stb_vorbis.c:3976-4004 | a setup is refused exactly when two posts share an abscissa; otherwise the order is ascending and every post has the closest neighbours on both sides |
| Floor1.SortingShowsDuplicates | external/stb_vorbis.c:3992-3995 | comparing neighbours in the sorted list finds a shared abscissa exactly when there is one |
| Floor1.Neighbors | external/stb_vorbis.c:1303-1312 | the closest earlier posts below and above; a result is left alone exactly when there is none |
| Floor1.AllNeighbors | external/stb_vorbis.c:3999-4004 | every post but the two ends has both neighbours, among the earlier posts and at a positive distance |
| Floor1.PredictPoint | external/stb_vorbis.c:1935-1943 | the predicted height lies between the heights of the two ends |
| Floor1.UnwrapIsBijection | external/stb_vorbis.c:3246-3261 | for every prediction in range, wire values in [0, range) and heights in [0, range) correspond one to one, and 0 is the prediction itself |
| Floor1.UnwrapInRange | external/stb_vorbis.c:3246-3268 | the mark -1 of a decode that failed stands for the predicted height itself |
| Floor1.EndsFit | external/stb_vorbis.c:3209-3214 | a field of one bit less than the range has bits holds only values below the range, so the two end posts are always in range |
| Floor1.UnwrapHeights | external/stb_vorbis.c:3238-3269 | the in-place loop computes every post's height from the posts before it, and flags exactly the posts that carry an amplitude or that one was predicted from |
| Floor1.UnwrapFloor | external/stb_vorbis.c:3238-3278 | finalY ends as the heights of the posts in use and -1 for the others |
| Floor1.HeightInRange | external/stb_vorbis.c:3239-3269 | values from -1 up to the range give heights in range, for all posts |
| Floor1.HeightsInRangeIff | external/stb_vorbis.c:3213-3269 | for everything a packet can bring, a failed decode's -1 included, all heights are in range if and only if all values are below the range |
| Floor1.HeightFitsShort | external/stb_vorbis.c:3239-3269 | sixteen bits hold every height, also when values are above the range |
| Floor1.UnwrapLeavesRange | external/stb_vorbis.c:3246-3261 | a wire value out of range gives a height out of range |
| Floor1.WireTooLarge | external/stb_vorbis.c:3239-3269 | a floor of four posts whose third value is 256 has a height of 256 there, which is drawn as 0 |
| Floor1.LargeWireLooksUnused | external/stb_vorbis.c:3239-3278 | a value above the range whose height is -1, the mark of a post not in use: the same posts as for the value 0 |
| Floor1.WireComesBack | external/stb_vorbis.c:3239-3278 | the marked heights determine every wire value, although the unused posts have been overwritten |
| Floor1.DistinctWiresDistinctPosts | external/stb_vorbis.c:3239-3278 | two wire vectors give the same posts if and only if they are equal |
| Floor1.EveryHeightCanBeSent | external/stb_vorbis.c:3239-3269 | every vector of heights in range is the result of some wire vector in range |
| Floor1.NextOnLine | external/stb_vorbis.c:2060-2079 | one step of the error accumulator moves from the divided height at x to the one at x + 1, rising or falling |
| Floor1.DrawLine | external/stb_vorbis.c:2034-2081 | exactly the columns from x0 up to the smaller of x1 and n are scaled, each once, by the table entry of the height that predict_point computes by division |
| Floor1.DoFloor | external/stb_vorbis.c:3072-3108 | for all heights whose two ends are in range: each of the n / 2 bins is scaled exactly once, by the entry for the curve's height there modulo 256, nothing beyond them changes, and no index leaves the table |
| Floor1.CurveMeetsPosts | external/stb_vorbis.c:3081-3105 | the curve passes through every post in use |
| Floor1.CurveBetween | external/stb_vorbis.c:3081-3105 | the curve stays within the range of the posts' heights |
| Floor1.MarkedIsPlayable | external/stb_vorbis.c:3239-3278 | what unwrapping leaves behind meets what do_floor asks for, whatever the codebooks deliver |
| Floor1.RowInRange | external/stb_vorbis.c:2068-2078 | with all heights in range the mask of the line drawer changes nothing |
| Floor1.DistinctWiresDistinctCurves | external/stb_vorbis.c:3072-3108 | two wire vectors that use the same posts give the same curve at every column if and only if they are equal |
| Floor1.SameZerosSameUse | external/stb_vorbis.c:3246-3268 | wire vectors that are zero at the same posts use the same posts |
| Floor1.SameCurveMeetsBoth | external/stb_vorbis.c:3072-3108 | whatever posts are in use, equal curves pass through the posts of both, and agree in height where both use a post |
| Floor1.InsertedPost | external/stb_vorbis.c:3072-3108 | one more post leaves the whole curve alone if and only if the two lines through it are drawn like the one they replace |
| Floor1.OnePostMore | external/stb_vorbis.c:3072-3108 | for two vectors of heights, one with one more post in use, the rendered curves agree at every column if and only if that post does not show between the posts around it |
| Floor1.OneAmplitudeMore | external/stb_vorbis.c:3238-3278 | the same for two wire vectors, one with one amplitude more at a post that no other is predicted from, between posts in use |
| Floor1.DifferentWiresSameCurve | external/stb_vorbis.c:3072-3108 | a floor of four posts with two different wire vectors in range and the same curve |
| Convolution.PartitionedConv | external/fft_consolver/FFTConvolver.cpp:147-204 | the parts of a response acting on the current block and, one block length further on, on the block before add up to direct convolution |
| Convolution.CircularOfPads | external/fft_consolver/FFTConvolver.cpp:163-165 | circular convolution of two blocks padded to twice their length is their linear convolution: nothing wraps |
| Convolution.ConvTwoBlocks | external/fft_consolver/FFTConvolver.cpp:184-196 | overlap and add: one part sees the current block and the second half of the block before |
| Convolution.ImpulseResponse | external/fft_consolver/FFTConvolver.cpp:147-204 | the response to a single one is the response itself, so different responses are heard |
| FourierTransform.DftConvolves | external/fft_consolver/AudioFFT.cpp:135-180 | for every power of two, the real discrete Fourier transform and its inverse, with exact sines and cosines, meet the hypothesis: the inverse is additive, and bin-by-bin products are circular convolutions |
| FourierTransform.CosinesCancel | external/fft_consolver/FFTConvolver.cpp:165-182 | the cosines of equal steps around the circle add up to zero, unless each step is a whole number of turns |
| FourierTransform.BinsOf | external/fft_consolver/AudioFFT.cpp:154-157 | the half spectrum determines the upper bins: they are the conjugates |
| FourierTransform.ProductInTime | external/fft_consolver/FFTConvolver.cpp:165-182 | sample by sample, the product of two spectra is n times the circular convolution |
| FourierTransform.TransformExists | external/fft_consolver/FFTConvolver.cpp:165-182 | so the hypothesis can be met at every size the convolvers use, wherever numbers have square roots (half-angle formulas) |
| FourierTransform.CircleExists | external/fft_consolver/AudioFFT.cpp:129-131 | exact sines and cosines for every power of two steps, from square roots |
| FourierTransform.Dft2Convolves | external/fft_consolver/FFTConvolver.cpp:165-182 | size 2, without roots |
| FourierTransform.Dft4Convolves | external/fft_consolver/FFTConvolver.cpp:165-182 | size 4, without roots |
| ConvolverUtilities.NextPowerOf2 | external/fft_consolver/Utilities.h:287-296 | the smallest power of two that is not below the argument |
| ConvolverUtilities.Sum | external/fft_consolver/Utilities.cpp:38-55 | the unrolled loop and its remainder write every sum once and nothing else |
| ConvolverUtilities.ComplexMultiplyAccumulate | external/fft_consolver/Utilities.cpp:66-115 | adds the bin-by-bin complex product to the result, unrolled by four and then the rest |
| ConvolverUtilities.CopyAndPad | external/fft_consolver/Utilities.h:318-324 | the destination is the source followed by zeros |
| FFTConvolvers.TrimmedLength | external/fft_consolver/FFTConvolver.cpp:94-98 | cuts off exactly the near-zero samples at the end |
| FFTConvolvers.RingIsMod | external/fft_consolver/FFTConvolver.cpp:174 | the ring position without division is (current + i) modulo the segment count |
| FFTConvolvers.FFTConvolver.Init | external/fft_consolver/FFTConvolver.cpp:85-144 | false exactly for block size 0; the impulse response in force is the trimmed one, the block size the least power of two that is not below the one asked for, and the past is silent |
| FFTConvolvers.FFTConvolver.Reset | external/fft_consolver/FFTConvolver.cpp:60-82 | back to no response and no past |
| FFTConvolvers.FFTConvolver.SumHistory | external/fft_consolver/FFTConvolver.cpp:168-177 | the cached sum is that of part i times the block i blocks ago, over all parts but the first |
| FFTConvolvers.FFTConvolver.SaveOverlap | external/fft_consolver/FFTConvolver.cpp:189-196 | the saved second half is what the past still contributes to the next block |
| FFTConvolvers.FFTConvolver.TurnRing | external/fft_consolver/FFTConvolver.cpp:198-199 | after the turn, segment (current + i) is the spectrum of the block i blocks before the new one |
| FFTConvolvers.FFTConvolver.ProcessChunk | external/fft_consolver/FFTConvolver.cpp:156-203 | one pass of the loop, also one that ends inside a block, keeps the invariant and outputs direct convolution for its samples |
| FFTConvolvers.FFTConvolver.Process | external/fft_consolver/FFTConvolver.cpp:147-204 | for every response, block size and split of the input into calls, the output is direct causal convolution of the input of all calls so far; nothing else in the output buffer changes |
| TwoStageConvolvers.StagesAddUp | external/fft_consolver/TwoStageFFTConvolver.cpp:105-120 | head, first tail delayed by T and second tail delayed by 2T are convolution with one response |
| TwoStageConvolvers.InPartsIsClose | external/fft_consolver/TwoStageFFTConvolver.cpp:93-120 | the response in force has the trimmed response's length and differs from it only in near-zero samples of the first 2T, which count as zero |
| TwoStageConvolvers.InPartsIsExact | external/fft_consolver/TwoStageFFTConvolver.cpp:93-120 | the response in force is the trimmed one if and only if the samples cut from the ends of the two inner parts are zero |
| TwoStageConvolvers.OutputIsThatOfTrimmed | external/fft_consolver/TwoStageFFTConvolver.cpp:93-120 | under exactly that condition every input is convolved as with the trimmed response |
| TwoStageConvolvers.SmallSampleLost | external/fft_consolver/TwoStageFFTConvolver.cpp:93-120 | a response of three samples with a small first one, tail block 1: the output differs |
| TwoStageConvolvers.TwoStageFFTConvolver.Init | external/fft_consolver/TwoStageFFTConvolver.cpp:74-133 | block sizes exchanged if needed and rounded up to powers of two; accepted exactly when the trimmed response is longer than two tail blocks, and then the response in force is that one in three parts |
| TwoStageConvolvers.TwoStageFFTConvolver.Reset | external/fft_consolver/TwoStageFFTConvolver.cpp:55-71 | back to no response and no past |
| TwoStageConvolvers.TwoStageFFTConvolver.ChunkFits | external/fft_consolver/TwoStageFFTConvolver.cpp:148-149 | because the head block divides the tail block, no chunk runs past the tail block: both fill asserts hold |
| TwoStageConvolvers.TwoStageFFTConvolver.AddTails | external/fft_consolver/TwoStageFFTConvolver.cpp:151-178 | the precalculated buffers hold the two tails' responses exactly T and 2T late, and they are added to the head's output |
| TwoStageConvolvers.TwoStageFFTConvolver.RunTail0 | external/fft_consolver/TwoStageFFTConvolver.cpp:185-190 | the first tail is fed head block by head block and its output grows in step |
| TwoStageConvolvers.TwoStageFFTConvolver.RunTail | external/fft_consolver/TwoStageFFTConvolver.cpp:205-234 | the second tail is fed whole tail blocks |
| TwoStageConvolvers.TwoStageFFTConvolver.FeedTails | external/fft_consolver/TwoStageFFTConvolver.cpp:180-213 | input, both tails, both buffer swaps and the wrap at a full tail block keep the invariant that the delays rest on |
| TwoStageConvolvers.TwoStageFFTConvolver.ProcessTails | external/fft_consolver/TwoStageFFTConvolver.cpp:141-217 | the loop turns the head's response into the whole response, for every length of the call |
| TwoStageConvolvers.TwoStageFFTConvolver.Process | external/fft_consolver/TwoStageFFTConvolver.cpp:136-218 | for every sequence of calls of arbitrary lengths, the output is direct causal convolution of the whole input with the whole response in force |
| BitReversal.BuildTable | external/fft_consolver/AudioFFT.cpp:285-294 | the index table holds the reversals of its indices, scaled, and the loop ends with one or two middle bits left |
| BitReversal.RevOfPlace | external/fft_consolver/AudioFFT.cpp:296-376 | reversing a pair's number exchanges its low and high part and reverses the middle: why one table serves both |
| BitReversal.FourMakeColumn | external/fft_consolver/AudioFFT.cpp:298-339 | the four exchanges of the inner loop put all pairs of two columns in place and move no other |
| BitReversal.TwoMakeColumn | external/fft_consolver/AudioFFT.cpp:353-374 | the same for the two exchanges of the other branch |
| BitReversal.ExchangeMiddle | external/fft_consolver/AudioFFT.cpp:340-349 | on the diagonal the one exchange puts the two middle pairs in place and moves no other |
| BitReversal.Bitrv2 | external/fft_consolver/AudioFFT.cpp:280-377 | for every power of two, in both final branches, the array's pairs end in bit-reversed order, in place, and samples beyond n stay |
| BitReversal.BitReversedTwice | external/fft_consolver/AudioFFT.cpp:280-377 | doing it twice is the identity |
| RealSplit.Rftfsub | external/fft_consolver/AudioFFT.cpp:712-734 | every pair and its mirror image change by the weighted difference of the original pair and the conjugate of its mirror |
| RealSplit.Rftbsub | external/fft_consolver/AudioFFT.cpp:737-761 | the same with the conjugate weight, and everything conjugated, the first and the middle pair included |
| RealSplit.PairComesBack | external/fft_consolver/AudioFFT.cpp:712-761 | at one pair, merging after splitting leaves the conjugate up to the defect of the table times the difference |
| RealSplit.SplitThenMerge | external/fft_consolver/AudioFFT.cpp:712-761 | for every table, the two stages together conjugate every pair if and only if, pair by pair, the two table entries are half the cosine and sine of one angle or the pair equals its conjugated mirror image |
| ImaAdpcm.Next | external/dr_wav.h:6400-6411 | for every nibble the predictor stays a 16-bit sample and the step index below 89 |
| ImaAdpcm.Wav.LoadBlock | external/dr_wav.h:6309-6352 | a block header gives the first frame and the step indices; too few bytes or an invalid step index end the read, and exactly that is consumed |
| ImaAdpcm.Wav.DecodeGroup | external/dr_wav.h:6378-6431 | four bytes a channel become eight interleaved frames in the cache, or the stream has ended |
| ImaAdpcm.Wav.ReadPcmFramesS16 | external/dr_wav.h:6279-6435 | delivers the next frames of the stream, as many as asked for up to the end or an invalid header, writes exactly their samples, and leaves exactly the rest to come; also without a buffer |
| ImaAdpcm.AskingTwice | external/dr_wav.h:6279-6435 | reading a frames and then b frames is reading a + b frames |
| ImaAdpcm.Wav.ReadInStep | external/dr_wav.h:6279-6435 | a decoder whose cursor is c delivers the frames from c on, and its cursor is right again afterwards |
| ImaAdpcm.Wav.SeekToFirstPcmFrame | external/dr_wav.h:5804-5829 | from any state, also inside a block with cached frames, the decoder is that of a newly opened file |
| ImaAdpcm.Wav.SeekToPcmFrame | external/dr_wav.h:5831-5896 | after seeking to any frame, forwards or backwards, the decoder is exactly where reading up to that frame would have left it |
| ImaAdpcm.BlockIsPlain | external/dr_wav.h:6279-6435 | the frames of a block, whole or cut short, are those computed from that block alone, channel by channel |
| ImaAdpcm.StreamIsPlain | external/dr_wav.h:6279-6435 | a stream of whole valid blocks brings the frames of the plain decoder, whatever follows them |
| ImaAdpcm.TotalIsWhatBlocksYield | external/dr_wav.h:3710-3725 | the frame count computed on opening is what the blocks yield, for every number of whole blocks |
| ImaAdpcm.TailIsPlain | external/dr_wav.h:6279-6435 | a block cut short brings its header frame and its whole groups, and nothing else when the stream ends with it |
| ImaAdpcm.TotalIsWhatBytesYield | external/dr_wav.h:3710-3725 | for whole blocks and further bytes, the frame count, in 64-bit arithmetic, is what they yield if and only if the further bytes are none, a header and whole groups, or seven after stereo blocks that have groups |
| ImaAdpcm.DataIsSound | external/dr_wav.h:3710-3725 | the sound of blocks and a partial block, whatever follows the data chunk, is the plain decoder's if and only if the partial block is counted right |
| ImaAdpcm.StrayByteMiscounted | external/dr_wav.h:3710-3725 | a mono block of 65 frames and a stray byte count as 60 frames, a stray byte alone as 2^64 - 5 |
| ImaAdpcm.WholeBlocksAreSound | external/dr_wav.h:3710-3725 | hence reads and seeks on whole valid blocks have the plain decoder's frames as their sound |
| RiffWav.MemoryFile.Write | external/dr_wav.h:5378-5416 | the growable buffer is an overlay: bytes replaced from the cursor on, longer if they reach past the end, whatever was reallocated |
| RiffWav.MemoryFile.SeekFromStart | external/dr_wav.h:5436-5442 | a seek is clamped to the end of what has been written |
| RiffWav.Writer.InitMemoryWrite | external/dr_wav.h:4361-4515 | refused exactly for formats that need longer chunks and for sequential files announced as too large; otherwise a 44-byte header with provisional sizes and derived fields |
| RiffWav.Writer.WriteRaw | external/dr_wav.h:5976-5988 | appends the bytes and counts them |
| RiffWav.Writer.WritePcmFrames | external/dr_wav.h:5990-6026 | appends exactly the bytes of the frames, however the loop cuts them, and reports the frames in them |
| RiffWav.Writer.Uninit | external/dr_wav.h:5530-5610 | pads to an even length and patches both sizes, so that the file is header, samples and padding with the right sizes; a sequential file is reported valid exactly when its announced size was written |
| RiffWav.PatchRiffSize | external/dr_wav.h:5564-5568 | overwriting the RIFF size changes nothing else |
| RiffWav.PatchDataSize | external/dr_wav.h:5570-5574 | overwriting the data size changes nothing else |
| RiffWav.Reader.NextChunk | external/dr_wav.h:3220-3398 | one chunk of the parser's loop consumes a whole chunk, padding included, and leaves the outcome of the scan as it is |
| RiffWav.Reader.Init | external/dr_wav.h:3007-3762 | the parser with its stream refines the outcome computed from the bytes, and stands at the first sample |
| RiffWav.Reader.ReadRaw | external/dr_wav.h:5630-5680 | the next bytes, as many as asked for, left in the chunk and in the file; the cursor counts whole frames |
| RiffWav.ImageOpens | external/dr_wav.h:3007-3762 | a finished file opens exactly when the parser accepts its format and its RIFF size is at least 36 |
| RiffWav.RoundTrip | external/dr_wav.h:5543-5574 | for every format the writer takes and every payload whose RIFF size fits 32 bits, the closed file opens with the same fields, size and sample bytes if and only if the format is one the parser accepts |
| RiffWav.SequentialRoundTrip | external/dr_wav.h:4415-4434 | a sequential file opens if and only if, besides, it holds at least eight sample bytes |
| RiffWav.SequentialFrameLost | external/dr_wav.h:4415-4434 | one frame of 16-bit mono written in sequential mode: the file is reported valid and does not open |
| RiffWav.CountComesBack | external/dr_wav.h:2950-2973 | the reader counts the frames that were written, whatever their number, if and only if a frame is a whole number of bytes |
| RiffWav.HalfBytesMiscounted | external/dr_wav.h:2950-2973 | two frames of 12-bit mono come back as three |
| RiffWav.BytesAddUp | external/dr_wav.h:5990-6005 | for whole-byte frames, the bytes of two calls are those of one call for both |
| RiffWav.WriteAndReadBack | external/dr_wav.h:5487-5736 | a whole session: frames written in any number of calls, closed, opened and read give the same format, frame count and bytes |
| RiffMetadata.WriteOrCountMetadata | external/dr_wav.h:3949-4311 | one result for both modes: the number of bytes emitted; writing appends exactly those bytes |
| RiffMetadata.WriteInfoList | external/dr_wav.h:4112-4177 | the INFO list, head and chunks in order |
| RiffMetadata.WriteAdtlList | external/dr_wav.h:4179-4306 | the adtl list, head and chunks in order |
| RiffMetadata.TopSizeIsRight | external/dr_wav.h:3969-4095 | the size computed from constants and counts for each kind of top-level chunk, which goes into the size field and decides the padding, is the length of the content |
| RiffMetadata.ListedSizesAreRight | external/dr_wav.h:4134-4301 | the same for the sizes of the chunks in the INFO and adtl lists |
| RiffMetadata.EmittedIsEven | external/dr_wav.h:4308-4310 | the number of bytes is even for every metadata list: the closing assert holds |
| RiffMetadata.InfoSizeIsPayload | external/dr_wav.h:4113-4177 | the INFO list's size field is its payload if and only if no text or unknown chunk in it is empty; otherwise it is larger |
| RiffMetadata.AdtlSizeIsPayload | external/dr_wav.h:4180-4306 | the same for the adtl list and empty labels and notes |
| RiffMetadata.EmptyTextCounted | external/dr_wav.h:4113-4306 | one empty title, or one empty label, makes a size field of 14, or 16, in front of four bytes |
| RiffMetadata.EmittedTiles | external/dr_wav.h:3949-4311 | without such empty pieces the output, and the content of both lists, is chunk after chunk: every size field, computed ahead of the content, is followed by that many bytes and padding |
| SprintfBuffer.Printer.Callback | external/stb_sprintf.h:1393-1428 | copies what still fits, counts everything, and hands out the caller's buffer directly exactly while it has room for 512 more |
| SprintfBuffer.Printer.Check | external/stb_sprintf.h:364-378 | nothing is lost, and afterwards there is room for the bytes announced |
| SprintfBuffer.Printer.EmitText | external/stb_sprintf.h:391-432 | text is appended as it is, one or four characters at a time, wherever the aligned steps fall |
| SprintfBuffer.Printer.EmitRun | external/stb_sprintf.h:1170-1328 | a clamped run is appended as it is, and the loop ends although a pass with a full buffer makes no progress |
| SprintfBuffer.Printer.Vsprintfcb | external/stb_sprintf.h:1345-1355 | for every sequence of pieces, what the callback receives is their concatenation and the result its length, with at most 512 characters held at any time |
| SprintfBuffer.Vsnprintf | external/stb_sprintf.h:1430-1458 | stores the first min(length, count - 1) characters and a terminator, changes nothing behind it and returns the full length (section 7.19.6.5 of ISO/IEC 9899:1999); without a buffer it only counts; the terminator's index is inside a proper buffer if and only if the count is positive |
| SprintfBuffer.CountZeroMisses | external/stb_sprintf.h:1430-1458 | two characters into a buffer of four with count 0: the terminator's index is -1 |
| SprintfDecimal.ConvertDecimal | external/stb_sprintf.h:1087-1141 | for every 64-bit magnitude the buffer ends with its canonical decimal, grouped when asked for |
| SprintfDecimal.DecimalIsCanonical | external/stb_sprintf.h:1087-1141 | the canonical decimal consists of digits, denotes the number and has no leading zero but for 0 itself |
| SprintfDecimal.ChunkSplits | external/stb_sprintf.h:1094-1097 | the decimal of a number is that of its quotient by 10^8 followed by eight digits of the remainder |
| SprintfDecimal.PairsOvershoot | external/stb_sprintf.h:1101-1121 | digit pairs leave at most one zero too many in front, which is what the check at the end removes |
| SprintfDecimal.GroupedFront | external/stb_sprintf.h:1108-1131 | a digit in front gets a separator behind it exactly when the group there is full, so the counter may run across chunks |
| SprintfDecimal.GroupingOnlyAdds | external/stb_sprintf.h:1108-1131 | removing the separators gives the digits back, and no separator comes first |
| SprintfDecimal.GroupingPlaces | external/stb_sprintf.h:1108-1131 | a separator stands before every third digit counted from the right and nowhere else |

## Left out

Members stated weaker than the source, or under a condition of the caller's:

- Codebooks.Codebook.Build: the lengths are given as read, without the bits they are read from, and every allocation succeeds; a book without entries, for which the outcome of the source depends on the allocator, is refused.
- Codebooks.QSort: stands in for the C library's qsort on distinct keys.
- Floor1.SortedPoints: stands in for qsort on the posts; no property of it is used but that it sorts.
- PacketReader.Vorb.NextSegment: pages are given with their lacing values and bodies present; capture patterns, page checksums and resynchronisation are not modelled. A page that is not flagged as continuing the packet sets the error flag; what the decoder does afterwards is not modelled.
- PacketReader.Vorb.GetBits: a 32-bit read with a completely full accumulator is excluded, because the source then shifts by the word's width.
- PacketReader.Vorb.DecodeScalarRaw: the invalid-stream error flag of the linear search is not modelled, only the -1 that comes with it.
- PacketReader.Vorb.Decode: for a codebook without any codeword the source indexes a table that is not there, so at least one is required.
- PacketReader.ReadBack: fields are at most 24 bits wide.
- Floor1.UnwrapFloor: the posts' wire values are given; how partitions, classes and master books produce them, and the flag for an unused floor, are not modelled. The source keeps them in 16 bits: by `Floor1.HeightFitsShort` this changes nothing for values from -1 to 32767; entries of codebooks that are larger still, which wrap when they are stored, are not modelled.
- Floor1.HeightInRange: values from codebooks are taken to be below the range, which the source does not check; `Floor1.HeightsInRangeIff` and `Floor1.WireTooLarge` say what happens otherwise.
- Floor1.WireComesBack: wire values are taken to be below the range; otherwise it fails, see `Floor1.LargeWireLooksUnused`.
- Floor1.DistinctWiresDistinctPosts: wire values are taken to be below the range; otherwise it fails, see `Floor1.LargeWireLooksUnused`.
- Floor1.DistinctWiresDistinctCurves: wire values are taken to be below the range, and the same posts to be in use; for different posts in use see `Floor1.SameCurveMeetsBoth` and `Floor1.OneAmplitudeMore`.
- Floor1.DoFloor: the table of amplitudes is a parameter, and samples are exact.
- FFTConvolvers.FFTConvolver.Init: the segment count is the exact quotient rounded up; the source rounds in single precision, which agrees up to 2^24 samples.
- FFTConvolvers.FFTConvolver.Process: input and output are different arrays and neither is one of the convolver's own.
- Spectra.ConvolutionTheorem: samples are exact reals and the transform is any pair with additive inverse for which products are circular convolutions. `FourierTransform` proves this of the discrete Fourier transform at every power of two; that Ooura's butterflies compute that transform is not proved.
- FourierTransform.TransformExists: that real numbers have square roots is a hypothesis, because the axioms for numbers here do not include completeness; sizes 2 and 4 do without it.
- TwoStageConvolvers.TwoStageFFTConvolver.Process: input and output are different arrays that start at index 0; background processing is the synchronous one of the base class.
- TwoStageConvolvers.TwoStageFFTConvolver.Init: the assertion at the head of the source's function, which stops a debug build when the head block is the larger one, is left out; the model exchanges the two as the code behind it does.
- RealSplit.SplitThenMerge: arithmetic is exact, and the table is arbitrary instead of the one computed by cosines.
- ImaAdpcm.Wav.ReadPcmFramesS16: a block's size is a whole number of groups of four bytes a channel; cursors do not wrap at 32 or 64 bits.
- ImaAdpcm.Wav.SeekToPcmFrame: the data chunk has no invalid block header and yields as many frames as the file announces.
- ImaAdpcm.TotalIsWhatBytesYield: data chunks of at most 2^63 - 1 bytes, so that doubling the size does not overflow; a count from a fact chunk, which takes precedence, is not modelled.
- ImaAdpcm.TotalIsWhatBlocksYield: the same bound on the data chunk.
- ImaAdpcm.DataIsSound: the same bound on the data chunk.
- ImaAdpcm.WholeBlocksAreSound: the same bound on the data chunk.
- RiffWav.Writer.InitMemoryWrite: the RIFF container only, channels and bits per sample between 1 and 65535, no metadata in the header.
- RiffWav.Reader.Init: the RIFF container and uncompressed formats; other containers, ADPCM formats and format chunks of 2^31 bytes or more are reported as outside the model. The chunk callback and the metadata pass are not modelled, and the fact chunk is only skipped.
- RiffWav.MemoryFile.Write: reallocation succeeds.
- RiffWav.Writer.Uninit: no metadata, so its share of the RIFF size is left out.
- RiffWav.Reader.ReadRaw: there is an output buffer; the path that seeks over the bytes when there is none is not modelled.
- RiffMetadata.WriteOrCountMetadata: sizes do not wrap at 32 bits, the tempo is given as its four bytes, and the fields of a chunk's content are written in one call instead of one by one.
- SprintfBuffer.Printer.Vsprintfcb: the format has been taken apart into pieces of text and runs; the callback never returns null and lengths do not overflow an int.
- SprintfBuffer.Vsnprintf: counts are not negative and a null buffer comes with count 0; for a proper buffer with count 0 the write in front of the buffer is left out and its index returned instead.
- SprintfDecimal.ConvertDecimal: field width, sign and precision are added elsewhere; the check for a leading zero looks at the digits only after seeing that there are some, while the source reads the byte behind the buffer's end first.

Not modelled at all:

- Rounding, trigonometric tables, the inverse MDCT and the float conversions of stb_sprintf: no theory of IEEE arithmetic is available.
- The butterflies of `AudioFFT.cpp` and its Accelerate, FFTW and PFFFT back ends, SSE variants, and `external/pffft`.
- Residue decoding, channel coupling, floor 0, the overlap of windows, seeking by interpolation and push mode in stb_vorbis.
- The variants of stb_vorbis selected by `STB_VORBIS_NO_DEFER_FLOOR`, `STB_VORBIS_DIVIDE_TABLE`, `STB_VORBIS_DIVIDES_IN_CODEBOOK` and `STB_VORBIS_NO_HUFFMAN_BINARY_SEARCH`.
- W64, RF64, RIFX and AIFF files, MS ADPCM, A-law and mu-law tables, sample conversions, and reading metadata in dr_wav.
- Parsing of format strings, conversions other than decimal integers, and `sprintf` without a callback in stb_sprintf.
- Files, wide characters, allocation callbacks, and the library's own headers under `src`.
