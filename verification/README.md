# A verified model of the bundled zlib

This project models the compression library zlib 1.2.11 that the repository carries in `include/zlib`, in Dafny, and
proves that it does what its documentation promises: what `deflate` packs, `inflate` unpacks, in however many calls
each of them is run.  The format is RFC 1951 (raw DEFLATE); the checksums are those of RFC 1950 and RFC 1952.

The build modelled has none of `FASTEST`, `UNALIGNED_OK`, `ZLIB_DEBUG`, `INFLATE_STRICT` and
`INFLATE_ALLOW_INVALID_DISTANCE_TOOFAR_ARRR`.

## The main results

- **Round trip over all runs** (`EndToEnd.Pack`, `Inflate.Unpack`, `EndToEnd.RoundTrip`, `EndToEnd.StreamRoundTrip`): for
  every input, every compression method and every sequence of calls of `deflate` with any flush values and output space,
  going on with `Z_FINISH` always comes to `Z_STREAM_END`, and what was delivered is a whole stream for all of the input;
  every sequence of calls of `inflate` on it, continued in the same way, always comes to its end and gives exactly the
  input.  There is no hypothesis.  Bytes behind the stream do not matter and are not taken.
- **ENOUGH is enough, and no more than needed** (`Enough.RoomSuffices`, `Enough.LensNeeded`, `Enough.DistsNeeded`): the
  table of a complete code has one entry for each root index, one for each code longer than the root, and a number of
  spare ones that is bounded through the parity of what is left at each length (`Enough.CompleteSize`,
  `Enough.SpareBound`).  So 852 and 592, which `inftrees.h` takes from an exhaustive search, bound every code, and two
  codes attain them.
- **Flushing keeps its promise** (`Deflate.Call`, `EndToEnd.FlushedIsDecoded`, `EndToEnd.PartialIsDecoded`): after
  `Z_SYNC_FLUSH`, `Z_FULL_FLUSH` or `Z_PARTIAL_FLUSH` with output space left, the bytes delivered decode to all input so
  far and nothing else.
- **Decoding can start at every full flush** (`Deflate.Call`, `Deflate.FinishFlush`, `EndToEnd.RestartAfterFlush`,
  `EndToEnd.RestartAtEnd`): a completed `Z_FULL_FLUSH` leaves a mark, a byte boundary of the stream and a position of the
  input.  No later match reaches back over a mark, and at every later flush and at the end of the stream a new decoder
  that starts at the mark gives exactly the input from there on.
- **Every block of every stream is well chosen** (`Deflate.StreamBlocks`, `BlockLog.LogEntry`): at any time the bits sent are
  those of a list of blocks and nothing else.  Each is the marker of a flush, or the block that `_tr_flush_block` must
  choose for its tokens, its text and the strategy, where the dynamic candidate has the codes that `build_tree` makes.
- **Cutting does not matter** (`Inflate.CuttingDoesNotMatter`, `Inflate.OutputsAgree`): also for streams that are
  truncated or wrong.
- **The fast loop refines the slow path** (`FastLoop.FastCase`), **decoding tables are correct and of exactly known size**
  (`InflateTable.Build`, `InflateTable.LookupSymbol`), **reading is just enough** (`Inflate.JustEnough`).
- **Huffman trees are optimal** among all prefix codes whenever any optimal prefix code keeps to the limit on lengths, and
  complete in any case (`MakeTree.MakeTree`, `MakeTree.HuffmanOptimal`, `MakeTree.OptimalForCodes`): taking the lower of
  two nodes of equal frequency makes the tree the lowest of all optimal ones (`Ranks.Lowest`, `Ranks.FitsIsShallow`).
- **Bit costs are exact, and how good the choice of a block is** (`Blocks.Trees.BuildTrees`, `Blocks.Trees.FlushBlock`,
  `Blocks.ChosenSize`): outside `Z_FIXED` a block that is not stored takes no more bytes than the other one with codes and
  fewer bits than the stored one; a stored block is at most 17 bits larger than the smallest, and is itself the smallest
  exactly when its padding, lengths and bytes take no more bits than the lesser of `opt_len` and `static_len`.
- **Matching is sound and complete** (`HashChains.InsertString`, `LongestMatch.WalkReaches`, `LongestMatch.LongestMatch`): a
  chain holds every string entered with its hash that is still in the window, newest first, so that a match found is real,
  and unless it is nice enough or takes up the lookahead no string within MAX_DIST and the chain limit matches longer.
- **Tokens mean the input, and are the ones greedy or lazy matching calls for** (`DeflateFast.DeflateFast`,
  `DeflateSlow.DeflateSlow`, `DeflateRuns.DeflateRle`, `DeflateRuns.DeflateHuff`, `Deflate.Call`): the tokens of a call are
  those of a chain of steps, each of which is fixed by the strings entered before it.
- **Rarer symbols have codes at least as long** (`MakeTree.RarerIsLonger`), also where the limit on lengths interfered.
- **Checksums** equal their bit-by-bit or byte-by-byte definitions in every form and combine correctly.  The CRC of any text
  followed by its own CRC is 0x2144df1c (`CrcValues.Residue`), and 65521 is the largest prime below 65536
  (`AdlerValues.BaseIsLargestPrime`).

## How it is built

- `Bits`, `Canonical`: bit strings, Huffman codes by their lengths.
- `Format`, `Encoding`, `Runs`: RFC 1951 as a machine over a bit string (`Step`, `Reaches`), the bits of a block, and the
  proof that the machine decodes them; `FormatTables` gives the shared tables in the numbers of RFC 1951.
- `InflateTable`, `TableRead`, `Accumulator`, `Inflate*`, `CopyBytes`, `Window`, `FastLoop`, `SyncSearch`: the decoder.
  Its state is tied to the machine by `InflateState.Inv`; `Enough` is about the size of its tables, `FastEntry` holds an
  example run.
- `BitWriter`, `GenCodes`, `CodeLengths`, `Heap`, `Huffman`, `Ranks`, `BuildTree`, `GenBitlen`, `LimitLengths`, `Rarer`,
  `MakeTree`, `StaticTables`, `BlockCost`, `BlockPlan`, `CompressBlock`, `Blocks`: trees and block output; `BlockExample`
  holds an example block.
- `Hash`, `HashChains`, `LongestMatch`, `FillWindow`, `DeflateText`, `Restart`, `BlockLog`, `Emit`, `Moves`, `DeflateFast`,
  `DeflateSlow`, `DeflateRuns`, `Deflate`: matching and the calls of `deflate`.  `Coder` carries two ghost fields, the
  marks of full flushes and the list of the blocks sent; `Restart`, `BlockLog` and `Moves` say what they mean.
- `EndToEnd`: both together.  `Adler32`, `AdlerValues`, `Crc32`, `CrcValues`, `CrcCombine`: checksums.

Conventions: integers are unbounded and every width that matters is a precondition or an invariant (`adler32.c` uses a
32-bit type, so that each assignment is a proof that nothing overflows); C shifts and masks of unsigned words are
divisions and remainders by powers of two; window positions carry the absolute input position `base`, so that
`match_start -= wsize` is a plain subtraction; memory handed over by the application is a sequence or a fresh array.

Three places where the code and its comments differ.  `inflate_fast` states that fewer than eight bits are held on entry, but
after a call that ended inside a long code more are held: `FastEntry.HeldOnEntry` constructs such a state.  The model
allows it, and `FastLoop.StuckSize` shows that the bytes given back are still only those the loop took.  `adler32_z` for a
single byte does not reduce fully when the caller's second sum and the new first sum together reach twice 65521
(`Adler32.OneByte` gives the exact condition, `Adler32.ShortcutFails` an input); sums of a real checksum never do
(`Adler32.ReducedSums`).  `_tr_flush_block` says that it determines the best encoding, but it compares a stored block
without its type and padding, so that one can be stored that takes a byte more than with the fixed codes:
`BlockExample.StoredIsLarger` gives such an input, `Blocks.ChosenSize` the exact condition.

## Model

| member | source | states |
|---|---|---|
| Canonical.PrefixFree | include/zlib/trees.c:572-605 | for every set of lengths that is not over-subscribed, no canonical code is a prefix of another |
| Canonical.CodeOrder | include/zlib/trees.c:582-588 | a longer code lies, read to the shorter length, strictly above every shorter code: codes increase by length |
| Canonical.LastCodeAllOnes | include/zlib/trees.c:589-593 | under the Kraft equality the last code of the greatest length is all ones |
| Canonical.CompleteCovers | include/zlib/inftrees.c:130-138 | under the Kraft equality every bit string of the greatest length starts with some code |
| Canonical.DecodeStable | include/zlib/inflate.c:1054-1071 | once the bits present decide a symbol or an error, later bits never change that decision |
| InflateTable.CheckLeft | include/zlib/inftrees.c:130-138 | the running count of unused codes is negative exactly when the lengths are over-subscribed, and otherwise is the exact Kraft remainder |
| InflateTable.SortSymbols | include/zlib/inftrees.c:140-147 | the counting sort puts every coded symbol at its place by length and then by symbol |
| InflateTable.BackwardsIncrement | include/zlib/inftrees.c:239-248 | incrementing the bit-reversed code from the top gives the next canonical code, all ones wrapping to zero |
| InflateTable.SubtableBits | include/zlib/inftrees.c:266-274 | the look-ahead on `count` sizes a sub-table so that every code below its root entry fits, and some code there has that full length |
| InflateTable.Replicate | include/zlib/inftrees.c:230-237 | after the fill loop exactly the indices whose low bits are the code hold the entry |
| InflateTable.FillTables | include/zlib/inftrees.c:214-287 | the main loop enters every symbol in the root table or in the sub-table its first bits link to; it reports lack of space only if the exact table size exceeds ENOUGH |
| InflateTable.Build | include/zlib/inftrees.c:32-304 | inflate_table: -1 exactly for lengths that are neither complete nor an admitted incomplete code, +1 exactly when an acceptable code needs more entries than ENOUGH, otherwise a correct one- or two-level table of exactly that size, and nothing outside the space is touched |
| InflateTable.LookupSymbol | include/zlib/inftrees.c:214-237 | indexing such a table with any bit string that starts with the code of a symbol yields that symbol's entry with its exact length, directly or through one link |
| InflateTable.LookupHole | include/zlib/inftrees.c:290-298 | bits that no code starts read as the invalid-code entry |
| TableRead.ReadRoot | include/zlib/inflate.c:1054-1071 | a look-up with only part of the bits present decides exactly what the format decides on those bits: symbol, error or not yet |
| Enough.CompleteSize | include/zlib/inftrees.h:38-51 | the table of a complete code has exactly one entry for each root index, one for each longer code, and the spare entries that sub-tables leave at each length |
| Enough.SpareBound | include/zlib/inftrees.h:38-51 | the spare entries of j levels of sub-tables are at most 2^(j+1) - 2 - j, and that many only for one parity of the codes still to come |
| Enough.EnoughLens | include/zlib/inftrees.h:38-49 | no complete code for at most 286 symbols needs more than 852 entries with a root of 9 bits |
| Enough.EnoughDists | include/zlib/inftrees.h:38-50 | no complete code for at most 30 symbols needs more than 592 entries with a root of 6 bits |
| Enough.RoomSuffices | include/zlib/inftrees.h:38-51 | every acceptable code, complete or not, with the root inflate_table uses for it, fits ENOUGH_LENS or ENOUGH_DISTS |
| Enough.LensNeeded | include/zlib/inftrees.h:38-49 | a code that needs all 852 entries |
| Enough.DistsNeeded | include/zlib/inftrees.h:38-50 | a code that needs all 592 entries |
| GenCodes.BiReverse | include/zlib/trees.c:1158-1168 | the result is the code's digits in opposite order |
| GenCodes.GenCodes | include/zlib/trees.c:572-605 | every used symbol gets the bit-reversed canonical code of section 3.2.2 of RFC 1951, and nothing else is written |
| GenCodes.NoOverflow | include/zlib/trees.c:585-588 | the first code of every length fits the 16-bit next_code |
| BitWriter.Writer.SendBits | include/zlib/trees.c:211-223 | the bits sent grow by exactly the given digits, through the 16-bit buffer |
| BitWriter.Writer.BiFlush | include/zlib/trees.c:1173-1185 | moving whole bytes out keeps the stream and leaves at most seven bits |
| BitWriter.Writer.BiWindup | include/zlib/trees.c:1190-1203 | the stream is padded with zero bits to a byte boundary |
| BitWriter.Writer.FlushPending | include/zlib/deflate.c:730-750 | delivery hands over as many waiting bytes as there is space for and changes nothing about the stream |
| CodeLengths.PackRoundTrip | include/zlib/trees.c:748-793 | unpacking the packed literal lengths followed by the packed distance lengths rebuilds both arrays: no run crosses the boundary |
| CodeLengths.PackRun | include/zlib/trees.c:748-793 | packing takes the lengths run by run: a run that cannot be prolonged becomes as many lengths at a time as one symbol can stand for, whatever follows it |
| CodeLengths.ScanTree | include/zlib/trees.c:703-742 | the frequencies grow by exactly the number of times send_tree will send each symbol; only the guard is written in the tree |
| CodeLengths.SendTree | include/zlib/trees.c:748-793 | the bits sent are the codes and repeat counts of the packed lengths |
| Heap.PqDownHeap | include/zlib/trees.c:451-474 | the heap order is restored from the node down, with the same elements |
| Heap.HeapMin | include/zlib/trees.c:441-443 | the root of a heap is not greater than any element |
| BuildTree.CollectSymbols | include/zlib/trees.c:632-639 | the heap array holds exactly the symbols in use |
| BuildTree.ForceTwo | include/zlib/trees.c:646-652 | at least two codes exist afterwards; the bit counts are lowered by exactly what the forced symbols will add |
| BuildTree.Heapify | include/zlib/trees.c:658 | the array becomes a heap with the same elements |
| BuildTree.PqRemove | include/zlib/trees.c:430-435 | the least node leaves the heap, which stays a heap |
| BuildTree.JoinTwo | include/zlib/trees.c:665-686 | one round joins the two least frequent roots under a new node and keeps the total frequency |
| BuildTree.BuildForest | include/zlib/trees.c:664-688 | the rounds are a greedy Huffman history, recorded in the fathers and in the list of nodes from the root down |
| Huffman.LowerBound | include/zlib/trees.c:615-697 | every assignment of lengths that satisfies the Kraft inequality costs at least the weight of the inner nodes of the greedy history |
| Huffman.CostIsInnerWeight | include/zlib/trees.c:503-526 | lengths one more than the father's cost exactly that weight |
| Huffman.KraftExcess | include/zlib/trees.c:508-526 | with lengths cut at the limit the Kraft sum exceeds one by the number of inner nodes at the limit |
| Huffman.EnoughAtLimit | include/zlib/trees.c:532-543 | when something was cut, more leaves sit at the limit than the excess, so the repair never runs out of them |
| Huffman.CutIffDeep | include/zlib/trees.c:508-526 | no length is cut exactly when no leaf lies deeper than the limit in the greedy history |
| GenBitlen.FirstPass | include/zlib/trees.c:503-526 | the first pass sets lengths cut at the limit and counts lengths, overflow and both bit costs exactly |
| LimitLengths.RepairStep | include/zlib/trees.c:532-543 | one repair lowers the scaled Kraft sum by one and keeps the number of codes |
| LimitLengths.ShorterExists | include/zlib/trees.c:533-534 | while the Kraft sum is too large some shorter length is in use, so the inner search ends |
| LimitLengths.LimitCounts | include/zlib/trees.c:532-543 | from an even overflow of twice the excess the loop ends with the Kraft equality and the same number of codes; each repair splits a code of the greatest length in use below the limit |
| LimitLengths.HandOut | include/zlib/trees.c:549-561 | the second pass gives every leaf a length within the limit, as often as counted, and keeps the cost exact; along the list of nodes from the root down the lengths of the leaves never fall |
| Rarer.OptimalIsRareLong | include/zlib/trees.c:615-697 | in an optimal code a rarer symbol never has the shorter code |
| Rarer.ListedFalls | include/zlib/trees.c:664-688 | the list of nodes from the root down has falling frequencies |
| MakeTree.Kraft | include/zlib/trees.c:486-562 | the Kraft inequality: the lengths of every prefix code are feasible |
| MakeTree.OptimalForCodes | include/zlib/trees.c:615-697 | lengths that are optimal cost no more than any prefix code for the same symbols |
| MakeTree.GenLengths | include/zlib/trees.c:486-562 | gen_bitlen: lengths within the limit with Kraft sum exactly one and exact costs; rarer leaves get lengths at least as long; nothing overflows exactly when no leaf of the greedy tree is deeper than the limit, and then the lengths are optimal |
| MakeTree.LimitedIsComplete | include/zlib/trees.c:549-561 | the lengths handed out form a complete code |
| Ranks.Lowest | include/zlib/trees.c:437-443 | with height as tie breaker no assignment of optimal lengths gives a lower tree than the one built: the worst case length is minimal |
| Ranks.TrueHeights | include/zlib/trees.c:673-674 | the depths kept in one byte never wrap for 16-bit frequencies, so they are the true heights the nodes are compared by |
| Ranks.FitsIsShallow | include/zlib/trees.c:437-443 | if any optimal prefix code keeps to the limit, no leaf of the tree built lies deeper than the limit |
| MakeTree.MakeTree | include/zlib/trees.c:615-697 | build_tree: a complete code that has every symbol in use, with canonical codes; symbols are forced only as far as two are missing; opt_len and static_len grow by exactly the bits of the symbols in use under the new and the fixed code; no length is cut exactly when some optimal prefix code for these frequencies keeps to the limit, and then the lengths are optimal |
| MakeTree.HuffmanOptimal | include/zlib/trees.c:615-697 | with two symbols in use that is optimality for the given frequencies themselves |
| MakeTree.RarerIsLonger | include/zlib/trees.c:486-562 | with two symbols in use the rarer of two used symbols has a code at least as long, whatever the limit did |
| StaticTables.StaticInit | include/zlib/trees.c:232-312 | the generated tables map every length and distance to the code whose base and extra bits represent it, and hold the fixed codes |
| FormatTables.LengthRule | include/zlib/inftrees.c:60-65 | length codes 257 to 284 follow the rule of section 3.2.5 of RFC 1951: eight without extra bits, then four for each number of them; 285 is 258 |
| FormatTables.DistanceRule | include/zlib/inftrees.c:66-73 | distance codes follow the rule of section 3.2.5 of RFC 1951: four without extra bits, then two for each number of them |
| FormatTables.LongestCode | include/zlib/trees.c:262-268 | length 258, and no other, has the last length code |
| FormatTables.RepeatRule | include/zlib/inflate.c:971-994 | the three repeat symbols stand for 3 to 6, 3 to 10 and 11 to 138 lengths, with two, three and seven bits |
| FormatTables.FixedLitCodes | include/zlib/trees.c:288-298 | the fixed literal codes are the bit patterns of section 3.2.6 of RFC 1951 |
| FormatTables.FixedDistCodes | include/zlib/trees.c:300-304 | the fixed distance codes are the five-bit numbers of their symbols |
| BlockCost.DataCost | include/zlib/trees.c:1064-1109 | frequencies times lengths are exactly the bits of the encoded tokens |
| BlockCost.ItemsCost | include/zlib/trees.c:748-793 | frequencies times lengths are exactly the bits of the packed code lengths |
| BlockPlan.ClRoundTrip | include/zlib/trees.c:799-827 | the receiver rebuilds the code length code from the lengths sent in bl_order, which `FormatTables.OrderPlaces` gives in numbers |
| FormatTables.OrderPlaces | include/zlib/trees.c:71 | bl_order has 16, 17, 18 and 0 at its first places and then goes outwards from 8: 8+k at place 4+2k, 7-k at place 5+2k |
| FormatTables.ClPlaces | include/zlib/trees.c:846-849 | the lengths sent stand at those places, for every code length code |
| FormatTables.ClensPlaces | include/zlib/inflate.c:939-944 | the lengths received are those of the symbols at those places, for every list sent |
| CompressBlock.CompressBlock | include/zlib/trees.c:1064-1109 | the bits sent are those of the buffered tokens and the end of block |
| CompressBlock.SendAllTrees | include/zlib/trees.c:834-858 | the bits sent are the dynamic header for the two length arrays; the order of the code length lengths is that of `FormatTables.ClPlaces` |
| Blocks.BuildBlTree | include/zlib/trees.c:799-827 | the code length code is made for the packed lengths, at least four lengths are sent of which the last is in use, and opt_len grows by exactly the bits of the header |
| Blocks.Trees.InitBlock | include/zlib/trees.c:407-420 | the token buffer is empty and the frequencies count just the end of block |
| Blocks.Trees.TallyLit | include/zlib/deflate.h:326-332 | one literal is appended, frequencies still count the buffer, and the flag says the buffer is full |
| Blocks.Trees.TallyDist | include/zlib/deflate.h:333-342 | one match is appended, frequencies still count the buffer, and the flag says the buffer is full |
| Blocks.Trees.BuildTrees | include/zlib/trees.c:927-946 | opt_len and static_len are exactly the bits after the three header bits of the dynamic and of the fixed block; the lengths of the dynamic one are those of optimal codes for the tokens counted, if any optimal code keeps to 15 bits |
| Blocks.Trees.SendFixed | include/zlib/trees.c:976-980 | the bits sent are a fixed block of the buffered tokens |
| Blocks.Trees.SendDynamic | include/zlib/trees.c:984-989 | the bits sent are a dynamic block of the buffered tokens |
| Blocks.Trees.FlushBlock | include/zlib/trees.c:911-1008 | one valid block for the buffered tokens is sent, stored, fixed or dynamic with the codes made for their frequencies and the header made for those codes; which of them follows exactly from their sizes in bits, measured on the bits each would send; the buffer is emptied and a last block ends on a byte boundary |
| Blocks.ChosenSize | include/zlib/trees.c:944-993 | outside Z_FIXED a block that is not stored takes no more bytes than either one with codes and fewer bits than the stored one; a stored block is at most 17 bits above the smallest, and is the smallest exactly when padding, lengths and bytes take no more bits than the lesser of opt_len and static_len |
| BlockExample.StoredIsLarger | include/zlib/trees.c:944-962 | for the fifteen literals 144 to 158 at the start of a stream the stored block of 160 bits is chosen, where the fixed codes would take 145 |
| Blocks.SendStored | include/zlib/trees.c:863-881 | a stored block with length, complement and bytes at a byte boundary |
| Blocks.SendAlign | include/zlib/trees.c:896-905 | an empty fixed block, with at most seven bits left in the buffer |
| Encoding.DataRun | include/zlib/inflate.c:1044-1196 | decoding the data of a block expands its tokens and stops right after the end-of-block code |
| Encoding.HeaderRun | include/zlib/inflate.c:920-1041 | decoding a dynamic header rebuilds both code length arrays |
| Encoding.BlockRun | include/zlib/inflate.c:851-1196 | the bits of every valid block decode to exactly what the block stands for, ending at the first bit behind it |
| Blocks.FlushRoundTrip | include/zlib/trees.c:911-1008 | whatever block was chosen, decoding it turns the history into the expansion of the tokens |
| Format.StepStable | include/zlib/inflate.c:506-538 | a decoding step that can be taken is the same whatever bits follow |
| Format.ReachUnique | include/zlib/inflate.c:622-1275 | the format has exactly one outcome for every stream |
| Runs.ReachLocal | include/zlib/inffast.c:292-296 | a run needs no bits beyond those it has read |
| Runs.ReachBound | include/zlib/inflate.c:1044-1196 | every bit read stands for at most 258 bytes of output, so that runs are finite |
| Accumulator.LagDone | include/zlib/inflate.c:1054-1071 | reading byte by byte until a code is complete leaves fewer than eight bits |
| Window.UpdateWindow | include/zlib/inflate.c:396-444 | the circular window holds the last bytes of the history extended by the new output, wrapping or not |
| Window.GetDictionary | include/zlib/inflate.c:1302-1310 | the bytes of the window come out in order |
| InflateState.NeedBits | include/zlib/inflate.c:516-521 | either the bits are there, or the input is used up and they are not; nothing is lost |
| InflateModes.TypeDoCase | include/zlib/inflate.c:851-886 | the block header state follows the format machine, and stops only for lack of input or where the flush mode asks for it |
| InflateModes.StoredCase | include/zlib/inflate.c:887-900 | the same for the stored header, from the byte boundary that INITBITS assumes |
| InflateModes.TableCase | include/zlib/inflate.c:920-937 | the same for the sizes of a dynamic block, with the limits 286 and 30 |
| InflateTrees.LenLensCase | include/zlib/inflate.c:938-958 | the same for the code length code, resumable after any number of lengths, which belong to the symbols that `FormatTables.ClensPlaces` names |
| InflateDecode.DecodeEntry | include/zlib/inflate.c:1054-1071 | a symbol is decoded through one or two tables with just enough bytes, or the input ends inside it |
| InflateLens.ReadLength | include/zlib/inflate.c:959-1005 | one code length symbol with its repeat count, or nothing taken when the input ends inside it |
| InflateLens.BuildCodes | include/zlib/inflate.c:1017-1039 | both tables are correct, exactly when both codes are acceptable; the space always suffices |
| InflateLens.CodeLensCase | include/zlib/inflate.c:959-1041 | the code length state follows the format machine, resumable at any symbol |
| InflateData.LenCase | include/zlib/inflate.c:1053-1092 | the length state follows the format machine |
| InflateData.ExtraCase | include/zlib/inflate.c:1093-1102 | the same for extra bits of lengths and distances |
| InflateData.DistCase | include/zlib/inflate.c:1103-1129 | the same for distance codes |
| CopyBytes.CopyWindow | include/zlib/inflate.c:1171-1188 | bytes copied from the window are those of an overlapping copy from the history |
| CopyBytes.CopyWindowFast | include/zlib/inffast.c:239-249 | the same, three bytes at a time |
| CopyBytes.CopyBack | include/zlib/inflate.c:1179-1188 | byte-by-byte copying within the output is the overlapping copy |
| InflateOutput.TooFarIff | include/zlib/inflate.c:1149-1156 | the test against whave rejects exactly the distances beyond the whole history |
| InflateOutput.MatchCase | include/zlib/inflate.c:1146-1190 | the match state copies what fits and follows the format machine |
| InflateOutput.LitCase | include/zlib/inflate.c:1191-1196 | the same for a literal |
| InflateOutput.CopyCase | include/zlib/inflate.c:903-919 | the same for stored bytes |
| CopyBytes.CopyBackFast | include/zlib/inffast.c:252-264 | copying three bytes at a time is the overlapping copy |
| CopyBytes.CopyFast | include/zlib/inffast.c:199-250 | a match that starts in the window, wraps and runs into the output is the overlapping copy |
| InflateFast.FastDecode | include/zlib/inffast.c:110-115 | with fifteen bits present a symbol is decoded as on the slow path |
| InflateFast.GiveBack | include/zlib/inffast.c:292-296 | the whole bytes given back were not needed for what was decoded |
| FastLoop.StuckSize | include/zlib/inffast.c:292 | when more than eight bits were held on entry, the first code is longer than all of them, so the bytes given back are still only those the loop took |
| FastEntry.HeldOnEntry | include/zlib/inffast.c:292 | a run of inflate after which the next call enters inflate_fast with eight or more bits held |
| FastLoop.FastRound | include/zlib/inffast.c:103-290 | one round is a run of the format machine, takes at most 6 bytes of input and writes at most 258 |
| FastLoop.FastCase | include/zlib/inffast.c:50-307 | inflate_fast keeps the invariant of the slow path, ends in a mode of the slow path with fewer than eight bits, and gives back only input it took |
| Inflate.Turn | include/zlib/inflate.c:655-1245 | every turn of the switch keeps the decoder on the run of the format machine and makes progress unless it leaves with good reason |
| Inflate.Loop | include/zlib/inflate.c:655-1245 | the loop ends, and ends only when done, in error, out of input inside a step, out of space, or where the flush mode asks for it |
| Inflate.Call | include/zlib/inflate.c:622-1275 | a call takes a prefix of its input, appends to the output, stops only when done, in error, out of input inside a step, out of space for output that is due, or at the boundary its flush mode names; Z_STREAM_END and Z_DATA_ERROR mean done and in error, Z_BUF_ERROR that nothing was taken or written or that Z_FINISH did not finish; the window is the end of the output |
| Inflate.GetDictionaryOf | include/zlib/inflate.c:1291-1312 | in every mode the dictionary is the last 32768 bytes of all output, or all of it; it is empty when the stream ended or failed before a window was needed |
| Inflate.BetweenFollows | include/zlib/inflate.c:622-1275 | after any calls the output is that of the format machine on the bytes taken |
| Inflate.JustEnough | include/zlib/inflate.c:506-538 | between calls fewer than eight bits are held unless the next step needs more than there are, and at the end not one byte behind the stream was taken |
| Inflate.CuttingDoesNotMatter | include/zlib/inflate.c:622-1275 | two runs over the same data that came to their end have the same outcome and the same output, however input and output were cut |
| Inflate.OutputsAgree | include/zlib/inflate.c:622-1275 | at any time the output of one run is a prefix of the output of the other |
| Inflate.RunPieces | include/zlib/inflate.c:622-1275 | decoding in any pieces takes a prefix of the data and keeps the decoder on the run of the format machine |
| Inflate.Unpack | include/zlib/inflate.c:622-1275 | continued with calls that offer all the rest and some space, every run comes to its end, done, in error or out of input, whatever the data |
| SyncSearch.NextIsLongest | include/zlib/inflate.c:1377-1398 | each byte leads to the length of the longest start of 00 00 FF FF that the text ends with |
| SyncSearch.Search | include/zlib/inflate.c:1377-1398 | the search stops at the first occurrence in the text of all calls, and finds it exactly if there is one |
| Hash.Forget | include/zlib/deflate.c:163 | after three updates nothing of the older key is left |
| Hash.ThirdByte | include/zlib/deflate.c:1335-1340 | equal keys and equal first two bytes leave no choice for the third byte |
| HashChains.InsertString | include/zlib/deflate.c:182-185 | entering a string keeps the chains sound and complete: from the new head every string in the window with this hash is reached, newest first; the former head is returned |
| HashChains.SlideKeeps | include/zlib/deflate.c:201-225 | sliding keeps the chains, sound and complete: the same absolute positions less those that leave the window |
| HashChains.SlideHash | include/zlib/deflate.c:201-225 | slide_hash performs that sliding in place |
| HashChains.ClearHash | include/zlib/deflate.c:192-194 | with cleared heads no string is reachable |
| LongestMatch.NextCandidate | include/zlib/deflate.c:1372-1373 | a link leads strictly down, and within reach to an entered string with the same hash |
| LongestMatch.WalkReaches | include/zlib/deflate.c:1372-1373 | a walk along a chain meets every string of its hash within reach, as far as the chain limit goes |
| LongestMatch.MatchIsAlike | include/zlib/deflate.c:182-185 | every string that matches in three bytes has the hash of the chain |
| LongestMatch.ThirdAgrees | include/zlib/deflate.c:1330-1342 | for a string on the chain that agrees in two bytes the third agrees too, so skipping it is sound |
| LongestMatch.CompareStrings | include/zlib/deflate.c:1344-1357 | the unrolled comparison finds the first difference, up to 258 bytes |
| LongestMatch.LongestMatch | include/zlib/deflate.c:1236-1377 | a result above prev_length is a real match within MAX_DIST and the lookahead; unless it is nice enough or takes up the lookahead, no string in the table within MAX_DIST, and among as many of the newest of its hash as the chain limit says, matches longer |
| FillWindow.Slide | include/zlib/deflate.c:1507-1518 | sliding the window keeps it equal to the tail of the input and keeps the chains |
| FillWindow.ReadMore | include/zlib/deflate.c:1519-1556 | with at least two bytes of room all input that fits is appended and the waiting strings are entered |
| FillWindow.FillWindow | include/zlib/deflate.c:1482-1599 | fill_window ends with enough lookahead or without input, and with the window full or without input, with strstart at most window_size - MIN_LOOKAHEAD; it slides exactly from WSIZE + MAX_DIST on; window and chains stay sound and complete |
| DeflateText.MatchExpands | include/zlib/deflate.c:1864-1868 | expanding a match that is real reproduces the input |
| DeflateText.BlockLeads | include/zlib/deflate.c:1605-1614 | a closed block leads the decoder from the text before it to the text after it |
| DeflateText.PadLeads | include/zlib/trees.c:1000-1005 | the padding after the last block completes the stream |
| Emit.EmitLiteral | include/zlib/deflate.c:1902-1904 | a literal extends the text by its byte |
| Emit.EmitMatch | include/zlib/deflate.c:1864-1868 | a real match of 3 to 258 bytes at a distance of at most MAX_DIST, and not across a mark, extends the text by its bytes, from the start and from every mark |
| Emit.FlushOnly | include/zlib/deflate.c:1605-1614 | closing a block keeps the text and the marks, delivers what there is space for, and adds one block to those sent, chosen for the buffered tokens, the text of the block unless it left the window, and the strategy of the compressor |
| BlockLog.LogEntry | include/zlib/trees.c:911-1008 | every block of a stream is a marker or was chosen as its sizes demand, with codes made for its tokens, and only the last can be final |
| BlockLog.LogExpands | include/zlib/deflate.c:1605-1614 | the tokens of all blocks of a stream expand to its text |
| Restart.FromMatch | include/zlib/deflate.c:1864-1868 | a match that starts behind no mark keeps what every mark stands for |
| Restart.FromBlock | include/zlib/trees.c:911-1008 | a closed block keeps it too: its bits are the same when counted from a mark |
| Restart.NewMark | include/zlib/deflate.c:1029-1036 | a byte boundary at which all blocks are closed can be marked |
| DeflateFast.FastStep | include/zlib/deflate.c:1845-1907 | one token is added and is the one greedy matching calls for: a match unless no string near enough agrees in three bytes, then one that no string near enough exceeds unless it is nice enough or takes up the lookahead; the strings entered after it are exactly the current one, and those inside a match that is not too long; text, window and chains are kept |
| Moves.ChainNext | include/zlib/deflate.c:1824-1918 | steps are chained: each starts where the one before ended, with more input read at most |
| DeflateFast.FastRound | include/zlib/deflate.c:1845-1907 | the block is closed exactly when the token filled the buffer |
| DeflateFast.DeflateFast | include/zlib/deflate.c:1824-1918 | bits sent and buffered tokens always stand for the input up to the current position; at Z_FINISH the bits are a whole stream for all input; the tokens written are those of a chain of greedy steps |
| DeflateSlow.SlowStep | include/zlib/deflate.c:1948-2033 | a step of lazy evaluation: the waiting match is output unless the match found now is longer, else the waiting byte becomes a literal and the match found now waits; there is a search unless the waiting match is long enough, and a short match counts as none when filtered or too far; the strings passed are entered |
| DeflateSlow.DeflateSlow | include/zlib/deflate.c:1926-2049 | the same invariant for lazy matching, with one byte waiting; the tokens written are those of a chain of lazy steps and, at the end of the input, the literal that waited |
| DeflateRuns.RunLength | include/zlib/deflate.c:2078-2096 | zero exactly when the previous byte repeats fewer than three times; otherwise the run found has 258 bytes or ends at a different byte |
| DeflateRuns.RunMatches | include/zlib/deflate.c:2099-2102 | a run is a match at distance one |
| DeflateRuns.RleStep | include/zlib/deflate.c:2078-2115 | one token is added: the longest run within 258 bytes and the lookahead, if it has three bytes, else a literal |
| DeflateRuns.DeflateRle | include/zlib/deflate.c:2057-2124 | the same invariant for run-length matching; the tokens written are those of a chain of such steps |
| DeflateRuns.DeflateHuff | include/zlib/deflate.c:2130-2163 | the same invariant for literals only; the tokens written are the literals of the input |
| Deflate.FinishFlush | include/zlib/deflate.c:1021-1043 | the marker of a flush, an empty block of the kind of its flush value, changes nothing about the text; a full flush forgets the history, sets a mark at the byte boundary reached, and only a full flush does; what was sent after each mark decodes to the input after it |
| Deflate.Work | include/zlib/deflate.c:994-1044 | compression and marker of a call that has something to do, with the reasons for which it may not complete |
| Deflate.Complete | include/zlib/deflate.c:1021-1043 | the marker and its delivery: with space left the promise of the flush value holds, from the start and from every mark |
| Deflate.Deflater.constructor | include/zlib/deflate.c:240-348 | a new compressor stands for the empty text, has sent no block and has no mark, and keeps method, configuration, strategy and buffer size |
| Deflate.RankOrder | include/zlib/deflate.c:155 | the rank orders the flush values with Z_BLOCK between Z_NO_FLUSH and Z_PARTIAL_FLUSH, and -1 below all |
| Deflate.Start | include/zlib/deflate.c:772-815 | which guard makes a call an error, and that earlier output is delivered first |
| Deflate.StreamBlocks | include/zlib/deflate.c:1605-1614 | at any time the bits sent are those of the blocks in the list, each well chosen for the strategy given at the start, or a marker |
| Deflate.Call | include/zlib/deflate.c:763-1073 | a call takes a prefix of its input and delivers a continuation of the stream; Z_STREAM_ERROR and Z_BUF_ERROR come exactly under their guards, take no input and keep state and stream; Z_STREAM_ERROR and Z_BUF_ERROR without output space keep last_flush and the waiting bytes too, the later Z_BUF_ERRORs set last_flush and leave nothing waiting; otherwise it stops only with its input used up or its output full, Z_STREAM_END comes exactly for Z_FINISH with space left and means the whole stream was delivered, Z_OK for Z_FINISH means progress; after a flush with space left all input so far decodes from the bytes delivered, after Z_BLOCK from the bits sent, of which at most seven are held back; after Z_FULL_FLUSH the point reached is a mark, marks are never lost, and after every flush what follows a mark decodes to the input after it; with space left fewer than MIN_LOOKAHEAD bytes wait to be coded; the tokens written are those of a chain of steps of the method |
| EndToEnd.Finished | include/zlib/deflate.c:1046-1047 | the bytes delivered at Z_STREAM_END are a whole stream for all input |
| EndToEnd.StreamRoundTrip | include/zlib/inflate.c:622-1275 | a run of inflate over a whole stream, with anything behind it, ends done with exactly the text |
| EndToEnd.TailUntouched | include/zlib/inflate.c:1253-1275 | when inflate is done it has taken the stream and not a byte behind it |
| EndToEnd.FlushedIsDecoded | include/zlib/deflate.c:1021-1043 | after a flush the decoder gets all input so far |
| EndToEnd.PartialIsDecoded | include/zlib/deflate.c:1022-1023 | after Z_PARTIAL_FLUSH too the decoder gets all input so far and nothing else, though up to seven bits are still held back |
| EndToEnd.RestartAfterFlush | include/zlib/deflate.c:1029-1036 | after a flush to a byte boundary a new decoder that starts at any mark gives exactly the input after it |
| EndToEnd.RestartAtEnd | include/zlib/deflate.c:1029-1036 | at the end of the stream too, whatever follows the stream |
| EndToEnd.PackPieces | include/zlib/deflate.c:763-1073 | any sequence of calls keeps the compressor on a prefix of the data, and it is finished only with all of it |
| EndToEnd.Pack | include/zlib/deflate.c:763-1073 | continued with Z_FINISH and some space, every run comes to Z_STREAM_END and has delivered a whole stream for all of the data |
| EndToEnd.RoundTrip | include/zlib/deflate.c:763-1073 | packing in any pieces with any method and unpacking in any other pieces, with anything behind the stream, gives the input back, for every input |
| Adler32.DeferredMod | include/zlib/adler32.c:102-127 | reducing once at the end gives what reducing after every byte gives |
| Adler32.NoOverflow | include/zlib/adler32.c:12-14 | no sum over a block of at most NMAX bytes exceeds 32 bits |
| Adler32.WorstIs | include/zlib/adler32.c:12-14 | the bound in the comment is attained by bytes 255 from the largest reduced sums |
| Adler32.NmaxIsLargest | include/zlib/adler32.c:12-14 | NMAX is the largest block length for which that bound fits 32 bits |
| Adler32.Mod28 | include/zlib/adler32.c:33-37 | the division-free remainder below 2^28 |
| Adler32.Mod | include/zlib/adler32.c:38-42 | the same below 2^32 |
| Adler32.Mod63 | include/zlib/adler32.c:43-55 | the same below 2^63 |
| Adler32.OneByte | include/zlib/adler32.c:76-84 | the shortcut for one byte is right exactly when the caller's second sum plus the new first sum is below twice BASE |
| Adler32.ShortcutFails | include/zlib/adler32.c:76-84 | an input on which the shortcut leaves the second sum unreduced, with the result it gives and the right one |
| Adler32.ReducedSums | include/zlib/adler32.c:76-84 | from a reduced second sum that never happens |
| Adler32.Adler32Z | include/zlib/adler32.c:63-131 | adler32_z is the per-byte definition of section 2.2 of RFC 1950 for every buffer, except exactly in that case; no 32-bit sum overflows |
| Adler32.Combine | include/zlib/adler32.c:143-169 | from the checksums of two texts the checksum of the one followed by the other; a negative length gives 0xffffffff |
| Adler32.CombineLaw | include/zlib/adler32.c:143-169 | continuing from the checksum of a text is the checksum of the whole text |
| AdlerValues.BaseIsLargestPrime | include/zlib/adler32.c:12 | BASE is prime, and no number between it and 65536 is |
| AdlerValues.SumsOfText | include/zlib/adler32.c:63-131 | the checksum of the nine letters of Wikipedia is 0x11e60398 |
| Crc32.PolyValue | include/zlib/crc32.c:103-106 | the pattern made from the polynomial's terms is 0xedb88320 |
| CrcValues.NotValue | include/zlib/crc32.c:225-234 | complementing a word is subtracting its value from 0xffffffff |
| CrcValues.ZeroByte | include/zlib/crc32.c:202-234 | the checksum of one zero byte is 0xd202ef8d |
| CrcValues.Residue | include/zlib/crc32.c:202-234 | a text followed by the four bytes of its own checksum, least first, has the checksum 0x2144df1c, whatever the text |
| Crc32.RegisterAtOnce | include/zlib/crc32.c:75-83 | up to 32 bits can enter the register at once and be shifted out together |
| Crc32.MakeCrcTable | include/zlib/crc32.c:88-127 | table k holds the register after a byte and k zero bytes, tables 4 to 7 the same byte-swapped |
| Crc32.OneByteStep | include/zlib/crc32.c:198 | one look-up is eight steps of the shift register |
| Crc32.FourByteStep | include/zlib/crc32.c:260-262 | four look-ups are thirty-two steps of the shift register |
| Crc32.Crc32Bytes | include/zlib/crc32.c:225-234 | the byte-wise form is the bit-by-bit register |
| Crc32.Crc32Little | include/zlib/crc32.c:266-297 | the little-endian form is the bit-by-bit register for every buffer and alignment |
| Crc32.Crc32Big | include/zlib/crc32.c:300-337 | the big-endian form, on a byte-swapped register, is the bit-by-bit register for every buffer and alignment |
| Crc32.Crc32Z | include/zlib/crc32.c:202-234 | all three forms give the same checksum; without a buffer the result is 0 |
| CrcCombine.MatrixTimes | include/zlib/crc32.c:344-358 | applying the matrix is advancing the register over its number of zero bits |
| CrcCombine.MatrixSquare | include/zlib/crc32.c:361-369 | squaring gives the operator for twice as many zero bits |
| CrcCombine.CombineLaw | include/zlib/crc32.c:372-425 | the checksum of one text after another is the first advanced over the zero bits of the second, plus the second |
| CrcCombine.Combine | include/zlib/crc32.c:372-425 | crc32_combine_ computes that; a length that is not positive leaves the first checksum |
| CrcCombine.CrcAppend | include/zlib/crc32.c:202-234 | a checksum continued over more text is the checksum of the whole |

## Left out

- Wrappers: the zlib and gzip headers and trailers, preset dictionaries and `gz_header` are not modelled; streams are raw.
- Level 0 (`deflate_stored`), `deflateParams`, `deflateTune`, `deflateSetDictionary`, `deflatePrime`, `deflateCopy` and `inflatePrime`, `inflateCopy`, `inflateSetDictionary`: one level and strategy for a whole stream.
- Windows of the decoder other than 15 bits: with smaller ones the outcome can depend on how calls are cut.
- `inflateSync` beyond its search, `inflateMark`, `inflateUndermine`, `infback.c`, and the `gz*` file functions.
- Storage layout: `d_buf` and `l_buf` overlaid on `pending_buf`, `high_water` zeroing of the window, allocation, and the choice of buffer sizes; token buffer and pending output are separate sequences, and the part of the window behind the input has arbitrary content.
- The reads of two bytes at a time under `UNALIGNED_OK` and the assembler versions.
- `detect_data_type`, `total_in`, `total_out` and `msg`.
- Compression ratio: the tokens are those of greedy or lazy matching, but nothing is claimed about their number, and no size bound such as `deflateBound` is proved. The configuration table of the levels is a parameter.
- The rest of the repository: the AWS server itself and the other bundled code would add only thin wrappers around calls that are not part of this model.
