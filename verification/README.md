# Verified models of the codecs and helpers in the driver

The driver vendors zlib 1.3.2 for its compressed wire messages and utf8proc 2.11.3 for Unicode
text, and has a Base64 codec and emulated atomics of its own.  This project models them in
Dafny, in the form the C code has, and proves what their parts promise each other.

* **Canonical Huffman codes.**  `InflateTable` builds the decoder's two-level tables and
  `BuildTree` the encoder's codes; both are measured against `CanonicalCode`, the assignment of
  section 3.2.2 of RFC 1951.
* **The decoder.**  `InflateSpec` is a machine on bit sequences that says what a deflate stream
  means.  `RawInflate` and `InflateFast` are the resumable decoder with its accumulator, tables
  and circular window, `InflateStream` the calls, `SmallWindow` what a window of less than 32K
  changes, `SyncSearch` the search for a flush mark.  `KnownStreams` pins the meaning down by the
  tables of RFC 1951 and by whole streams, byte for byte.
* **The encoder.**  `DeflateWindow` is the sliding window with its hash chains,
  `DeflateStrategies` and `StoredStrategy` the five compression functions, `BlockOutput` the
  choice and the sending of blocks, `FlushPoint` what a flush gives the decoder, `DeflateStream`
  the calls and the round trip, for all levels.
* **Checksums.**  `Gf2` is the field in which CRCs live, `CrcBraid` the braided CRC and the
  combination of CRCs, `Adler32` the other checksum.
* **Text.**  `Utf8` reads and writes UTF-8, `CanonicalOrder` decomposes and orders combining
  marks, `GraphemeBreak` finds the boundaries of grapheme clusters, `Base64` encodes and decodes.
* **Threads.**  `EmulatedAtomics` is the spin lock with the operations under it, `OnceInit` the
  initialization that is done once, for any number of threads and any interleaving.

`dafny verify dfyconfig.toml` checks everything.

## Model

| member | source | states |
|---|---|---|
| `InflateTable.BackwardIncrement` | src/zlib-1.3.2/inftrees.c:246-255 | adding one to a code word that is kept bit-reversed; zero after the last word |
| `InflateTable.CountLengths` | src/zlib-1.3.2/inftrees.c:115-118 | the number of symbols of each length |
| `InflateTable.FreeCodes` | src/zlib-1.3.2/inftrees.c:139-147 | negative exactly for over-subscribed lengths, otherwise the words left over |
| `InflateTable.SortSymbols` | src/zlib-1.3.2/inftrees.c:149-156 | the used symbols sorted by length, and by symbol within each length |
| `InflateTable.SubtableBits` | src/zlib-1.3.2/inftrees.c:271-279 | the index bits of a sub-table: no word that starts in its block of the number line is longer |
| `InflateTable.Replicate` | src/zlib-1.3.2/inftrees.c:232-244 | an entry goes to exactly the indices whose low bits spell the word |
| `InflateTable.InflateTable` | src/zlib-1.3.2/inftrees.c:46-310 | -1 exactly for over-subscribed lengths, or incomplete ones other than a single one-bit literal/length or distance code; 1 exactly when the entries exceed the room; otherwise every bit string, looked up through the root table and at most one link, gives the unique symbol whose reversed canonical word it starts with, and the invalid marker exactly where there is none; nothing outside the room is written |
| `TableSpace.RoomIsEnough` | src/zlib-1.3.2/inftrees.h:38-51 | 852 and 592 entries are enough for every set of lengths that is accepted, with 286 symbols and a 9-bit root or 30 symbols and a 6-bit root, so that 1 is never returned |
| `TableSpace.EntriesBounded` | src/zlib-1.3.2/inftrees.c:261-301 | all sub-tables together have at most `2^m - m - 1` entries more than they have words, `m` being the greatest depth, and reach that only for one parity of the number of words |
| `CanonicalCode.MatchUnique` | src/zlib-1.3.2/trees.c:203-232 | no canonical code word is a prefix of another |
| `CanonicalCode.CompleteCovers` | src/zlib-1.3.2/inftrees.c:139-147 | a complete code has a word at the front of every bit string |
| `InflateFixed.BuildTables` | src/zlib-1.3.2/inftrees.c:327-349 | the fixed tables decode the fixed codes of the format |
| `Heap.PqDownHeap` | src/zlib-1.3.2/trees.c:509-528 | the heap property is restored below and at the node, and the queue has the same members |
| `BitLengths.RepairCounts` | src/zlib-1.3.2/trees.c:581-592 | each repair step lowers the Kraft sum by one unit of `2^-max_length`, keeps the number of leaves and always finds a leaf to split; at the end the lengths are complete |
| `BuildTree.TreeState.ForceTwo` | src/zlib-1.3.2/trees.c:655-661 | exactly which symbols are forced, and the totals lowered by what they will cost |
| `BuildTree.TwoForced` | src/zlib-1.3.2/trees.c:660-660 | a forced symbol is 0 or 1 exactly if 1 is not the only symbol that occurs, and then it is 2 |
| `BuildTree.OnlyOneOccurs` | src/zlib-1.3.2/trees.c:655-662 | such an input, for every kind of tree: the largest code becomes 2 |
| `BitLengths.RarerDeeper` | src/zlib-1.3.2/trees.c:670-694 | a less frequent node of the Huffman tree does not lie higher, however ties are broken |
| `BuildTree.TreeState.GenBitlen` | src/zlib-1.3.2/trees.c:540-613 | lengths within the limit, complete, longer for less frequent leaves, equal to the depths when nothing overflows, with the totals of the block raised by what they cost |
| `BuildTree.TreeState.BuildTree` | src/zlib-1.3.2/trees.c:627-706 | for every frequency vector: a Huffman tree for the symbols that occur (at least two, forced ones added), complete lengths within the limit, the canonical words of these lengths, and `opt_len` and `static_len` raised by exactly the bits the symbols take |
| `BuildTree.BuiltIsOptimal` | src/zlib-1.3.2/trees.c:674-698 | when nothing is deeper than the limit, no prefix code for the symbols takes fewer bits in total |
| `GenCodes.BiReverse` | src/zlib-1.3.2/trees.c:154-161 | the low bits of the code in reverse order |
| `GenCodes.GenCodes` | src/zlib-1.3.2/trees.c:203-232 | every symbol gets its canonical code word, bit-reversed |
| `BitOutput.BitWriter.SendBits` | src/zlib-1.3.2/trees.c:253-277 | the bits are appended, across the 16-bit buffer |
| `BitOutput.BitWriter.BiFlush` | src/zlib-1.3.2/trees.c:166-176 | at most seven bits stay in the buffer and no bit is lost |
| `BitOutput.BitWriter.BiWindup` | src/zlib-1.3.2/trees.c:181-190 | zero bits up to a whole byte |
| `BitOutput.BitWriter.FlushPending` | src/zlib-1.3.2/deflate.c:950-968 | as many bytes as there is room for are handed out; if room is left, all of them |
| `CodeLengths.SymbolsExpand` | src/zlib-1.3.2/trees.c:753-794 | the run-length symbols of a sequence of lengths stand for exactly these lengths, and every repeat count fits its field |
| `CodeLengths.BothExpand` | src/zlib-1.3.2/inflate.c:824-872 | the symbols for the literal/length and then the distance lengths, read as one sequence, give both |
| `CodeLengths.ScanTree` | src/zlib-1.3.2/trees.c:712-746 | counts exactly the symbols that `send_tree` sends |
| `TreeOutput.SendTree` | src/zlib-1.3.2/trees.c:753-794 | sends the words of exactly these symbols, with their repeat counts |
| `BlockHeader.SendAllTrees` | src/zlib-1.3.2/trees.c:833-855 | sends the header of a block |
| `BlockHeader.HeaderRead` | src/zlib-1.3.2/inflate.c:782-912 | the decoder reads from the header of a block exactly the lengths the encoder had |
| `BlockData.LengthAgrees` | src/zlib-1.3.2/trees.c:318-337 | the encoder's length codes, bases and extra bits agree with the decoder's tables |
| `BlockData.DistAgrees` | src/zlib-1.3.2/trees.c:340-355 | the same for distances |
| `BlockData.DataRead` | src/zlib-1.3.2/inflate.c:914-1071 | the words of a block's symbols, and the end of the block, make the decoder produce what the symbols stand for |
| `BlockTally.DataSize` | src/zlib-1.3.2/trees.c:900-951 | the size of the data of a block is the sum that `build_tree` adds up from the frequencies |
| `BlockTrees.HeaderSize` | src/zlib-1.3.2/trees.c:800-825 | the size of the header is what `build_bl_tree` adds to `opt_len` |
| `BlockMeaning.StaticMeans` | src/zlib-1.3.2/inflate.c:726-735 | a block with the fixed codes makes the decoder produce what the symbols stand for, wherever it begins in a byte |
| `BlockMeaning.DynamicMeans` | src/zlib-1.3.2/inflate.c:736-740 | the same for a block with codes of its own |
| `BlockMeaning.StoredMeans` | src/zlib-1.3.2/inflate.c:747-780 | the same for a stored block, with its alignment |
| `StaticTrees.StaticLengthTree` | src/zlib-1.3.2/trees.c:359-372 | the static literal/length tree has the words of the fixed code |
| `BlockOutput.BlockWriter.Tally` | src/zlib-1.3.2/trees.c:1095-1119 | the symbol is stored in three bytes and counted in both frequency tables |
| `BlockOutput.BlockWriter.CompressBlock` | src/zlib-1.3.2/trees.c:900-951 | the words, extra bits and end of block of the symbols in the buffer are sent |
| `BlockOutput.BlockWriter.BuildBlTree` | src/zlib-1.3.2/trees.c:800-825 | a code for the run-length symbols, the guards in place, `opt_len` raised by exactly the size of the header |
| `BlockOutput.BlockWriter.StoredBlock` | src/zlib-1.3.2/trees.c:860-875 | type, padding, length, complement and bytes are sent |
| `BlockOutput.BlockWriter.Align` | src/zlib-1.3.2/trees.c:888-895 | an empty block with the fixed codes is sent |
| `BlockOutput.BlockWriter.FlushBlock` | src/zlib-1.3.2/trees.c:997-1089 | `opt_len` and `static_len` are exactly the sizes of the two encodings, the smallest of the three in bytes is sent, and whichever it is the decoder makes of it what the symbols stand for; it fits into `pending_buf` |
| `BitInput.BitReader.NeedBits` | src/zlib-1.3.2/inflate.c:368-373 | succeeds exactly when the bits are there, takes no byte too many, and on failure has taken all input |
| `BitInput.BitReader.Decode` | src/zlib-1.3.2/inflate.c:921-938 | the entry of the code word at the front of the stream, pulling just enough bytes to know it |
| `Window.SlidingWindow.Update` | src/zlib-1.3.2/inflate.c:252-296 | after any calls the circular window holds the last bytes of all output, as many as fit |
| `RawInflate.Inflater.DoCodeLens` | src/zlib-1.3.2/inflate.c:824-912 | follows the decoder of the format through the code lengths of a block, or waits with all input used |
| `RawInflate.Inflater.DoMatch` | src/zlib-1.3.2/inflate.c:1020-1065 | every piece of a match, from the window (wrapped or not) or from the output (overlapping or not), is the bytes at the distance in the whole history |
| `InflateFast.InflateFast` | src/zlib-1.3.2/inffast.c:50-305 | from mode LEN with six bytes of input and room for 258: the same machine steps as the slow path, at least one, ending at the exact bit position with the bytes taken ahead given back, never past input or room |
| `FastEntry.EntryBits` | src/zlib-1.3.2/inffast.c:20-35 | the accumulator is below eight bits in all states waiting in mode LEN if and only if the block has no literal/length word of more than eight bits |
| `FastEntry.LateEntry` | src/zlib-1.3.2/inflate.c:914-920 | two calls after which `inflate_fast` is entered with eight bits in the accumulator |
| `InflateStream.Inflate` | src/zlib-1.3.2/inflate.c:474-1153 | one call: machine steps on the input given and to come, until the output is full, the stream ends or fails, or all input is used and no step can be made; the code is the end of the stream exactly if it ended, a data error exactly if it failed, and otherwise a buffer error exactly if the call was to finish or did nothing |
| `InflateStream.InflateAll` | src/zlib-1.3.2/inflate.c:474-1153 | any split of input and output space: the output is the beginning of what the stream means, all of it once a call had room to spare, and the same final DONE or BAD, which the last return code tells; without condition for the 15-bit window |
| `InflateSpec.NeverFar` | src/zlib-1.3.2/inflate.c:1008-1014 | with the 32K window no match reaches beyond the window and yet into the output |
| `InflateSpec.UnboundedFollows` | src/zlib-1.3.2/inflate.c:1024-1031 | with a smaller window the calls agree with the one-call run as long as no match reaches beyond it |
| `SmallWindow.FarIs` | src/zlib-1.3.2/inflate.c:1020-1031 | a stream is one with a far match exactly if there is a point on its way where it copies from beyond the window |
| `SmallWindow.InOneCall` | src/zlib-1.3.2/inflate.c:1020-1031 | in one call every stream gives all the output that there is room for, whatever the window |
| `SmallWindow.InTwoCalls` | src/zlib-1.3.2/inflate.c:1020-1031 | every stream with a far match is refused in two calls, the first with room for just what comes before the match, although there is more to it |
| `SmallWindow.Depends` | src/zlib-1.3.2/inflate.c:1020-1031 | such a stream: 257 bytes and a match from 257 back, with the smallest window, in one call and in two |
| `HashKey.Hashing.PrimedKey` | src/zlib-1.3.2/deflate.c:141-141 | the running hash depends on the last three bytes only |
| `HashKey.Hashing.ThirdByte` | src/zlib-1.3.2/deflate.c:1482-1487 | same key and same first two bytes: same third byte |
| `HashChains.LinkedInsert` | src/zlib-1.3.2/deflate.c:160-163 | inserting a string keeps all chains linked |
| `HashChains.LinkedSlide` | src/zlib-1.3.2/deflate.c:187-210 | sliding the hash table keeps all chains linked |
| `HashChains.ChainDescends` | src/zlib-1.3.2/deflate.c:1525-1526 | from the head of a chain, above the distance limit: strictly earlier positions, all inserted, all with the same key, up to the limit |
| `MatchSearch.SearchLongest` | src/zlib-1.3.2/deflate.c:1389-1530 | no candidate the search may look at is longer than what it finds, unless it stopped at a nice match |
| `DeflateWindow.Dictionary.SlideHash` | src/zlib-1.3.2/deflate.c:187-210 | every entry is lowered by the window size or becomes nil |
| `DeflateWindow.Dictionary.InsertString` | src/zlib-1.3.2/deflate.c:160-163 | the string becomes the head of its chain, the hash is ready for the next byte, and the old head of just that chain is returned |
| `DeflateWindow.Dictionary.FillWindow` | src/zlib-1.3.2/deflate.c:252-376 | the window holds the latest input across slides, no input is lost, the chains stay linked, positions in the input stay the same, and enough lookahead is there or all input is read |
| `DeflateWindow.Dictionary.LongestMatch` | src/zlib-1.3.2/deflate.c:1389-1530 | the same as a plain search that compares every candidate from its first byte, in spite of the quick rejections and the uncompared third byte; what is found is a match within the lookahead and the distance limit |
| `DeflateWindow.Dictionary.RunLength` | src/zlib-1.3.2/deflate.c:2099-2120 | the length of the run of the byte before, up to 258 and the lookahead, or nothing below three |
| `DeflateStrategies.Compressor.FlushBlockOnly` | src/zlib-1.3.2/deflate.c:1630-1639 | the block is sent, and what was sent stands for all the input up to here |
| `DeflateStrategies.Compressor.FastStep` | src/zlib-1.3.2/deflate.c:1880-1936 | one round of `deflate_fast`: the symbol told is the match that the search from the head of the chain gives, or the byte if it gives none of three bytes |
| `DeflateStrategies.Compressor.DeflateFast` | src/zlib-1.3.2/deflate.c:1857-1948 | for every input and schedule: the symbols stand for the input consumed, the blocks sent for the input before them |
| `DeflateStrategies.Compressor.SlowRound` | src/zlib-1.3.2/deflate.c:1977-2060 | one round of lazy matching: the match that waits is told exactly if the one at the next position, looked for only after a match that is not long enough and dropped if too short or too far, is not longer; otherwise the byte that waits is told and the new match waits |
| `DeflateStrategies.Compressor.DeflateSlow` | src/zlib-1.3.2/deflate.c:1956-2076 | the same as for `deflate_fast`, up to the byte that may be waiting; a waiting match is a true one |
| `DeflateStrategies.Compressor.DeflateRle` | src/zlib-1.3.2/deflate.c:2084-2149 | the same as for `deflate_fast` |
| `DeflateStrategies.Compressor.DeflateHuff` | src/zlib-1.3.2/deflate.c:2155-2185 | the same as for `deflate_fast` |
| `FlushPoint.WholeBytesDecode` | src/zlib-1.3.2/zlib.h:290-298 | from whole bytes that mean the input the decoder produces all of it, with nothing more to come |
| `FlushPoint.AlignedDecode` | src/zlib-1.3.2/zlib.h:300-306 | with up to seven bits of the last empty block held back the decoder still produces all the input |
| `DeflateStream.Mark` | src/zlib-1.3.2/deflate.c:1238-1254 | the empty block of a flush stands for nothing: a partial flush ends with the fixed-code one, a sync or full flush with the four bytes of the stored one on a byte boundary; a full flush forgets the history |
| `DeflateStream.Deflate` | src/zlib-1.3.2/deflate.c:981-1261 | one call: no input is lost, the end of the stream is reported only when everything is out, a buffer error or a stream error exactly when the call can do nothing or comes too late; a call with room left over took all the input, and after a partial, sync or full flush the decoder given the output produces all the input so far; a sync or full flush ends with the mark, a full flush with no history; with eight bytes of room for each byte to come room is left over, and `Z_FINISH` ends the stream |
| `DeflateStream.DeflateAll` | src/zlib-1.3.2/deflate.c:981-1261 | any level, window, memory level and strategy, any calls: at the end of the stream the decoder makes of the output exactly the input, with no more than the window of the encoder; after a flush that has room left over it makes of the output so far all the input so far; a last call to finish or to flush new input, with room enough, brings that about |
| `DeflateStream.Restart` | src/zlib-1.3.2/zlib.h:317-320 | after a full flush with room left over the compressor is in order as one that was given nothing yet |
| `DeflateStream.DeflateApart` | src/zlib-1.3.2/zlib.h:317-320 | decompression can restart behind a full flush: the output after it stands alone for the input after it, and the output before for the input before |
| `DeflateStream.RoundTrip` | src/zlib-1.3.2/deflate.c:981-1261 | what `deflate` wrote in any number of calls, `inflate` reads back in any number of calls: no error, nothing but the input, and all of it with the end of the stream reported just then, with a window of the same size or larger |
| `KnownStreams.OrderIs` | src/zlib-1.3.2/inflate.c:491-492 | the order in which the lengths of the code length code come is that of section 3.2.7 of RFC 1951 |
| `KnownStreams.LengthsAre` | src/zlib-1.3.2/inftrees.c:69-74 | the base and the extra bits of every length symbol are those of section 3.2.5 of RFC 1951 |
| `KnownStreams.DistancesAre` | src/zlib-1.3.2/inftrees.c:75-82 | the base and the extra bits of every distance symbol are those of section 3.2.5 of RFC 1951 |
| `KnownStreams.StoredStream` | src/zlib-1.3.2/inflate.c:747-781 | the bytes of a stored block, and what they mean |
| `KnownStreams.FixedStream` | src/zlib-1.3.2/inflate.c:726-734 | the bytes of a block with fixed codes, and what they mean |
| `KnownStreams.DynamicStream` | src/zlib-1.3.2/inflate.c:782-1071 | the bytes of a block with its own codes, with all three repeat codes and with extra bits of a length and a distance, and what they mean |
| `PendingRoom.FixedClear` | src/zlib-1.3.2/trees.c:941-946 | with the fixed codes, `pending < lit_bufsize + sx` after every symbol: what is written never reaches a symbol that is yet to be read from the same memory |
| `PendingRoom.FixedTokenSize` | src/zlib-1.3.2/deflate.c:474-480 | with the fixed codes a symbol takes 31 bits at most |
| `BlockOutput.BlockWriter.SendStatic` | src/zlib-1.3.2/trees.c:1058-1061 | the fixed block and, from an empty pending buffer, the bound after every symbol |
| `StoredStrategy.DeflateStored` | src/zlib-1.3.2/deflate.c:1668-1848 | level 0: all the input is in the output, the window or the input, in order, for any buffer sizes; it asks for more only without room or without input; the last block completes the stream |
| `StoredStrategy.CopyBlock` | src/zlib-1.3.2/deflate.c:1709-1750 | a block straight from window and input to the output is a stored block of the next bytes |
| `StoredStrategy.KeepHistory` | src/zlib-1.3.2/deflate.c:1753-1786 | the window again ends with the latest input, by replacing it, sliding it or adding to it |
| `StoredStrategy.SendWaiting` | src/zlib-1.3.2/deflate.c:1823-1847 | what waits is sent through the pending buffer, within its size, and then the output is full unless nothing was forced |
| `SyncSearch.NextMatches` | src/zlib-1.3.2/inflate.c:1251-1256 | each step gives the longest part of the mark that the input ends with |
| `SyncSearch.SyncSearch` | src/zlib-1.3.2/inflate.c:1244-1262 | stops behind the first mark in all the input so far, or reads all of the piece and there is none |
| `SyncSearch.SearchAll` | src/zlib-1.3.2/inflate.c:1231-1262 | the same for any pieces |
| `Gf2.MulPower` | src/zlib-1.3.2/crc32.c:163-179 | multiplying by `x^n` modulo the polynomial is multiplying by `x` `n` times |
| `Gf2.MulCommutes` | src/zlib-1.3.2/crc32.c:163-179 | multiplication modulo the polynomial is commutative |
| `CrcTables.MultModP` | src/zlib-1.3.2/crc32.c:163-179 | the product modulo the polynomial, in spite of the early exit |
| `Gf2Power.Period` | src/zlib-1.3.2/crc32.c:190-190 | `x^(2^(k+32))` is `x^(2^k)`, from `x^(2^32) == x`, on which the index `k & 31` rests |
| `CrcTables.MakePowers` | src/zlib-1.3.2/crc32.c:258-262 | the table of `x^(2^n)` |
| `CrcTables.X2nModP` | src/zlib-1.3.2/crc32.c:185-195 | `x^(n * 2^k)` for every `n` and `k` |
| `CrcTables.MakeTable` | src/zlib-1.3.2/crc32.c:243-252 | the table of the CRCs of all bytes |
| `CrcTables.MakeBraid` | src/zlib-1.3.2/crc32.c:461-473 | for a byte at each place of a word: its CRC followed by the rest of `n` words of zeros |
| `Crc32.RegisterIsBitwise` | src/zlib-1.3.2/crc32.c:220-241 | the register a byte at a time is the shift register fed bit by bit |
| `Crc32.TableStepIs` | src/zlib-1.3.2/crc32.c:933-936 | a table lookup is eight shifts of the register |
| `CrcWords.CrcWord` | src/zlib-1.3.2/crc32.c:608-613 | the CRC of the eight bytes of a word, by eight lookups on the word |
| `CrcBraid.BraidWord` | src/zlib-1.3.2/crc32.c:716-735 | a word through the braid table: its CRC brought to the next block |
| `CrcBraid.HoldsNext` | src/zlib-1.3.2/crc32.c:696-760 | the braids go on holding the register, block after block |
| `CrcBraid.BraidedBlocks` | src/zlib-1.3.2/crc32.c:650-788 | any number of blocks on any number of braids give the register after all their bytes |
| `CrcBraid.Crc32Z` | src/zlib-1.3.2/crc32.c:627-940 | for every buffer, length, alignment and starting value: the conditioned register after all the bytes |
| `CrcBraid.CheckValue` | src/zlib-1.3.2/crc32.c:627-940 | the CRC of the digits one to nine is 0xcbf43926 |
| `CrcBraid.Combine` | src/zlib-1.3.2/crc32.c:954-978 | the CRCs of two buffers and the length of the second give the CRC of both together; 0 for a negative length |
| `Adler32.NoOverflow` | src/zlib-1.3.2/adler32.c:95-119 | from any two 16-bit sums, no partial sum of up to 5552 bytes exceeds 32 bits |
| `Adler32.NmaxIsLargest` | src/zlib-1.3.2/adler32.c:11-12 | 5552 is the largest number of bytes for which that is so |
| `Adler32.ModIs` | src/zlib-1.3.2/adler32.c:36-40 | `MOD` by shifts is the remainder for every 32-bit value |
| `Adler32.Mod28Is` | src/zlib-1.3.2/adler32.c:31-35 | `MOD28` by shifts is the remainder for every 28-bit value |
| `Adler32.Mod63Is` | src/zlib-1.3.2/adler32.c:41-52 | `MOD63` by shifts is the remainder for every 63-bit value |
| `Adler32.AdlerZ` | src/zlib-1.3.2/adler32.c:61-125 | for valid checksums exactly the definition that reduces after every byte; for any starting value the right sums, reduced if and only if not a single byte is added to a second sum beyond the base |
| `Adler32.KnownChecksum` | src/zlib-1.3.2/adler32.c:61-125 | the checksum of abc is 0x24d0127, its second sum in the upper half |
| `Adler32.NotSettled` | src/zlib-1.3.2/adler32.c:70-78 | an input for which the sum is not reduced: a zero byte added to the sums 65520 and 65535 |
| `Adler32.Combine` | src/zlib-1.3.2/adler32.c:133-155 | the checksums of two buffers and the length of the second give the checksum of both together; for a negative length a value that is no checksum |
| `CanonicalOrder.Reorder` | src/utf8proc-2.11.3/utf8proc.c:592-617 | terminates, and leaves the stable sort by combining class of each run between starters, and nothing else changed |
| `CanonicalOrder.SwapKeeps` | src/utf8proc-2.11.3/utf8proc.c:608-612 | exchanging neighbours that are out of order does not change the canonical order |
| `CanonicalOrder.FewerInversions` | src/utf8proc-2.11.3/utf8proc.c:608-612 | every exchange lowers the number of inversions by one |
| `CanonicalOrder.SortedIsStable` | src/utf8proc-2.11.3/utf8proc.c:592-617 | within a run each class keeps its order, and nothing crosses a starter or a grapheme break mark |
| `CanonicalOrder.FullSettles` | src/utf8proc-2.11.3/utf8proc.c:452-516 | a full decomposition holds nothing that can be decomposed |
| `CanonicalOrder.FullIs` | src/utf8proc-2.11.3/utf8proc.c:380-397 | a full decomposition is that of its mapping, code point by code point, or the code point itself if it has none |
| `CanonicalOrder.PartsCompose` | src/utf8proc-2.11.3/utf8proc.c:452-475 | the parts of a Hangul syllable, put together again by the formula of the Unicode standard, are the syllable |
| `CanonicalOrder.DecomposedConcat` | src/utf8proc-2.11.3/utf8proc.c:547-591 | a text is decomposed piece by piece |
| `CanonicalOrder.NfdIdempotent` | src/utf8proc-2.11.3/utf8proc.c:547-619 | normalization form D is idempotent, for every table whose mappings do not go round in circles |
| `GraphemeBreak.BreakExtended` | src/utf8proc-2.11.3/utf8proc.c:291-343 | the decision and the next state, with the two-byte encoding of the state |
| `GraphemeBreak.Decides` | src/utf8proc-2.11.3/utf8proc.c:291-343 | the state decides as the rules GB1 to GB999 of UAX #29 do on the whole text before |
| `GraphemeBreak.StateStep` | src/utf8proc-2.11.3/utf8proc.c:306-337 | the next state is what the whole text with one more character calls for |
| `GraphemeBreak.BreaksFromHere` | src/utf8proc-2.11.3/utf8proc.h:657-659 | after a break the rules need nothing of the text before it |
| `GraphemeBreak.Breaks` | src/utf8proc-2.11.3/utf8proc.h:655-659 | called in order on all boundaries, with the state reset after any of the breaks, the decisions are those of the rules |
| `Base64.MakeMap` | src/common/src/common-b64.c:265-288 | the reverse map gives every character its meaning |
| `Base64.AlphabetIs` | src/common/src/common-b64.c:54 | the letters are those of the alphabet, in its order |
| `Base64.KnownEncodings` | src/common/src/common-b64.c:119-187 | the test vectors of section 10 of RFC 4648, one for each length of the last group |
| `Base64.Ntop` | src/common/src/common-b64.c:119-187 | the encoding and a terminator, exactly if there is room for both |
| `Base64.NtopSizeIs` | src/common/src/common-b64.c:516-527 | the calculated size is exactly the encoding and its terminator |
| `Base64.AcceptedIsEncoded` | src/common/src/common-b64.c:290-403 | accepted are exactly the strings that without their spaces are the encoding of some bytes, and these are what is decoded |
| `Base64.PtonDo` | src/common/src/common-b64.c:290-403 | succeeds exactly if the string is accepted and the target has room for its digits, and then the target holds what was encoded |
| `Base64.PtonLen` | src/common/src/common-b64.c:406-496 | the length for every string with the right digits and padding, whatever its trailing bits |
| `Base64.PtonSizeSuffices` | src/common/src/common-b64.c:529-538 | the calculated size is enough for every string that can be decoded |
| `Base64.RoundTrip` | src/common/src/common-b64.c:119-403 | what was encoded is accepted and decoded to the same bytes |
| `EmulatedAtomics.MutualExclusion` | src/common/src/common-atomic.c:36-64 | for any number of threads and any interleaving at most one is between lock and unlock, and the assertion on release holds |
| `EmulatedAtomics.Linearizable` | src/common/src/common-atomic.c:66-111 | the operations in the order of their writes are a legal sequential history that ends in the value of the cell, and each returns what its event there returns; what an event does is `EmulatedAtomics.StepEffect` |
| `EmulatedAtomics.StepEffect` | src/common/src/common-atomic.c:66-111 | in every run the step that writes leaves the old value plus the operand after an add, the operand after an exchange, and after a compare-exchange the new value exactly if the old one was expected; the old value is what is returned |
| `EmulatedAtomics.FirstWins` | src/common/src/common-atomic.c:95-111 | of any number of compare-exchanges from the same start value exactly the first to be written succeeds |
| `EmulatedAtomics.Counter` | src/common/src/common-atomic.c:66-79 | a counter is its start plus all the adds that took effect |
| `EmulatedAtomics.SpuriousAborts` | src/common/src/common-atomic.c:38-58 | after a spurious failure of the weak compare-exchange the thread runs into the assertion on release |
| `EmulatedAtomics.SpuriousTogether` | src/common/src/common-atomic.c:38-58 | after a spurious failure another thread may be inside at the same time |
| `OnceInit.ExactlyOnce` | src/zlib-1.3.2/zutil.h:282-292 | the initialization never starts twice, and every thread that returns finds it complete |
| `OnceInit.NotInVain` | src/zlib-1.3.2/zutil.h:282-292 | while a thread waits there is one at work, or the wait is over |
| `Utf8.ValidIs` | src/utf8proc-2.11.3/utf8proc.c:173-175 | the wrapped comparisons leave out just the surrogates and what is out of range |
| `Utf8.ReadsBack` | src/utf8proc-2.11.3/utf8proc.c:125-202 | a value is read back from its encoding, whatever follows it, exactly if it is a code point and no surrogate; surrogates are refused |
| `Utf8.DecodesBack` | src/utf8proc-2.11.3/utf8proc.c:125-202 | a string of values is read back exactly if all of them are code points and no surrogates |
| `Utf8.KnownCharacters` | src/utf8proc-2.11.3/utf8proc.c:177-202 | encodings of one to four bytes from section 7 of RFC 3629 |
| `Utf8.ReadsOnly` | src/utf8proc-2.11.3/utf8proc.c:125-171 | what is read is the encoding of a valid code point: no surrogates, no overlong forms, nothing out of range |
| `Utf8.ReadString` | src/utf8proc-2.11.3/utf8proc.c:560-591 | a string is read exactly if it is the encoding of valid code points, and these are the result |
| `Utf8.Reencode` | src/utf8proc-2.11.3/utf8proc.c:745-767 | the encodings of all the values, in the memory of the values, and a terminator; nothing behind the one spare byte changes |
| `Utf8.LittleEndian` | src/utf8proc-2.11.3/utf8proc.c:745-767 | the values in memory have their least significant byte first, and are signed |
| `Utf8.ReencodedDecodes` | src/utf8proc-2.11.3/utf8proc.c:745-767 | the result is the encoding of the values, and is read back as them exactly if they are valid |

## Findings

Where the code and its comments differ, the model follows the code.

* inffast.c:29 and 290 assume fewer than eight bits in the accumulator on entry.
  `FastEntry.LateEntry` reaches an entry with eight; `FastEntry.EntryBits` gives the exact
  condition on the code of the block; `InflateFast.InflateFast` shows that `inflate_fast` is right
  on every entry all the same.
* inftrees.h:38-48 takes the table sizes from an exhaustive search; `TableSpace.RoomIsEnough`
  proves them sufficient.
* trees.c:660 says that a forced node is 0 or 1.  It is 2 exactly if 1 is the only symbol that
  occurs (`BuildTree.TwoForced`), as in a block with no distance but 2
  (`BuildTree.OnlyOneOccurs`); it has no extra bits either.
* With a window of less than 32K the result of `inflate` depends on where its calls end exactly
  when a match reaches beyond the window: if none does, `InflateStream.InflateAll`; if one does,
  `SmallWindow.InOneCall` and `SmallWindow.InTwoCalls`, and `SmallWindow.Depends` for a stream.
* In `deflate_slow`, `match_start` may be one below zero, and not more, while its match waits over
  a slide of the window (`Compressor.Deferred`); one that is out of use may fall further.  Only
  differences are used, so its unsigned wrap-around is modelled by an integer.
* adler32.c:69-79: a single byte added to a second sum beyond the base, which no valid checksum
  has, leaves a sum that is not reduced.  `Adler32.AdlerZ` has the exact condition and
  `Adler32.NotSettled` an input.
* common-atomic.c:38-58 takes the returned value alone for success, so a weak compare-exchange
  that fails spuriously counts as one that succeeded.  Without such failures the lock is right
  (`EmulatedAtomics.MutualExclusion`); after one the thread runs into the assertion on release or
  meets another thread inside (`EmulatedAtomics.SpuriousAborts`,
  `EmulatedAtomics.SpuriousTogether`).
* utf8proc.c:187-188 encodes surrogates, which `utf8proc_iterate` does not read: exactly the other
  code points are read back (`Utf8.ReadsBack`).

## Left out

- The zlib and gzip headers and trailers, preset dictionaries, Z_BLOCK and Z_TREES exits of
  `inflate`, `inflateSync` around its search, `deflateParams`, `deflateTune`, `deflatePrime` and
  the copy functions.
- Allocation failure, and return codes for null pointers and null buffers.
- deflate.c:496-503, that blocks with codes of their own do not overwrite their symbols either:
  it is argued from the average size of a symbol; proved is that such a block fits into
  `pending_buf`.  `sym_buf` and `pending_buf` are separate arrays.
- The tables `_length_code` and `_dist_code` are modelled by the rule that fills them.
- gzip file access, infback.c, compress.c and uncompr.c.
- CrcBraid.Crc32Z: models eight-byte words read with the least significant byte first; the
  four-byte, big-endian and processor-specific variants are left out.
- The contents of the Unicode tables, which are parameters with the assumptions they need, and
  with them composition, compatibility decomposition, case folding and the other options.
- The strict end of input in `utf8proc_iterate` for a string that ends with a zero byte instead
  of having a length.
- Wrap-around of the 64-bit cells, memory orders and the yielding in common-atomic.c.
- hexlify.c, common-oid.c, the bit macros and the tools.
