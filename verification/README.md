# Decompression, storage and transport in the RTOS components: models and proofs

Each Dafny module models one part of the repository and proves what that part is for. The
code that works step by step is modelled as methods with loops over arrays and as classes
with the source's own fields; each method is proved against a specification function or
predicate, and lemmas state what the specification is good for.

- **bzip2**, reading (`BitReader`, `Huffman`, `RunCounters`, `MoveToFront`, `BunzipStatus`,
  `BunzipHeader`, `BunzipBlock`, `BunzipStream`, `BunzipInput`, `CountingSort`, `BurrowsWheeler`,
  `BunzipRuns`, `BunzipCrc`, `BunzipOutput`): the decoder from the bits of a file to the
  resumable output loop, each stage against a specification of its own. Writing
  (`BunzipBits`, `BunzipWriter`, `BunzipRoundTrip`, `BunzipFile`): an encoder as functions,
  which the decoder undoes, header, data and checksums included. `BunzipExample` has a file
  of the reference compressor.
- **LZMA** (`RangeCoder`, `LzmaWindow`, `LzmaCode`, `LzmaContexts`, `LzmaBits`, `LzmaStates`,
  `LzmaSymbols`, `LzmaDecoder`, `LzmaRoundTrip`): packets have a meaning as operations on an
  unbounded history and a spelling as bits with contexts, each context with a probability of
  its own. Bytes code a list of bits when they lie in its nested interval; the decoder turns
  such bytes back into the meaning of the packets. `LzmaExample` has a stream of a reference
  compressor.
- **memheap** (`MemHeapLayout`, `MemHeapLists`, `MemHeap`, `MemHeapHistory`): the two circles
  of headers against a list of blocks that tile the pool, over single operations and over
  whole histories. Pointers have four bytes, a header 24.
- **rpbuf** (`RpbufView`, `Rpbuf`, `RpbufProtocol`, `RpbufRecovery`): one end as lists, a table
  and marks against a map from names, two such maps joined by two channels, and how the ends
  come together again after a loss.
- **SPIFFS** (`SpiffsImage`, `SpiffsBlocks`, `Spiffs`, `SpiffsBytes`, `SpiffsExample`): the
  image as pages and as bytes, and reading both back.
- **Bitmaps** (`RawWords`, `Words`, `FindBit`, `Bitmap`), **MD5** (`Md5Rounds`, `Md5`,
  `Md5Example`, against RFC 1321), the **byte ring buffer** (`RingBuffer`) and the **log
  ring** (`VirtLog`).
- `Bytes`, `Powers` and `NatBits` hold what several parts need.

Some things that the code is meant to do it does only under a condition. The condition is
proved exactly, with an example where the failure is not obvious:

- The Huffman tables count code lengths in single bytes. They serve every symbol exactly
  when no length occurs 256 times or more (`Huffman.TablesExact`).
- A bzip2 block is refused when a run that fills the buffer to its last byte is still open
  at the end of the block, and only then (`MoveToFront.UndoOfEncode`).
- The run counters of the bzip2 decoder are ints, taken to wrap around. They count every run
  of n symbols exactly if and only if n is at most 30 (`RunCounters.CountersExact`); a run is
  then appended or refused rightly if and only if its length and the bytes before it together
  fit an int, or from 32 symbols on what is left of it is refused too
  (`RunCounters.EffectExact`). Longer runs write outside the buffer or are dropped
  (`MoveToFront.LongRunExample`, `MoveToFront.DroppedRunExample`, `BunzipFile.OverrunFile`).
  No encoder writes such a run.
- The checksum of a bzip2 file as a whole goes uncompared when the file has no bytes, because
  the first call then returns 0 instead of the status of the last block
  (`BunzipOutput.Bunzip2`, `BunzipFile.EmptyFileUnchecked`).
- A direct bit from an odd range can leave the code equal to the range
  (`RangeCoder.CodeStaysBelow`). No encoder's output does that.
- In flush mode the ring index is right exactly for dictionaries of at most 2^31 bytes
  (`LzmaWindow.RingIndexSmall`). Copying stops at the announced size unless the ring can
  wrap before that, in which case up to 272 bytes more may be written.
- A memheap request that is rounded up past 2^32 is served with too little
  (`MemHeap.RequestExact`, `MemHeap.RequestOfAligned`). An aligned payload has a word in
  front of it for every alignment exactly when the payload starts at a multiple of four
  (`MemHeap.WordInFront`).
- Freeing an rpbuf buffer that is not available clears the slot of its id, whoever is in it
  (`RpbufView.FreeLosesExactly`, `RpbufProtocol.MasterFreeExample`). A slave's ids are never
  shared, a master's are. A master that takes over memory it has kept does not take over the
  physical address (`RpbufProtocol.TakenOverAddress`); the branch assigns `va` twice.
- An rpbuf end that has lost what it knew and allocates a buffer again has it available once
  the answer is there. A master's new addresses are those the slave has only if it gets the
  same memory, because the slave keeps what it had; a slave's id is the one the master has
  only if its next id is the old one (`RpbufRecovery.Restarts`). A master that frees a buffer
  gets it back only if the slave keeps no other one with the id (`RpbufRecovery.MasterReturns`).
- Rounding an index up by adding and masking gives the least aligned one exactly for masks
  that are one less than a power of two (`Bitmap.AlignedLeastExact`).
- The limit of a further SPIFFS index page is a quotient that is not rounded, and counts
  down by whole numbers, so that it is rounded up (`SpiffsImage.IndexPagesExact`). The limit
  is reckoned with the length of block indices, the page is filled with page indices.
- A SPIFFS name is filled up by its number of characters, not of bytes, so that wide characters
  shift the references (`SpiffsBytes.NameFieldExact`). A page's number is its offset shifted
  right, which is the number for page sizes that are powers of two and for early pages of others
  (`SpiffsBytes.PageNumberExact`).
- The comment on `MD5Final` calls the 64-bit count MSB-first. The code writes the low word
  first, as RFC 1321 says, and so does the model.
- The flush of the log is exact unless 2^32 or more laps leave the lap counters at a
  difference of 0, or at 1 with the flush position beyond the end (`VirtLog.FlushExact`).

`dafny verify dfyconfig.toml` checks everything.

## Model

| member | source | states |
|---|---|---|
| `BurrowsWheeler.InverseTransform` | lichee/rtos-components/thirdparty/decompress/decompress_bunzip2.c:489-512 | for every string, periodic ones included: from the last column of its sorted rotations and the row of the string, the pointers of the counting sort lead through the string |
| `BurrowsWheeler.TransformExists` | lichee/rtos-components/thirdparty/decompress/decompress_bunzip2.c:489-512 | every non-empty string has such a sorted table, so that the inverse transform is never vacuous |
| `BurrowsWheeler.ShiftedTable` | lichee/rtos-components/thirdparty/decompress/decompress_bunzip2.c:496-501 | the rows in pointer order, each with its last byte moved to the front, are the sorted table itself |
| `BurrowsWheeler.WalkFrom` | lichee/rtos-components/thirdparty/decompress/decompress_bunzip2.c:568-576 | walking on from the row that is the string rotated by k emits the rest of the string from k on |
| `BurrowsWheeler.PointersPermute` | lichee/rtos-components/thirdparty/decompress/decompress_bunzip2.c:496-501 | every position occurs exactly once among the pointers |
| `BurrowsWheeler.LinkStep` | lichee/rtos-components/thirdparty/decompress/decompress_bunzip2.c:497-501 | one round of the pointer loop writes the next pointer of the stable sort into a word that has none yet |
| `BurrowsWheeler.CumulateCounts` | lichee/rtos-components/thirdparty/decompress/decompress_bunzip2.c:489-495 | the loop turns occurrence counts into the numbers of smaller bytes, in place |
| `BurrowsWheeler.LinkPointers` | lichee/rtos-components/thirdparty/decompress/decompress_bunzip2.c:496-501 | the loop leaves in each word of dbuf its byte and, above it, the pointer of the stable sort of the bytes |
| `BitReader.FieldSplit` | lichee/rtos-components/thirdparty/decompress/decompress_bunzip2.c:117-155 | a field of a + b bits is a field of a bits followed by one of b bits |
| `BitReader.RegisterField` | lichee/rtos-components/thirdparty/decompress/decompress_bunzip2.c:148-152 | shifting and masking the 32-bit register gives the field of the input that has not been handed out |
| `BitReader.Reader.GetBits` | lichee/rtos-components/thirdparty/decompress/decompress_bunzip2.c:117-155 | returns the next bits of the input as a number, for up to 32 bits across any number of bytes; with fewer bits left it notes the error, which nothing takes back |
| `BitReader.Reader.Unget` | lichee/rtos-components/thirdparty/decompress/decompress_bunzip2.c:261-264 | giving bits back moves the position back by as many |
| `Huffman.DecodeOfCode` | lichee/rtos-components/thirdparty/decompress/decompress_bunzip2.c:396-407 | decoding by tables undoes encoding: the canonical code of a symbol followed by any bits yields that symbol and the length of its code |
| `Huffman.DecodeComplete` | lichee/rtos-components/thirdparty/decompress/decompress_bunzip2.c:396-407 | below the end of the longest codes every number begins with the code of exactly the symbol it decodes to |
| `Huffman.DecodeRefuses` | lichee/rtos-components/thirdparty/decompress/decompress_bunzip2.c:396-406 | from there on a number begins with no code and is refused |
| `Huffman.EndIsKraftSum` | lichee/rtos-components/thirdparty/decompress/decompress_bunzip2.c:327-345 | the end of the codes is the Kraft sum of the lengths |
| `Huffman.CodesOrdered` | lichee/rtos-components/thirdparty/decompress/decompress_bunzip2.c:310-345 | the code is the canonical one: shorter codes come first and begin no longer ones, codes of one length follow one another in the order of their symbols |
| `Huffman.CodeFits` | lichee/rtos-components/thirdparty/decompress/decompress_bunzip2.c:327-345 | under the Kraft inequality every canonical code fits into the bits of its length |
| `Huffman.TablesExact` | lichee/rtos-components/thirdparty/decompress/decompress_bunzip2.c:311-347 | the tables built serve every symbol, whatever bits follow, if and only if no length has 256 symbols or more, because the counters are single bytes |
| `Huffman.WrappedExample` | lichee/rtos-components/thirdparty/decompress/decompress_bunzip2.c:238-347 | a legal table of 258 codes of 9 bits is misread: its third code is refused |
| `Huffman.IndexInOrder` | lichee/rtos-components/thirdparty/decompress/decompress_bunzip2.c:402-407 | a decoded index is always inside permute, so that the bounds check never fires |
| `Huffman.HufGroup.FindRange` | lichee/rtos-components/thirdparty/decompress/decompress_bunzip2.c:274-282 | finds the smallest and the largest length |
| `Huffman.HufGroup.SortSymbols` | lichee/rtos-components/thirdparty/decompress/decompress_bunzip2.c:310-316 | permute lists the symbols by length, and by number within one length |
| `Huffman.HufGroup.FillTables` | lichee/rtos-components/thirdparty/decompress/decompress_bunzip2.c:326-346 | limit and base hold, for every length, the last prefix of its codes and the distance from code to place in permute |
| `Huffman.HufGroup.BuildTables` | lichee/rtos-components/thirdparty/decompress/decompress_bunzip2.c:274-347 | the loops build in place exactly the tables that the decoding lemmas are about |
| `Huffman.HufGroup.LookUp` | lichee/rtos-components/thirdparty/decompress/decompress_bunzip2.c:396-407 | the scan over limit and the access to permute give what the tables make of the bits |
| `Huffman.HufGroup.DecodeSymbol` | lichee/rtos-components/thirdparty/decompress/decompress_bunzip2.c:371-407 | reads one symbol and moves the reader by the length of its code, no more and no less; when the input ends within the bits it takes at once, the error is noted |
| `Huffman.ReadsCode` | lichee/rtos-components/thirdparty/decompress/decompress_bunzip2.c:383-407 | a symbol written at a bit position is read back from there, whatever follows it |
| `RunCounters.RunSpells` | lichee/rtos-components/thirdparty/decompress/decompress_bunzip2.c:413-435 | a run's length is the value of its symbols in bijective base two |
| `RunCounters.RunOfLength` | lichee/rtos-components/thirdparty/decompress/decompress_bunzip2.c:413-435 | and no other run of symbols has that length |
| `RunCounters.CountersAre` | lichee/rtos-components/thirdparty/decompress/decompress_bunzip2.c:413-435 | what the two int counters hold after a run of any length: the place value and the length modulo 2^32 as signed numbers, of those symbols that are left when every 32 have gone by |
| `RunCounters.CountersExact` | lichee/rtos-components/thirdparty/decompress/decompress_bunzip2.c:413-435 | the counter of the length is exact for all runs of n symbols if and only if n is at most 30 |
| `RunCounters.EffectExact` | lichee/rtos-components/thirdparty/decompress/decompress_bunzip2.c:442-450 | a run is appended or refused as it should be if and only if the sum that is tested fits an int or, from 32 symbols on, what is left of the run is refused too |
| `RunCounters.SafeRuns` | lichee/rtos-components/thirdparty/decompress/decompress_bunzip2.c:442-450 | of the runs of up to 31 symbols, all of n symbols have the right effect if and only if n is at most 29 |
| `MoveToFront.RunThenSymbol` | lichee/rtos-components/thirdparty/decompress/decompress_bunzip2.c:408-450 | a run of any length and the symbol behind it do what the counters come to |
| `MoveToFront.LongRunExample` | lichee/rtos-components/thirdparty/decompress/decompress_bunzip2.c:413-450 | a run of 31 symbols writes outside the buffer where it should be refused |
| `MoveToFront.DroppedRunExample` | lichee/rtos-components/thirdparty/decompress/decompress_bunzip2.c:413-450 | a run of 32 symbols is dropped without an error |
| `MoveToFront.UndoOfEncode` | lichee/rtos-components/thirdparty/decompress/decompress_bunzip2.c:408-481 | decoding undoes move-to-front and run coding for every text that fits the buffer, if and only if it does not fill it to the last byte with an open run |
| `MoveToFront.UndoPermutes` | lichee/rtos-components/thirdparty/decompress/decompress_bunzip2.c:466-476 | whatever the symbols, the list stays a permutation of what it was |
| `MoveToFront.LastUse` | lichee/rtos-components/thirdparty/decompress/decompress_bunzip2.c:466-476 | the place of an entry is the number of different entries used since its own last use |
| `BunzipBlock.MoveUp` | lichee/rtos-components/thirdparty/decompress/decompress_bunzip2.c:466-476 | the loop moves one entry of mtfSymbol to the front and keeps the order of the others |
| `BunzipBlock.ApplySymbol` | lichee/rtos-components/thirdparty/decompress/decompress_bunzip2.c:408-480 | one symbol changes list, int counters, counts and dbuf as the specification's step does, errors included, and tells when the code would write outside dbuf |
| `BunzipBlock.ReadOfCoded` | lichee/rtos-components/thirdparty/decompress/decompress_bunzip2.c:359-481 | reading the bits that an encoder wrote with any mixture of tables undoes the encoder's symbols and stops right behind them |
| `BunzipBlock.FiftyEach` | lichee/rtos-components/thirdparty/decompress/decompress_bunzip2.c:360-370 | each selector serves fifty symbols, in order |
| `BunzipBlock.DecodeData` | lichee/rtos-components/thirdparty/decompress/decompress_bunzip2.c:353-481 | the decoding loop leaves the decoded bytes in dbuf, their counts in byteCount and the reader behind them, or reports the error that the specification gives, or stops where the code would write outside dbuf; when the input ends inside the block it ends too, with the error noted |
| `BunzipHeader.ReadStart` | lichee/rtos-components/thirdparty/decompress/decompress_bunzip2.c:178-198 | the marks, the checksum, the row and the map are read, and each wrong value is refused with its own status |
| `BunzipHeader.ReadUsed` | lichee/rtos-components/thirdparty/decompress/decompress_bunzip2.c:198-207 | lists the bytes that the two levels of bit maps name |
| `BunzipHeader.ReadSelectors` | lichee/rtos-components/thirdparty/decompress/decompress_bunzip2.c:220-232 | undoes the unary move-to-front coding of the selectors |
| `BunzipHeader.GroupsExact` | lichee/rtos-components/thirdparty/decompress/decompress_bunzip2.c:209-219 | a header is accepted at this point if and only if it has two to six groups and a selector |
| `BunzipHeader.ReadLength` | lichee/rtos-components/thirdparty/decompress/decompress_bunzip2.c:251-272 | walks from the length before to the next one, and refuses it if it leaves 1 to 20 on the way |
| `BunzipHeader.ReadTables` | lichee/rtos-components/thirdparty/decompress/decompress_bunzip2.c:236-347 | reads the lengths of all groups and builds each group's tables without touching the others |
| `BunzipHeader.ReadHeader` | lichee/rtos-components/thirdparty/decompress/decompress_bunzip2.c:176-347 | the parts together read what the header says, for every header that the input holds completely |
| `BunzipWriter.UsedReads` | lichee/rtos-components/thirdparty/decompress/decompress_bunzip2.c:198-207 | the maps written for any set of bytes are read back as the set, in order |
| `BunzipWriter.SelectorsRead` | lichee/rtos-components/thirdparty/decompress/decompress_bunzip2.c:220-232 | any list of selectors, written as unary places of a list that moves to the front, is read back |
| `BunzipWriter.LengthsRead` | lichee/rtos-components/thirdparty/decompress/decompress_bunzip2.c:249-273 | any code lengths from 1 to 20, written as steps, are read back |
| `BunzipWriter.HeaderReads` | lichee/rtos-components/thirdparty/decompress/decompress_bunzip2.c:176-347 | every header that fits its fields, written bit by bit, is read back with the reader right behind it |
| `BunzipStream.DataFits` | lichee/rtos-components/thirdparty/decompress/decompress_bunzip2.c:359-481 | a block that is read has some bits and fits in the buffer |
| `BunzipInput.BlockReader.ReadBlock` | lichee/rtos-components/thirdparty/decompress/decompress_bunzip2.c:176-481 | header and data together: the next block's bytes, row and checksum, or the status that ends the stream, wherever the bits define one of them |
| `BunzipRuns.ExpandUndoesRunEncode` | lichee/rtos-components/thirdparty/decompress/decompress_bunzip2.c:577-597 | expanding four equal bytes and a count undoes the encoder that shortens runs, from any state with no run open |
| `BunzipRuns.EqualBytes` | lichee/rtos-components/thirdparty/decompress/decompress_bunzip2.c:577-597 | the encoder it undoes writes up to three equal bytes as they are, and up to 259 as four and a count |
| `BunzipRuns.BlockRoundTrip` | lichee/rtos-components/thirdparty/decompress/decompress_bunzip2.c:502-516 | the output of a block made from a text by run coding and the transform is that text |
| `BunzipOutput.Bunzip.GetNextBlock` | lichee/rtos-components/thirdparty/decompress/decompress_bunzip2.c:159-516 | reads a block from the bits and prepares the walk: the output that follows, and how it ends, are those of the blocks that the rest of the bits defines |
| `BunzipOutput.Bunzip.DecodeNextByte` | lichee/rtos-components/thirdparty/decompress/decompress_bunzip2.c:568-597 | taking a byte from the walk never changes what is still to come |
| `BunzipOutput.Bunzip.EmitByte` | lichee/rtos-components/thirdparty/decompress/decompress_bunzip2.c:556-565 | the byte written is the first of what is to come, and the checksum register moves on so that the verdict on the block stays the same |
| `BunzipOutput.Bunzip.EndBlock` | lichee/rtos-components/thirdparty/decompress/decompress_bunzip2.c:599-607 | the comparison of checksums tells whether the whole block's bytes had the stored one; if not, the totals can no longer agree |
| `BunzipOutput.Bunzip.Read` | lichee/rtos-components/thirdparty/decompress/decompress_bunzip2.c:526-622 | each call hands out the next bytes of the whole output, as many as asked for or left, keeps the rest for later calls, and ends with the status and the two checksums that tell how the stream ended |
| `BunzipOutput.Drain` | lichee/rtos-components/thirdparty/decompress/decompress_bunzip2.c:526-622 | for every sequence of positive lengths the concatenated results are the same output, cut off after the sum of the lengths |
| `BunzipOutput.StartBunzip` | lichee/rtos-components/thirdparty/decompress/decompress_bunzip2.c:633-679 | accepts exactly the nine signatures, with a buffer of the level's size, and then stands before all that the file's bits define, if they do |
| `BunzipOutput.Bunzip2` | lichee/rtos-components/thirdparty/decompress/decompress_bunzip2.c:707-746 | on files whose bits define their blocks: succeeds if and only if the file ends with its mark, every block has its checksum, and the file has its own or no bytes at all; then the output is complete |
| `BunzipRoundTrip.DataFromBits` | lichee/rtos-components/thirdparty/decompress/decompress_bunzip2.c:353-481 | the data of a block, written with any usable tables, is read back |
| `BunzipRoundTrip.StreamRoundTrip` | lichee/rtos-components/thirdparty/decompress/decompress_bunzip2.c:526-622 | the blocks of a file come out as their texts, one after the other, and the file is intact if and only if its checksum combines those of the texts |
| `BunzipCrc.TableStepIs` | lichee/rtos-components/thirdparty/decompress/decompress_bunzip2.c:657-663 | one step by the table is eight steps of the division of polynomials, for every register and byte |
| `BunzipCrc.MakeTable` | lichee/rtos-components/thirdparty/decompress/decompress_bunzip2.c:657-663 | the two loops build that table |
| `BunzipCrc.CrcAppend` | lichee/rtos-components/thirdparty/decompress/decompress_bunzip2.c:558-561 | the checksum of a text can be continued from that of its beginning |
| `BunzipCrc.ChangeNoticed` | lichee/rtos-components/thirdparty/decompress/decompress_bunzip2.c:558-606 | changing one byte of a block changes its checksum, wherever the byte stands |
| `BunzipCrc.CheckValue` | lichee/rtos-components/thirdparty/decompress/decompress_bunzip2.c:600-663 | the checksum of the digits 1 to 9 is 0xFC891918, the check value published for it, which fixes polynomial, start and complement |
| `BunzipCrc.CombinedBit` | lichee/rtos-components/thirdparty/decompress/decompress_bunzip2.c:601-602 | bit i of the new total is bit i - 1 of the old one, turned round, xor bit i of the block's checksum |
| `BunzipCrc.TotalNoticed` | lichee/rtos-components/thirdparty/decompress/decompress_bunzip2.c:601-602 | with one and the same block, different totals stay different |
| `BunzipCrc.PartNoticed` | lichee/rtos-components/thirdparty/decompress/decompress_bunzip2.c:601-602 | from one and the same total, different checksums lead to different totals |
| `BunzipCrc.OrderNoticed` | lichee/rtos-components/thirdparty/decompress/decompress_bunzip2.c:601-602 | combining two checksums in either order gives the same if and only if they are equal or complements of each other |
| `BunzipRoundTrip.TotalOfOne` | lichee/rtos-components/thirdparty/decompress/decompress_bunzip2.c:601-602 | the total of a file of one block is the checksum of that block |
| `BunzipRoundTrip.TextNoticed` | lichee/rtos-components/thirdparty/decompress/decompress_bunzip2.c:601-602 | exchanging one text of a file for another leaves the total as it is if and only if the two have one checksum |
| `BunzipRoundTrip.SwapNoticed` | lichee/rtos-components/thirdparty/decompress/decompress_bunzip2.c:601-602 | exchanging two neighbouring texts leaves the total as it is if and only if their checksums are equal or complements |
| `BunzipFile.CodedBits` | lichee/rtos-components/thirdparty/decompress/decompress_bunzip2.c:359-407 | symbols written with tables that meet the Kraft inequality are coded, with enough selectors |
| `BunzipFile.SymbolsHaveInput` | lichee/rtos-components/thirdparty/decompress/decompress_bunzip2.c:359-407 | so that some input codes them |
| `BunzipFile.PieceReads` | lichee/rtos-components/thirdparty/decompress/decompress_bunzip2.c:159-481 | a block that is written, header and data, is the next block |
| `BunzipFile.FileReads` | lichee/rtos-components/thirdparty/decompress/decompress_bunzip2.c:633-679 | a file that is written holds its blocks and its checksum |
| `BunzipFile.FileRoundTrip` | lichee/rtos-components/thirdparty/decompress/decompress_bunzip2.c:159-622 | the whole decoder undoes the whole encoder, for any texts, rows, tables and selectors that fit |
| `BunzipFile.EveryStringHasFile` | lichee/rtos-components/thirdparty/decompress/decompress_bunzip2.c:159-622 | for each of the nine levels every byte string is what some intact file decompresses to |
| `BunzipFile.EmptyFileUnchecked` | lichee/rtos-components/thirdparty/decompress/decompress_bunzip2.c:707-746 | a file without bytes is complete with any wrong checksum |
| `BunzipFile.OverrunFile` | lichee/rtos-components/thirdparty/decompress/decompress_bunzip2.c:413-450 | a file of each level, with a proper header and proper codes, on which the decoder writes outside its buffer |
| `BunzipExample.BananaFile` | lichee/rtos-components/thirdparty/decompress/decompress_bunzip2.c:159-679 | the 39 bytes that the reference compressor writes for "banana" decode to it, with the right checksum: marks, maps, selector, tables, codes, transform and checksums all have the values of the format |
| `RangeCoder.IntervalInside` | lichee/rtos-components/thirdparty/decompress/decompress_unlzma.c:130-196 | the interval of any sequence of coded bits lies inside the range it started from, scaled by the bytes shifted in |
| `RangeCoder.DecodeStep` | lichee/rtos-components/thirdparty/decompress/decompress_unlzma.c:130-196 | if code and the bytes to come lie in the interval of a bit and its successors, comparing with the bound tells the bit, and what is left lies in the interval of the successors |
| `RangeCoder.NarrowedBounds` | lichee/rtos-components/thirdparty/decompress/decompress_unlzma.c:137-196 | after a normalised step 0 < bound < range, and the new range is at least 2^16, so that one byte always restores 2^24 |
| `RangeCoder.CodeStaysBelow` | lichee/rtos-components/thirdparty/decompress/decompress_unlzma.c:147-196 | a step keeps code below range if and only if it is not a direct bit that drops the odd unit of the range with code right on it |
| `RangeCoder.DirectBitExample` | lichee/rtos-components/thirdparty/decompress/decompress_unlzma.c:187-196 | the exception is met by a concrete range and code |
| `RangeCoder.EncodedAims` | lichee/rtos-components/thirdparty/decompress/decompress_unlzma.c:117-196 | every sequence of bits and contexts has bytes that lie in its interval, across adaptation and normalisation |
| `RangeCoder.Adapt` | lichee/rtos-components/thirdparty/decompress/decompress_unlzma.c:160-170 | a probability between 31 and 2017 stays there whatever bit comes |
| `RangeCoder.AdaptExact` | lichee/rtos-components/thirdparty/decompress/decompress_unlzma.c:160-170 | a bit moves its probability towards itself by a 32nd of the way, rounded down |
| `RangeCoder.OwnShareGrows` | lichee/rtos-components/thirdparty/decompress/decompress_unlzma.c:151-170 | a bit never makes its own part of a range smaller |
| `RangeCoder.ZerosSettle` | lichee/rtos-components/thirdparty/decompress/decompress_unlzma.c:160-164 | zeros over and over bring every probability up to 2017 to 2017, where it stays |
| `RangeCoder.OnesSettle` | lichee/rtos-components/thirdparty/decompress/decompress_unlzma.c:165-170 | ones over and over bring every probability from 31 to 31, where it stays |
| `RangeCoder.Rc.constructor` | lichee/rtos-components/thirdparty/decompress/decompress_unlzma.c:113-126 | the code register holds four bytes of the input after the first has been shifted out |
| `RangeCoder.Rc.Normalize` | lichee/rtos-components/thirdparty/decompress/decompress_unlzma.c:130-141 | one byte at most is shifted in and always suffices |
| `RangeCoder.Rc.GetBit` | lichee/rtos-components/thirdparty/decompress/decompress_unlzma.c:147-184 | on the bytes of any coded sequence the next bit is returned and the rest of the sequence stays readable; the probability adapts and no other does |
| `RangeCoder.Rc.DirectBit` | lichee/rtos-components/thirdparty/decompress/decompress_unlzma.c:187-196 | the same for bits coded without a probability |
| `LzmaWindow.LzCopyAt` | lichee/rtos-components/thirdparty/decompress/decompress_unlzma.c:334-344 | every byte appended equals the one d places before it, also when that one was itself just appended |
| `LzmaWindow.LzCopyPeriodic` | lichee/rtos-components/thirdparty/decompress/decompress_unlzma.c:334-344 | so that a copy repeats the last d bytes of the history with period d |
| `LzmaWindow.RingIndexExact` | lichee/rtos-components/thirdparty/decompress/decompress_unlzma.c:306-311 | the ring index computed in 32 bits is right if and only if a place before the start does not fall inside the ring by accident |
| `LzmaWindow.RingIndexSmall` | lichee/rtos-components/thirdparty/decompress/decompress_unlzma.c:306-311 | all ring indices are right if and only if the dictionary has at most 2^31 bytes |
| `LzmaWindow.Writer.PeekOldByte` | lichee/rtos-components/thirdparty/decompress/decompress_unlzma.c:297-313 | in flush mode and without, the byte returned is the one that many places back in the unbounded history |
| `LzmaWindow.Writer.WriteByte` | lichee/rtos-components/thirdparty/decompress/decompress_unlzma.c:315-326 | appends one byte to the history, also when the ring is full and is flushed |
| `LzmaWindow.Writer.CopyBytes` | lichee/rtos-components/thirdparty/decompress/decompress_unlzma.c:334-344 | appends the overlapping copy, and tells exactly how many bytes the announced size kept it from writing |
| `LzmaCode.LiteralBaseFits` | lichee/rtos-components/thirdparty/decompress/decompress_unlzma.c:352-356 | every literal coder lies inside the table of probabilities for all properties, positions and bytes |
| `LzmaCode.SlotHolds` | lichee/rtos-components/thirdparty/decompress/decompress_unlzma.c:496-521 | the slots cut the distances into intervals: each lies above its slot's base by less than the slot's bits can say |
| `LzmaCode.SlotBelow` | lichee/rtos-components/thirdparty/decompress/decompress_unlzma.c:493-495 | distances below 2^k have slots below 2k, so that six bits suffice |
| `LzmaBits.SlotExact` | lichee/rtos-components/thirdparty/decompress/decompress_unlzma.c:493-501 | the slot of a distance is twice the place of its top bit, and the bit below it |
| `LzmaCode.Next` | lichee/rtos-components/thirdparty/decompress/decompress_unlzma.c:380-532 | a packet other than the end mark makes the output longer, keeps the state below 12 and every distance inside dictionary and output |
| `LzmaStates.StateTells` | lichee/rtos-components/thirdparty/decompress/decompress_unlzma.c:380-385 | the state after any legal stream is what a table makes of the kinds of its last packets, back to the third literal behind a copy |
| `LzmaStates.RepsTell` | lichee/rtos-components/thirdparty/decompress/decompress_unlzma.c:408-455 | the four distances stand in the order of their last use, and a new one takes the place of the one that was not used for longest |
| `LzmaContexts.PlacesApart` | lichee/rtos-components/thirdparty/decompress/decompress_unlzma.c:227-273 | two bits share a probability if and only if they say the same, in the same state, position and coder, behind the same bits: the table has one place for each of all contexts |
| `LzmaBits.PacketIs` | lichee/rtos-components/thirdparty/decompress/decompress_unlzma.c:346-532 | the bits of every legal packet are those it says, each with the probability of its place: flags by state and position, lengths by position, distances by length, literals by position, previous byte and expected byte |
| `LzmaBits.PacketPlaced` | lichee/rtos-components/thirdparty/decompress/decompress_unlzma.c:346-532 | all these places are in the table |
| `LzmaBits.StreamIs` | lichee/rtos-components/thirdparty/decompress/decompress_unlzma.c:630-650 | so are the bits of every legal stream |
| `LzmaBits.PosStateTells` | lichee/rtos-components/thirdparty/decompress/decompress_unlzma.c:602-633 | two positions share their probabilities if and only if they agree modulo 2^pb |
| `LzmaBits.LiteralBaseTells` | lichee/rtos-components/thirdparty/decompress/decompress_unlzma.c:352-356 | two literals share their coder if and only if their positions agree modulo 2^lp and the bytes before them in their top lc bits, and other coders are apart |
| `LzmaSymbols.TreeDecode` | lichee/rtos-components/thirdparty/decompress/decompress_unlzma.c:199-208 | decodes the number whose bits were sent down a tree, and always one that the tree can hold |
| `LzmaSymbols.ReverseDecode` | lichee/rtos-components/thirdparty/decompress/decompress_unlzma.c:513-519 | decodes a number sent from its lowest bit |
| `LzmaSymbols.DirectDecode` | lichee/rtos-components/thirdparty/decompress/decompress_unlzma.c:505-508 | decodes a number sent without probabilities |
| `LzmaSymbols.LiteralDecode` | lichee/rtos-components/thirdparty/decompress/decompress_unlzma.c:358-379 | decodes a literal, with the byte at the last distance as a guess up to the first wrong bit |
| `LzmaSymbols.GuessStep` | lichee/rtos-components/thirdparty/decompress/decompress_unlzma.c:364-366 | doubling the match byte brings up its next bit, however much garbage has gathered above |
| `LzmaSymbols.LengthDecode` | lichee/rtos-components/thirdparty/decompress/decompress_unlzma.c:453-481 | decodes a length in any of its three ranges |
| `LzmaSymbols.DistanceDecode` | lichee/rtos-components/thirdparty/decompress/decompress_unlzma.c:483-521 | decodes a distance from slot, plain bits and alignment bits for all distances below 2^32 |
| `LzmaSymbols.ChoiceDecode` | lichee/rtos-components/thirdparty/decompress/decompress_unlzma.c:408-451 | decodes which of the last distances is used, or the short form |
| `LzmaDecoder.Decoder.SelectRep` | lichee/rtos-components/thirdparty/decompress/decompress_unlzma.c:425-448 | the chosen distance moves to the front of the four and the order of the others is kept |
| `LzmaDecoder.Decoder.ProcessBit0` | lichee/rtos-components/thirdparty/decompress/decompress_unlzma.c:346-388 | a literal is appended, the state falls below 7, and nothing else changes |
| `LzmaDecoder.Decoder.ReadPacket` | lichee/rtos-components/thirdparty/decompress/decompress_unlzma.c:398-527 | reads a coded packet's state, distances and length; what any other input yields as success is a copy inside dictionary and output |
| `LzmaDecoder.Decoder.ProcessBit1` | lichee/rtos-components/thirdparty/decompress/decompress_unlzma.c:390-532 | a coded packet does to state, distances and output what it means; the end mark writes nothing |
| `LzmaDecoder.Decoder.DecodePacket` | lichee/rtos-components/thirdparty/decompress/decompress_unlzma.c:630-647 | one round of the main loop takes a coded stream to the state after its first packet, with the rest of the stream still coded |
| `LzmaDecoder.Decoder.Decode` | lichee/rtos-components/thirdparty/decompress/decompress_unlzma.c:630-666 | the main loop outputs what the packets mean; on every input it ends near the announced size, and reaches it unless an end mark or an error comes first |
| `LzmaDecoder.MeaningIsNext` | lichee/rtos-components/thirdparty/decompress/decompress_unlzma.c:390-532 | the code's way to update state and distances agrees with the meaning of the packet |
| `LzmaRoundTrip.ReadProps` | lichee/rtos-components/thirdparty/decompress/decompress_unlzma.c:585-601 | the subtraction loops take the properties byte apart into the only three numbers in range that make it up, and refuse exactly the bytes from 225 on |
| `LzmaRoundTrip.FitsScript` | lichee/rtos-components/thirdparty/decompress/decompress_unlzma.c:227-273 | every context of every legal stream lies inside the table of probabilities |
| `LzmaRoundTrip.Unlzma` | lichee/rtos-components/thirdparty/decompress/decompress_unlzma.c:568-666 | on an input that codes any legal stream of packets, with the announced size or an end mark before it, the decoder succeeds and its output, flushed or not, is what the packets mean |
| `LzmaRoundTrip.StreamStartsLow` | lichee/rtos-components/thirdparty/decompress/decompress_unlzma.c:630-634 | every legal stream begins with a literal or the end mark, which bounds the first four bytes as the decoder requires |
| `LzmaRoundTrip.StreamHasInput` | lichee/rtos-components/thirdparty/decompress/decompress_unlzma.c:568-666 | every legal stream of packets is coded by some input |
| `LzmaRoundTrip.EveryStringHasInput` | lichee/rtos-components/thirdparty/decompress/decompress_unlzma.c:568-666 | every byte string is the meaning of some input, for all properties and dictionary sizes |
| `LzmaRoundTrip.LiteralsSpell` | lichee/rtos-components/thirdparty/decompress/decompress_unlzma.c:346-388 | the stream of its literals means the string itself |
| `LzmaExample.InputCodes` | lichee/rtos-components/thirdparty/decompress/decompress_unlzma.c:568-666 | the bytes that a reference compressor writes for "a" and an end mark code just these two packets: range, first byte, halves, order of bits and all contexts have the values of the format |
| `MemHeapLayout.FreeUndoesAlloc` | lichee/rtos-components/thirdparty/rtt_memheap/memheap.c:202-343 | freeing the block just allocated restores the exact partition into blocks, whether it had been split or taken whole |
| `MemHeapLayout.NothingInUse` | lichee/rtos-components/thirdparty/rtt_memheap/memheap.c:306-355 | when no block but the tail is in use the heap is one free block of the pool less two headers |
| `MemHeapHistory.HistoryKeeps` | lichee/rtos-components/thirdparty/rtt_memheap/memheap.c:161-355 | over every sequence of allocations and frees the blocks tile the pool, no two free ones are neighbours, and those in use are those taken and not given back |
| `MemHeapHistory.MovesAreCalls` | lichee/rtos-components/thirdparty/rtt_memheap/memheap.c:183-292 | the moves of the histories are the calls: a request can be served by some block exactly when a free one holds it, and what can be given back is what has a live payload |
| `MemHeapHistory.AllGivenBack` | lichee/rtos-components/thirdparty/rtt_memheap/memheap.c:161-355 | after any such sequence that gives everything back the heap is as it was at the start |
| `MemHeapLayout.PayloadsApart` | lichee/rtos-components/thirdparty/rtt_memheap/memheap.c:202-263 | the payloads of two blocks do not meet each other or a header |
| `MemHeapLayout.AllocatedHeads` | lichee/rtos-components/thirdparty/rtt_memheap/memheap.c:202-259 | allocating adds exactly the block it took to those in use |
| `MemHeapLayout.FreedHeads` | lichee/rtos-components/thirdparty/rtt_memheap/memheap.c:306-343 | freeing removes exactly the block given back from those in use |
| `MemHeapLayout.CircleInsert` | lichee/rtos-components/thirdparty/rtt_memheap/memheap.c:216-232 | four pointer writes put a node into a doubly linked circle behind a given one |
| `MemHeapLayout.CircleRemove` | lichee/rtos-components/thirdparty/rtt_memheap/memheap.c:223-224 | two pointer writes take a node out of the circle |
| `MemHeap.RequestExact` | lichee/rtos-components/thirdparty/rtt_memheap/memheap.c:168-173 | a request is given at least what it asks for if and only if rounding it up does not pass 2^32 |
| `MemHeap.PeakIsMax` | lichee/rtos-components/thirdparty/rtt_memheap/memheap.c:238-241 | the high-water mark is one of the usages so far, and none is larger |
| `MemHeap.Memheap.constructor` | lichee/rtos-components/thirdparty/rtt_memheap/memheap.c:91-152 | a fresh heap satisfies the invariant, with one free block and a used tail |
| `MemHeap.Memheap.Search` | lichee/rtos-components/thirdparty/rtt_memheap/memheap.c:184-194 | finds the first block on the free list that is large enough, or that there is none |
| `MemHeap.Memheap.SplitBlock` | lichee/rtos-components/thirdparty/rtt_memheap/memheap.c:202-242 | splitting keeps the invariant: blocks tile the pool, the free list holds the unused blocks once each, no two are neighbours, and the accounting is exact |
| `MemHeap.Memheap.TakeBlock` | lichee/rtos-components/thirdparty/rtt_memheap/memheap.c:243-259 | taking a block whole keeps the invariant |
| `MemHeap.Memheap.Alloc` | lichee/rtos-components/thirdparty/rtt_memheap/memheap.c:161-271 | keeps the invariant; fails if and only if the request is not below the available size or no free block holds it, and then changes nothing; otherwise takes the first fit and tells the new layout, free list and usage |
| `MemHeap.Memheap.JoinPrevious` | lichee/rtos-components/thirdparty/rtt_memheap/memheap.c:311-326 | joins a released block with a free block before it |
| `MemHeap.Memheap.JoinNext` | lichee/rtos-components/thirdparty/rtt_memheap/memheap.c:328-343 | joins a released block with a free block after it, which leaves the free list |
| `MemHeap.Memheap.Free` | lichee/rtos-components/thirdparty/rtt_memheap/memheap.c:273-355 | keeps the invariant, joins the block with its free neighbours on both sides, and leaves all other blocks in use |
| `MemHeap.RequestOfAligned` | lichee/rtos-components/thirdparty/rtt_memheap/memheap.c:368-374 | an aligned request has room for size and alignment if and only if their sum does not pass 2^32 |
| `MemHeap.WordInFront` | lichee/rtos-components/thirdparty/rtt_memheap/memheap.c:377-388 | for all alignments there is a word in front of the aligned place if and only if the payload starts at a multiple of four |
| `MemHeap.Memheap.AllocAlign` | lichee/rtos-components/thirdparty/rtt_memheap/memheap.c:357-394 | the pointer is a multiple of the alignment, its bytes and the word before it lie inside the payload, and that word holds the payload's address, whenever the pool starts at a multiple of four and the request does not pass 2^32 |
| `MemHeap.Memheap.FreeAlign` | lichee/rtos-components/thirdparty/rtt_memheap/memheap.c:396-402 | gives back the block whose address stands before the pointer |
| `RpbufView.StructureHolds` | lichee/rtos-components/aw/rpbuf/rpbuf_core.c:734-1035 | names are unique and the lists and the table have none in common, and a buffer in a slot has the slot's number as its id |
| `RpbufView.SlaveLosesNothing` | lichee/rtos-components/aw/rpbuf/rpbuf_core.c:1318-1319 | freeing on a slave changes no other name, as live buffers hold distinct ids |
| `RpbufView.FreeLosesExactly` | lichee/rtos-components/aw/rpbuf/rpbuf_core.c:1318-1319 | freeing leaves all other names as they are if and only if the buffer is available or the slot of its id is empty |
| `RpbufView.FirstFree` | lichee/rtos-components/aw/rpbuf/rpbuf_core.c:96-107 | the least id that is not marked, or none if all are |
| `RpbufView.SlaveCapacity` | lichee/rtos-components/aw/rpbuf/rpbuf_core.c:1499-1507 | a slave has as many buffers as ids are marked, so that its ids run out exactly with the 32nd buffer |
| `Rpbuf.Controller.FindByName` | lichee/rtos-components/aw/rpbuf/rpbuf_core.c:73-83 | finds the buffer of a name in a list, or that there is none |
| `Rpbuf.Controller.FindById` | lichee/rtos-components/aw/rpbuf/rpbuf_core.c:85-94 | finds the first buffer with an id in a list, or that there is none |
| `Rpbuf.Controller.TakeId` | lichee/rtos-components/aw/rpbuf/rpbuf_core.c:96-107 | marks the first free id and no other |
| `Rpbuf.Controller.AllocBuffer` | lichee/rtos-components/aw/rpbuf/rpbuf_core.c:1412-1614 | keeps the structure of the end and does to names, lists, slots, ids and messages what allocating means, with all its refusals |
| `Rpbuf.Controller.OnCreated` | lichee/rtos-components/aw/rpbuf/rpbuf_core.c:734-931 | the same for the handler of a creation message, including repeated ones |
| `Rpbuf.Controller.OnDestroyed` | lichee/rtos-components/aw/rpbuf/rpbuf_core.c:933-1035 | the same for the handler of a destruction message, which means a kept buffer with the id if there is one and else the available one |
| `Rpbuf.Controller.FreeBuffer` | lichee/rtos-components/aw/rpbuf/rpbuf_core.c:1244-1410 | the same for freeing a buffer |
| `RpbufProtocol.RunInv` | lichee/rtos-components/aw/rpbuf/rpbuf_core.c:734-931 | the invariant that ties both ends and both channels holds in every interleaving of allocations and deliveries |
| `RpbufProtocol.Agreement` | lichee/rtos-components/aw/rpbuf/rpbuf_core.c:734-931 | in every such run a name available on both ends has the same id, length and addresses on both |
| `RpbufProtocol.Quiescence` | lichee/rtos-components/aw/rpbuf/rpbuf_core.c:1412-1614 | once the channels are empty a name is available on both ends if and only if both have allocated it with one length |
| `RpbufProtocol.Drains` | lichee/rtos-components/aw/rpbuf/rpbuf_core.c:734-931 | delivering what is on its way empties the channels, since deliveries of this phase are not answered |
| `RpbufProtocol.NoSharing` | lichee/rtos-components/aw/rpbuf/rpbuf_core.c:852-863 | a name available on one end has been allocated on both, and no two available names share a slot |
| `RpbufProtocol.MasterFreeExample` | lichee/rtos-components/aw/rpbuf/rpbuf_core.c:1318-1319 | a run after which a master loses an available buffer by freeing another one |
| `RpbufProtocol.TakenOverAddress` | lichee/rtos-components/aw/rpbuf/rpbuf_core.c:1516-1535 | a master that takes over memory it has kept tells the right physical address if and only if that address is 0 |
| `RpbufProtocol.TakenOverExample` | lichee/rtos-components/aw/rpbuf/rpbuf_core.c:1516-1535 | a run that gets there with another address |
| `RpbufRecovery.AllocTells` | lichee/rtos-components/aw/rpbuf/rpbuf_core.c:1425-1597 | an allocation that fails changes nothing; another one sends what the end has now, as available if and only if it is, which is if and only if the other half was known |
| `RpbufRecovery.MasterRecovers` | lichee/rtos-components/aw/rpbuf/rpbuf_core.c:772-812 | a master that does not know a buffer the slave has available gets it back by allocating it, if and only if the lengths agree and no other buffer is in the slot; the addresses agree if and only if the memory is the same as before |
| `RpbufRecovery.SlaveRecovers` | lichee/rtos-components/aw/rpbuf/rpbuf_core.c:772-812 | a slave that does not know a buffer the master has available gets it back with the master's addresses if and only if the lengths agree; the ids agree if and only if its next id is the old one |
| `RpbufRecovery.Restarts` | lichee/rtos-components/aw/rpbuf/rpbuf_core.c:772-812 | after any run that has come to rest, either end can lose all it knew and allocate again: the buffer is available on both ends, with one id, length and addresses under exactly these conditions |
| `RpbufRecovery.DestroysAvailable` | lichee/rtos-components/aw/rpbuf/rpbuf_core.c:968-1008 | a destruction message means the available buffer with the id if and only if no kept one has it |
| `RpbufRecovery.SlaveReturns` | lichee/rtos-components/aw/rpbuf/rpbuf_core.c:1244-1401 | a slave that frees an available buffer and allocates it again has it available on both ends as before, with one id, the next free one |
| `RpbufRecovery.MasterReturns` | lichee/rtos-components/aw/rpbuf/rpbuf_core.c:1244-1401 | so has a master, if and only if the slave keeps no other buffer with the id, but for the physical address, which is 0 on both ends |
| `SpiffsImage.LookupRoom` | tools/scripts/spiffsgen.py:63-67 | the lookup pages of a block have room for the ids of all its pages |
| `SpiffsImage.IndexPagesExact` | tools/scripts/spiffsgen.py:77-226 | index pages fit into a page if and only if as many references do as the counting allows, rounded up for all but the first |
| `SpiffsImage.IndexPagesFit` | tools/scripts/spiffsgen.py:77-226 | with references of the length reckoned with, all index pages fit if and only if they are head pages or their room is a whole number of references |
| `SpiffsImage.IndexWritten` | tools/scripts/spiffsgen.py:302-317 | a new index page continues an object without touching what it holds |
| `SpiffsImage.DataWritten` | tools/scripts/spiffsgen.py:319-328 | a data page with its reference continues an object by the bytes of the page |
| `SpiffsBlocks.PageFound` | tools/scripts/spiffsgen.py:319-323 | every page is found in the image at the offset that was written for it |
| `SpiffsBlocks.StoredReads` | tools/scripts/spiffsgen.py:285-334 | following an object's index pages in span order to its data pages yields what was stored |
| `SpiffsBlocks.LookupsComplete` | tools/scripts/spiffsgen.py:285-300 | the lookup pages of a block list the ids of all its other pages, once each and in order |
| `SpiffsBytes.NameFieldExact` | tools/scripts/spiffsgen.py:211-218 | the name's field has its length, so that the references stand in their place, if and only if every character is a single byte |
| `SpiffsBytes.CharsOfName` | tools/scripts/spiffsgen.py:218 | the characters of every name are read back from its bytes in UTF-8 |
| `SpiffsBytes.PageNumberExact` | tools/scripts/spiffsgen.py:221-224 | shifting the offset gives the page's number if and only if the number is small enough for what the page size exceeds a power of two by |
| `SpiffsBytes.DataReads` | tools/scripts/spiffsgen.py:241-256 | parsing the bytes of a data page gives its object, its span and its contents |
| `SpiffsBytes.IndexReads` | tools/scripts/spiffsgen.py:196-230 | parsing the bytes of an index page gives object, span, size, name and the numbers of its pages |
| `SpiffsBytes.RawIdExact` | tools/scripts/spiffsgen.py:141-145 | a listed id tells object and kind of page if and only if the object id leaves its top bit clear |
| `SpiffsBytes.WithMagic` | tools/scripts/spiffsgen.py:153-171 | the last lookup page has the magic number in its last place but one exactly if two places are free |
| `SpiffsBytes.MagicBit` | tools/scripts/spiffsgen.py:120-127 | each bit of the magic number, as far as ids are wide, is the sum without carry of those of a constant, the page size and, if asked for, the number of blocks left |
| `SpiffsBytes.MagicTells` | tools/scripts/spiffsgen.py:120-127 | without the number the magic is the same in every block; with it two are the same if and only if the numbers agree modulo the ids' range |
| `SpiffsBytes.LeftOfMagic` | tools/scripts/spiffsgen.py:120-127 | taking constant and page size off gives back the number of blocks left, modulo the ids' range |
| `SpiffsBytes.LookupReads` | tools/scripts/spiffsgen.py:137-151 | every place of a lookup page reads as the id written there, or as free |
| `SpiffsBytes.ImageAt` | tools/scripts/spiffsgen.py:336-351 | the image has its size, and each block, written or fresh, is in its place |
| `SpiffsBytes.LeftInImage` | tools/scripts/spiffsgen.py:153-171 | the last place but one of the last lookup page of each block of the image tells how many blocks are left, if two places are free and the number fits an id |
| `SpiffsBytes.ImageReads` | tools/scripts/spiffsgen.py:336-351 | every page is read back from the image's bytes at the offset reckoned for it |
| `SpiffsBytes.NumberLeads` | tools/scripts/spiffsgen.py:221-224 | with pages of a power of two bytes, the number stored for a data page leads to its bytes in the image |
| `SpiffsExample.DataPageExample` | tools/scripts/spiffsgen.py:241-256 | a data page with the builder's defaults, byte by byte |
| `SpiffsExample.IndexPageExample` | tools/scripts/spiffsgen.py:196-230 | an index page, byte by byte |
| `SpiffsExample.LookupPageExample` | tools/scripts/spiffsgen.py:120-171 | the lookup page of the first of 16 blocks, byte by byte, with its magic number 0x0439 |
| `Spiffs.RegisterId` | tools/scripts/spiffsgen.py:289-300 | the id goes to the lookup page in use or to the next, which always exists |
| `Spiffs.SpiffsFS.CreateBlock` | tools/scripts/spiffsgen.py:367-374 | a block is refused if and only if the image has no more |
| `Spiffs.SpiffsFS.BeginObj` | tools/scripts/spiffsgen.py:302-317 | fails if and only if the block is full, and otherwise appends one index page |
| `Spiffs.SpiffsFS.UpdateObj` | tools/scripts/spiffsgen.py:319-328 | fails if and only if the block or the index page is full, and otherwise appends a data page and its reference |
| `Spiffs.SpiffsFS.ContinueInNewBlock` | tools/scripts/spiffsgen.py:417-427 | going on in a new block keeps what is written readable, and fails only when the image is full |
| `Spiffs.SpiffsFS.CreateFile` | tools/scripts/spiffsgen.py:379-433 | ends, and then the file is stored beside all earlier ones, or its name was too long, or the whole image is full |
| `Spiffs.FilesReadBack` | tools/scripts/spiffsgen.py:379-433 | every file of the image reads back from its pages, whose spans run from 0 on |
| `Spiffs.PagesFit` | tools/scripts/spiffsgen.py:63-65 | no block has more pages than it has room for |
| `FindBit.Ffs` | lichee/rtos-components/aw/sunxi-rpc/find_bit.c:36-65 | the halving steps find the lowest set bit of a word that is not zero |
| `FindBit.Fls` | lichee/rtos-components/aw/sunxi-rpc/find_bit.c:67-96 | and the highest |
| `FindBit.FindNext` | lichee/rtos-components/aw/sunxi-rpc/find_bit.c:98-128 | the word-wise search returns the first wanted bit at or after the start, or the size, for one map or two, inverted or not |
| `FindBit.FindNextZeroBit` | lichee/rtos-components/aw/sunxi-rpc/find_bit.c:139-143 | the first clear bit at or after the start |
| `FindBit.FindNextAndBit` | lichee/rtos-components/aw/sunxi-rpc/find_bit.c:145-150 | the first bit set in both maps |
| `FindBit.FindFirstBit` | lichee/rtos-components/aw/sunxi-rpc/find_bit.c:155-165 | the first set bit, or the size |
| `FindBit.FindFirstZeroBit` | lichee/rtos-components/aw/sunxi-rpc/find_bit.c:170-180 | the first clear bit, or the size |
| `FindBit.FindLastBit` | lichee/rtos-components/aw/sunxi-rpc/find_bit.c:182-197 | the last set bit, or the size |
| `Bitmap.RangeStep` | lichee/rtos-components/aw/sunxi-rpc/bitmap.c:63-73 | one masked word changes the bits of the range that lie in it and no others |
| `Bitmap.BitmapSet` | lichee/rtos-components/aw/sunxi-rpc/bitmap.c:56-74 | sets exactly the bits of the range |
| `Bitmap.BitmapClear` | lichee/rtos-components/aw/sunxi-rpc/bitmap.c:76-94 | clears exactly the bits of the range |
| `Bitmap.ClearUndoesSet` | lichee/rtos-components/aw/sunxi-rpc/bitmap.c:56-94 | clearing what was set in a clear area restores the map |
| `Bitmap.AlignedAbove` | lichee/rtos-components/aw/sunxi-rpc/bitmap.c:107-108 | for every mask the masking gives an index that is not smaller and, with the offset added, has none of the mask's bits |
| `Bitmap.AndNotRounds` | lichee/rtos-components/aw/sunxi-rpc/bitmap.c:107-108 | for a mask of low bits, masking with the complement is rounding down |
| `Bitmap.AlignedLeast` | lichee/rtos-components/aw/sunxi-rpc/bitmap.c:107-108 | for such a mask the masking gives the least aligned index that is not smaller |
| `Bitmap.AlignedLeastExact` | lichee/rtos-components/aw/sunxi-rpc/bitmap.c:107-108 | the masking gives the least aligned index, for every start and offset, if and only if the mask is one less than a power of two |
| `Bitmap.FindNextZeroArea` | lichee/rtos-components/aw/sunxi-rpc/bitmap.c:96-119 | for every mask, returns an aligned area of clear bits at or after the start, or a value beyond the size; for a mask of low bits the least one, if and only if there is one; the jumps backwards end |
| `Md5Rounds.F1IsF` | lichee/rtos-components/thirdparty/md5/md5.c:161-162 | the shorter form of the first core function is that of RFC 1321 |
| `Md5Rounds.F2IsG` | lichee/rtos-components/thirdparty/md5/md5.c:163 | the second, with its arguments exchanged, is too |
| `Md5Rounds.Round1` | lichee/rtos-components/thirdparty/md5/md5.c:186-201 | the sixteen steps written out are those of the table-driven round of section 3.4 |
| `Md5Rounds.RotateBit` | lichee/rtos-components/thirdparty/md5/md5.c:168-170 | the shifts of a step turn the word: each bit comes from s places below, those at the top come in at the bottom |
| `Md5Rounds.Transform` | lichee/rtos-components/thirdparty/md5/md5.c:176-258 | the 64 steps are the compression of section 3.4 |
| `Md5.BitCount` | lichee/rtos-components/thirdparty/md5/md5.c:73-80 | the two words with their carry hold the length in bits modulo 2^64, and tell how full the block is |
| `Md5.PaddedBlocks` | lichee/rtos-components/thirdparty/md5/md5.c:123-147 | the padding of sections 3.1 and 3.2 ends in this block or in the next, as the code decides |
| `Md5.FoldAdd` | lichee/rtos-components/thirdparty/md5/md5.c:98-106 | blocks can be folded in any grouping |
| `Md5.MD5Context.Update` | lichee/rtos-components/thirdparty/md5/md5.c:68-111 | the context stands for the message so far followed by the new piece, however it is cut |
| `Md5.MD5Context.Final` | lichee/rtos-components/thirdparty/md5/md5.c:117-157 | the digest is that of RFC 1321 for the whole message, and the context is wiped |
| `Md5.Md5Sum` | lichee/rtos-components/thirdparty/md5/md5.c:264-272 | the digest of one string |
| `Md5.Md5File` | lichee/rtos-components/thirdparty/md5/md5.c:297-307 | the digest of a file does not depend on the pieces it is read in |
| `Md5Example.DigestExample` | lichee/rtos-components/thirdparty/md5/md5.c:68-259 | the digest of "a" is the one of the test suite in section A.5 of RFC 1321, which fixes start, constants, shifts and order of bytes |
| `RingBuffer.RingWritten` | lichee/rtos-components/aw/ringbuffer/ringbuffer.c:263-277 | what is written behind the contents of a ring is appended to them, across the wrap |
| `RingBuffer.HalRingbuffer.Get` | lichee/rtos-components/aw/ringbuffer/ringbuffer.c:184-244 | removes the longest beginning of the queue up to the size asked for |
| `RingBuffer.HalRingbuffer.Put` | lichee/rtos-components/aw/ringbuffer/ringbuffer.c:246-290 | appends the longest beginning of the data that fits |
| `RingBuffer.HalRingbuffer.ForcePut` | lichee/rtos-components/aw/ringbuffer/ringbuffer.c:292-352 | leaves exactly the last bytes of queue and data, as many as the buffer holds |
| `RingBuffer.HalRingbuffer.Reset` | lichee/rtos-components/aw/ringbuffer/ringbuffer.c:130-136 | leaves the queue empty |
| `RingBuffer.HalRingbuffer.IsEmpty` | lichee/rtos-components/aw/ringbuffer/ringbuffer.c:173-182 | tells whether the queue is empty |
| `RingBuffer.HalRingbuffer.IsFull` | lichee/rtos-components/aw/ringbuffer/ringbuffer.c:168-171 | tells whether it has no room |
| `VirtLog.HeldStep` | lichee/rtos-components/aw/virt_log/virt_log.c:138-152 | writing moves the ring along: it holds the last characters logged, as many as it has room for |
| `VirtLog.CountedStep` | lichee/rtos-components/aw/virt_log/virt_log.c:70-152 | laps and places go on telling how much was logged since the last flush, or that it is more than the ring holds |
| `VirtLog.FlushExact` | lichee/rtos-components/aw/virt_log/virt_log.c:168-190 | what a flush prints is the surviving end of what was logged since the flush before if and only if the 32-bit lap counters have not come round to look like fewer laps |
| `VirtLog.VirtLog.Put` | lichee/rtos-components/aw/virt_log/virt_log.c:56-77 | adds one character to what was logged |
| `VirtLog.VirtLog.PutBufLen` | lichee/rtos-components/aw/virt_log/virt_log.c:117-156 | adds a string; of one longer than the ring only the end is written |
| `VirtLog.VirtLog.Flush` | lichee/rtos-components/aw/virt_log/virt_log.c:158-198 | prints the surviving end of what was logged under that condition, and starts counting anew |

## Left out

- bzip2 input and output: the fill, flush and error callbacks, and allocation. The input is one buffer.
- BunzipHeader.ReadHeader: covers headers that the input holds completely and whose selectors name groups. After the end of the input the code reads past the buffer, because the count it compares with has changed.
- BunzipHeader.ReadSelectors: the same; a selector one past the groups takes an entry of the list that is left over from an earlier block.
- BunzipOutput.Bunzip2: covers files all of whose headers and blocks are defined in this sense, and no run of which writes outside the buffer; what such a write does is not part of this model.
- BunzipBlock.DecodeData: says only that it ends once the input has ended inside the block, because the code then reads past its buffer and bits may be any.
- LZMA input and output: reading the header's sizes, the fill, flush and error callbacks and their failures. The flush callback collects its bytes.
- LZMA: size_t positions are unbounded; without a flush callback the output is limited to 2^31 bytes, as the signed position in `peek_old_byte` demands.
- LzmaRoundTrip.Unlzma: requires that the first two flags of the input do not say repeated distance, as they do in no legal stream, because such a packet reads before the buffer; an end mark stops and a new distance is refused. Without a flush callback the buffer holds what is announced, or else the input is legal and the buffer holds what it means, because nothing checks the end of the buffer.
- LzmaDecoder.Decoder.Decode: for input that codes no legal stream only safety, the bound on the output and the reason for ending are stated, because the result is then whatever the bits happen to say.
- memheap: locks, the asserts on magic numbers, pool pointers, detaching, and writes of the users into headers. Each field of the headers is a map from addresses. A pool has room for two headers.
- rpbuf: transmission, acknowledgement and synchronisation; callbacks and waiting for them; message bytes; failing notifications and allocations; address remapping; registration of controllers and services. Lists are sequences. One locked section, with the message that is sent right after it, is one step.
- RpbufProtocol.Agreement: covers runs of allocations and deliveries, because with frees and ids that are used again a destruction message can mean another buffer.
- SPIFFS: directory walking and arguments; a reading of whole files from the bytes alone, which would have to know how full each data page is. The current index page is held by its place instead of an alias. Page sizes are multiples of id lengths. The logarithm of the page size is taken to be exact.
- SPIFFS without magic numbers: the builder then joins text to bytes, which Python 3 refuses; the command line cannot switch them off.
- Spiffs.SpiffsFS.CreateFile: says nothing of the pages of a file that was begun when the image turned out to be full, because the program then stops.
- Bitmaps: words have 32 bits; indices do not overflow.
- Bitmap.FindNextZeroArea: claims the least area only for masks of low bits, because rounding with any other mask jumps over some aligned index.
- MD5: printing, opening and reading errors of files. Pieces are shorter than 2^32 bytes, as their length is an unsigned int.
- Ring buffer: blocking waits, events and thresholds, `hal_ringbuffer_resize`, which changes the storage but not its length, and `hal_ringbuffer_valid` of a full buffer, which it reports as empty.
- Log: `virt_log_put_buf`, which wraps without counting the lap; allocation of the buffer and the flags that switch it off. Interrupts are disabled in each operation, which is one step.
- All: hardware, operating system and allocation of memory.
