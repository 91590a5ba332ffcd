# Verification of go-wim

A Dafny model of go-wim, a library that writes and reads Windows Imaging (WIM) files, with proofs about its
three layers:

- **The LZX codec.** A chunk of up to 32 KiB is E8-translated, cut into tokens by a hash-chain match finder with
  lazy matching, coded with length-limited Huffman codes whose lengths are delta- and run-coded, and packed into
  16-bit little-endian words. The decoder undoes all of it by other means.
- **Chunked resources.** A resource is a table of offsets followed by chunks that are coded independently. Any
  byte range is read by decoding only the chunks it touches, through a one-chunk cache and remembered tables.
- **Images.** A captured tree becomes metadata (a breadth-first layout of records that point at each other), its
  streams are stored once each, and a table of all that was stored seals the file. The reader opens the file,
  chases offsets through metadata that may be anything, and looks paths up.

Each layer rests on the one before. The theorems at the top are:

- `ChunkRoundTrip.CompressedIsRestored`: whatever `Compress` emits is smaller than its input, and `Decompress`
  restores it.
- `RandomAccess.ReadsRangeLzx`: any byte range read from what the writer stored is that range of the original, or
  is refused when the original is longer than the reader takes.
- `WimRoundTrip.VisitRestored` with `WimRoundTrip.PathsRestored`: once a writer has been closed, every file and
  directory of every image it added is found at its path with its attributes, write time and content, and no
  other path is there. `OpenedWim.VisitOpens` joins this to the reader's cached reads: a file found that way can be
  opened, and is then read in pieces of any size.

Round trips alone would let an encoder and a decoder err together, and the reader opens files other programs wrote.
So what is read is also described on its own, by what lies in the bytes, and reading is proved to follow it:

- `ChunkGrammar.AnyChunkIsDecoded` with `ChunkAcceptance.AcceptedIsWritten`: a grammar of LZX chunks, with verbatim,
  aligned and uncompressed blocks and trees told as changes to those of the block before. Every chunk of the grammar
  is decoded to what its blocks mean, whoever chose trees and matches, and nothing else is accepted.
- `MetadataGrammar.TreeIsParsed` with `MetadataGrammar.ParsedLies`: where entries, stream lists and child lists lie in
  metadata. A tree that lies there is parsed as what its entries are records of, and nothing else is parsed.
- `RandomAccess.AnyResourceReads`: a compressed resource by its table and chunks; every range read of it is right.
- `BlobTable.ScanAccepts` and `WimHeader.HeaderAccepted`: which tables and headers are accepted, byte by byte.

## How it is built

Code that updates things in place is a method over arrays or a class; its contract equates what it computes with
a function, and the lemmas are about those functions. The functions restate the format, and the round trips are
what ties the encoder's to the decoder's: neither is defined in terms of the other.

| Part | Files |
|---|---|
| Bits and the bit stream | `Arithmetic`, `Bits`, `BitStream`, `BitFields`, `Readers` |
| Prefix codes | `Canonical`, `DecodeTable`, `EncodeTable` |
| Huffman's algorithm and the length limit | `HuffmanTree`, `HuffmanDepths`, `HuffmanRun`, `HuffmanQueues`, `HuffmanOptimal`, `HuffmanCode`, `SteepCode`, `SymbolOrder`, `Clamp`, `OneBitCode`, `AssignLengths`, `ClampCost` |
| Trees as bits | `TreeCodec`, `TreeReader`, `TreeWriter` |
| Tokens and matches | `Slots`, `Tokens`, `MatchFinder`, `MatchChoice`, `TokenCodec`, `TokenReader` |
| Chunks | `E8`, `ChunkFormat`, `ChunkGrammar`, `ChunkAcceptance`, `ChunkEncode`, `BlockChoice`, `ChunkRoundTrip`, `ChunkEncoder`, `ChunkCompressor`, `ChunkDecoder` |
| Resources | `LittleEndian`, `Chunks`, `ResourceFormat`, `RandomAccess`, `ResourceReader`, `FileReader`, `WorkerPool`, `ResourceWriter` |
| Metadata | `Names`, `Dentries`, `DentryBounds`, `MetadataGrammar`, `MetaParser`, `Records`, `Layout`, `Placement`, `MetadataQueue`, `MetadataEncoder`, `TreeRoundTrip`, `TreeLimits`, `TreeMeasures` |
| The file | `Capture`, `Rereading`, `BlobTable`, `ReferenceCounts`, `SealedTable`, `WimHeader`, `WriterState`, `SealedWim`, `ImageRecords`, `WimWriter`, `WimRoundTrip`, `FileTree`, `OpenedWim` |

`dafny verify dfyconfig.toml` checks all of it.

## What the proofs found

- The writer takes trees that the reader refuses. Metadata parses back exactly when the tree is within the
  reader's limits (`MetadataEncoder.EncodeMetadata`, an if and only if): 64 nested directories can be read back and
  65 cannot (`TreeLimits.ChainWithinLimits`), though both are captured and encoded. On the walk that is captured,
  the limits are at most 2^20 visits and at most 63 names in a directory's path (`TreeMeasures.ShallowIsWithin`).
- Nor does the writer enforce the reader's limit of 64 GiB on a resource: what it stores is read back exactly when
  it is no longer than that, and every read of it is refused otherwise (`RandomAccess.ReadsRange`).
- A resource header survives being written and read just when its size is below 2^56 (`BlobTable.ResHdrRoundTrip`):
  the size field has seven bytes and is cut to them silently.
- `lzx/huffman.go:125-126` says the length-limit repair deepens the shallowest symbols first and so costs the
  fewest bits. It does not always. Lengthening a one-bit code frees a quarter of the code space, of which the code
  that was too long takes up only a little; the second loop hands out what is left, but giving the bit back would
  take a whole quarter. So a one-bit code survives the repair exactly when no code was over the limit
  (`OneBitCode.OneBitSurvives`, `ClampCost.OneBitKept`).
  `ClampCost.RepairIsNotCheapest` gives frequencies, for any alphabet of 18 symbols or more, for which that is dear:
  within 16 bits the assigned code costs at least 32000 bits, and a complete code of 31106 exists. The repaired code
  is always complete and within the limit (`Clamp.ClampedIsComplete`), and it is the cheapest possible whenever
  Huffman's own is within the limit (`AssignLengths.AssignedIsOptimal`). Over the limit it may be the cheapest all
  the same: it is when every code of the limit's length is needed (`ClampCost.CrowdedIsCheapest`).
- A failed read of a chunk table is remembered like a successful one: every later read that needs the table fails
  too, and a read fails for no other reason than that or a fault of its own (`ResourceReader.Reader.ReadResourceAt`,
  an if and only if).
- Of the two ways to code the low offset bits, `alignedPays` could in principle be asked about a symbol with no code,
  and would answer no (`ChunkEncoder.Pays`); the lengths it is given always have one.

## Model

| member | source | states |
|---|---|---|
| `BitStream.BitWriter.Write` | lzx/encode.go:48-61 | the stream grows by exactly the low n bits of v, with at most 15 bits pending between calls |
| `BitStream.BitWriter.Flush` | lzx/encode.go:65-72 | the bytes out are all the bits written, packed most significant first into little-endian words, zero-filled |
| `BitStream.BitReader.Feed` | lzx/decode.go:25-37 | the accumulator holds sixteen more bits of the stream, a lone last byte and the end of input included |
| `BitStream.BitReader.Bits` | lzx/decode.go:40-51 | returns the number the next n bits of the stream spell, and moves past just those |
| `BitStream.PackedIsFlushed` | lzx/encode.go:64-72 | packed bits are what the stream of those bytes holds, and zeros for ever after |
| `BitStream.StreamBitIs` | lzx/decode.go:25-37 | which bit of which byte is bit k of the stream: of each pair the second byte comes first, each from its top bit down, and past the end come zeros |
| `BitFields.FieldsReadBack` | lzx/encode.go:48-72 | any numbers written one after another, flushed and read back come out in order as v mod 2^n, then zeros for ever |
| `Canonical.PrefixFree` | lzx/huffman.go:175-199 | in a complete code no symbol's code is a prefix of another's |
| `Canonical.CodeFits` | lzx/huffman.go:175-199 | every code fits its own length |
| `Canonical.CodeIsEarlier` | lzx/huffman.go:175-199 | a code is the room the codes before it take up, those of shorter lengths and those of its length with smaller numbers: codes start at zero and leave no gap |
| `Canonical.ReadsCode` | lzx/decode.go:108-127 | fed a symbol's code and then anything, the decoder returns that symbol having consumed exactly its length |
| `Canonical.AlwaysDecodes` | lzx/decode.go:108-127 | with a complete code every bit stream decodes to some symbol within the longest length |
| `Canonical.AbsentDecodesNothing` | lzx/decode.go:109-127 | the empty tree decodes nothing |
| `DecodeTable.Huffman.Build` | lzx/decode.go:65-106 | accepts exactly the complete codes and the empty one, and lays the table out so that it can be decoded with |
| `DecodeTable.Sym` | lzx/decode.go:109-127 | the bit-at-a-time decode returns the symbol the code says, and sets err only when there is none |
| `EncodeTable.CanonicalCodes` | lzx/huffman.go:175-199 | gives every symbol its canonical code: those of `Canonical.PrefixFree` and `Canonical.ReadsCode` |
| `HuffmanTree.FrontIsLeast` | lzx/huffman.go:59-107 | both queues stay in order, and the node taken next is one of least weight |
| `HuffmanQueues.Next` | lzx/huffman.go:59-107 | takes the front of the two queues and leaves the rest |
| `HuffmanQueues.MergeQueues` | lzx/huffman.go:59-107 | the node array ends up standing for the tree that joins the two least until one is left |
| `HuffmanCode.TreeShape` | lzx/huffman.go:59-107 | the tree has one leaf for each symbol that occurs, and no other |
| `HuffmanCode.UnlimitedIsComplete` | lzx/huffman.go:59-107 | the lengths are a complete code (Kraft sum exactly 1) of just the symbols that occur |
| `HuffmanOptimal.LowerBound` | lzx/huffman.go:59-107 | every prefix code costs at least what merging the two least weights repeatedly costs |
| `HuffmanCode.HuffmanIsOptimal` | lzx/huffman.go:59-107 | no prefix code for the symbols that occur has a smaller weighted length |
| `HuffmanCode.DepthForcesWeight` | lzx/huffman.go:59-107 | a symbol at depth d forces a total frequency of at least Fib(d + 2) |
| `HuffmanCode.DepthFitsByte` | lzx/huffman.go:59-107 | so a depth stored in a byte is never cut short |
| `AssignLengths.HuffmanLengths` | lzx/huffman.go:59-107 | fills the array with the depths of Huffman's tree |
| `Clamp.SomeSymbolFits` | lzx/huffman.go:149-169 | while the code is short of full some symbol can be shortened, so the loop never gives up |
| `Clamp.DeepestIs` | lzx/huffman.go:151-166 | the symbol shortened next is the first of the deepest that fit, and there is none just when none fits |
| `Clamp.DeepenInOrder` | lzx/huffman.go:127-147 | symbols are lengthened to the limit one after another, shallowest first by their capped lengths, and the last no further than the code needs to fit |
| `Clamp.DeepenFits` | lzx/huffman.go:125-147 | with no more symbols than 2^limit, lengthening brings the code within the Kraft bound, so the loop never gives up |
| `Clamp.ClampedIsComplete` | lzx/huffman.go:112-170 | from any lengths, the repaired ones are a complete code within the limit, of the same symbols |
| `Clamp.ClampedLeavesAlone` | lzx/huffman.go:112-170 | a complete code within the limit is left as it is |
| `OneBitCode.CapOverfills` | lzx/huffman.go:114-123 | a complete code cut to the limit is never under-full, and is over-full if anything was cut |
| `OneBitCode.OneBitSurvives` | lzx/huffman.go:112-170 | of any complete code, a one-bit code is left by the repair exactly when no length is over the limit |
| `SteepCode.SteepHeight` | lzx/huffman.go:59-107 | when each weight is more than all but the last of those before it together, the tree is a chain as high as the alphabet allows |
| `SteepCode.BoundedByHeight` | lzx/huffman.go:59-107 | Huffman's lengths are within a limit exactly when the tree's height is |
| `ClampCost.OneBitKept` | lzx/huffman.go:23-53 | an assigned one-bit code is Huffman's own kept exactly when Huffman's tree is within the limit |
| `ClampCost.RepairIsNotCheapest` | lzx/huffman.go:23-53 | within 16 bits, frequencies of total 20180 whose assigned code costs at least 32000 where a complete code of 31106 exists |
| `ClampCost.CrowdedIsCheapest` | lzx/huffman.go:112-170 | with as many symbols in use as there are codes of the limit's length, the assigned code costs what every code within the limit costs |
| `AssignLengths.ClampLengths` | lzx/huffman.go:112-170 | does the repair of `Clamp.ClampedIsComplete` in place |
| `AssignLengths.Assign` | lzx/huffman.go:23-53 | the lengths for an alphabet, with none or one symbol in use too |
| `AssignLengths.AssignedIsUsable` | lzx/huffman.go:23-53 | they are always lengths `build` accepts, within the limit, and every symbol that occurs has one |
| `AssignLengths.AssignedIsOptimal` | lzx/huffman.go:23-53 | they are the cheapest of all prefix codes when Huffman's tree is within the limit; over it they may be or not |
| `TreeCodec.PiecesSay` | lzx/encode.go:367-418 | the greedy run splits together say exactly the lengths |
| `TreeCodec.PiecesAreWidest` | lzx/encode.go:367-418 | at every place the writer takes the widest run the pre-tree has a symbol for |
| `TreeCodec.PretreeIsFit` | lzx/encode.go:420-441 | the pre-tree is one the reader accepts, fits its 4-bit fields and has a code for every item |
| `TreeCodec.UndeltaDelta` | lzx/decode.go:147-175 | against any previous length, a symbol says the one length that adds up with it to the previous one modulo 17, and each length is said by one symbol |
| `TreeCodec.TreeUpdates` | lzx/decode.go:131-183 | any writer's tree, with a pre-tree and runs of its own choice, read over the lengths it was told against, gives its lengths to the last bit |
| `TreeCodec.TreeReadsBack` | lzx/encode.go:367-442 | a tree read over all-zero lengths restores every length 0 to 16 and stops at exactly the last bit written |
| `TreeWriter.WriteTree` | lzx/encode.go:367-442 | appends just the bits of `TreeCodec.TreeReadsBack` |
| `TreeReader.ReadTree` | lzx/decode.go:131-183 | updates the lengths in place as the tree's bits say, or refuses, leaving the rest of the array alone |
| `Slots.TablesAreSlots` | lzx/lzx.go:61-73 | both slot tables are the sequences they stand for: each slot begins where the one before it ends |
| `Slots.SlotIsUnique` | lzx/encode.go:204-210 | the slots partition the offsets: an offset in a slot's range is in no other, and is given that slot |
| `Slots.OffsetSlot` | lzx/encode.go:185-192 | an offset in the window has a slot from 3 to 29, and what is left fits that slot's bits |
| `Slots.LastOffset` | lzx/encode.go:204-210 | the last adjusted offset of the window is the last one of slot 29 |
| `Slots.FindPositionSlot` | lzx/encode.go:204-210 | the table scan finds the slot whose range the offset is in |
| `MatchFinder.FarthestMatch` | lzx/encode.go:230-237 | a match of three bytes never reaches slot 30, and just one match reaches the last offset |
| `Tokens.MatchTokenMeans` | lzx/encode.go:170-201 | a match's token is inside the alphabets, and the decoder makes of it the same length, offset and recent offsets |
| `Tokens.MatchTokenRecents` | lzx/encode.go:170-201 | a match reuses the first recent offset equal to its own, which changes places with the first and leaves the third alone; any other offset is put before the first two |
| `Tokens.SymbolSays` | lzx/decode.go:284-292 | a match symbol is 256 and eight times the slot and the length above 2, of which 7 calls for a length symbol |
| `Tokens.CopySwaps` | lzx/decode.go:295-298 | of slots 0 to 2: the copy is from that recent offset, which changes places with the first, and the remaining one stays |
| `Tokens.CopyShifts` | lzx/decode.go:299-319 | of the other slots: the copy is from the slot's base and the offset bits less 2, which goes first and moves the first two down |
| `Tokens.CopyReproduces` | lzx/decode.go:325-327 | copying a match, overlapping itself or not, reproduces the data |
| `MatchFinder.LongestSound` | lzx/encode.go:230-263 | whatever is found, by recent offset or by chain, does occur that far back |
| `MatchFinder.LongestIsMost` | lzx/encode.go:230-263 | no match is longer than the one found, neither at a recent offset nor at any of the latest 64 positions with the same three-byte hash |
| `MatchChoice.LongestIsOffered` | lzx/encode.go:230-263 | what is found is a match at a recent offset or one of the latest 64 positions of that hash |
| `MatchChoice.LongestIsFirst` | lzx/encode.go:230-263 | none of those is longer, and of the longest it is a recent one if any is and else the nearest |
| `MatchChoice.TokensWellChosen` | lzx/encode.go:135-166 | of every token, in the matches of the data: a literal is coded just when no match of 3 bytes is on offer or one at the next position is strictly longer than all of them, and a match has the greatest length on offer |
| `MatchFinder.Hash3Is` | lzx/encode.go:213-216 | the hash in numbers: the top fifteen of the low 32 bits of the product |
| `MatchFinder.TokensExpand` | lzx/encode.go:135-166 | the tokens expand to exactly the data under the decoder's copy rule, with lazy matching skipping and repeating nothing |
| `MatchFinder.FindMatches` | lzx/encode.go:135-166 | gives just the tokens of `MatchFinder.TokensExpand` and `MatchChoice.TokensWellChosen`, whatever earlier chunks left in the chains |
| `MatchFinder.FindLongest` | lzx/encode.go:230-263 | walking the arrays finds what the chains of the positions inserted so far hold |
| `MatchFinder.Insert` | lzx/encode.go:219-226 | keeps the arrays the chains of just the positions inserted |
| `TokenCodec.TokenRead` | lzx/encode.go:343-361 | a token's bits, read by a decoder of the same trees, produce what the token stands for, to the last bit |
| `TokenCodec.TokensRead` | lzx/decode.go:271-330 | tokens written and read produce what they stand for, bytes and recent offsets, and reading stops at their last bit |
| `TokenReader.CopyWithin` | lzx/decode.go:325-327 | copies within the window a byte at a time, and nothing past it |
| `TokenReader.ReadCompressed` | lzx/decode.go:271-330 | fills the window with what the bits say, or refuses: bad offsets, overruns and missing codes included |
| `E8.OperandInverse` | lzx/encode.go:455-462 | the two translations of an operand are inverse, permute [-pos, 12000000) and fix everything else |
| `E8.OperandIsTarget` | lzx/encode.go:455-462 | encoding makes of a displacement the target it leads to, displacement and position added up, wherever that lies in the 12000000, and decoding subtracts; outside, they differ by one turn |
| `E8.TranslateInverse` | lzx/decode.go:392-411 | both scans visit the same calls, so one undoes the other on every buffer |
| `E8.TranslatesCalls` | lzx/encode.go:447-465 | just the operands of the calls change, each to its translation at its position |
| `E8.TranslateBuffer` | lzx/encode.go:447-465 | translates a buffer in place, and only its first n bytes |
| `ChunkEncoder.Tally` | lzx/encode.go:275-294 | counts how often each symbol of a tree is needed |
| `ChunkEncoder.Pays` | lzx/encode.go:298-312 | says yes exactly when every aligned symbol in use has a code and coding them all costs less than three raw bits each, the tree's 24 bits included |
| `BlockChoice.ShorterBlock` | lzx/encode.go:296-312 | the decision picks the aligned block just when it is shorter, and what is written is the block picked |
| `ChunkEncoder.EmitBlock` | lzx/encode.go:315-362 | appends just the bits of the one block |
| `ChunkCompressor.Compressor.Compress` | lzx/encode.go:104-131 | succeeds exactly when the encoding is smaller than the chunk and fits; the result depends only on the input, never on the compressor's history; declining leaves the output alone |
| `ChunkRoundTrip.EncodedIsRestored` | lzx/decode.go:365-387 | every chunk of 1 to 32768 bytes, encoded, is decoded to itself, whether or not encoding it paid |
| `ChunkRoundTrip.CompressedIsRestored` | lzx/encode.go:104-131 | what `Compress` emits is smaller than the chunk, and `Decompress` restores the chunk exactly |
| `ChunkGrammar.AnyChunkIsDecoded` | lzx/decode.go:365-387 | a sequence of blocks of any kinds and sizes, laid in the data as the format says, is decoded to what the blocks mean, trees, recent offsets and alignment carried from block to block |
| `ChunkAcceptance.AcceptedIsWritten` | lzx/decode.go:365-387 | the converse: data that is accepted has such blocks, and is decoded to what they mean |
| `ChunkAcceptance.OneMeaning` | lzx/decode.go:365-387 | data read as blocks in two ways means the same bytes |
| `ChunkDecoder.Decoder.ReadBlockHeader` | lzx/decode.go:227-268 | reads a header of any of the three kinds of block, realigning after an odd uncompressed one |
| `ChunkDecoder.Decoder.ReadOneBlock` | lzx/decode.go:333-361 | decodes one block of any kind into the window, or refuses |
| `ChunkDecoder.Decompress` | lzx/decode.go:365-387 | on any bytes, terminates in bounds with the decoded chunk of just the asked length, or refuses |
| `Chunks.LzxIsCodec` | lzx/lzx.go:20-23 | the LZX codec is a codec: smaller when it succeeds, and restored |
| `Chunks.LoadsStored` | resource.go:255-271 | stored size equal to decoded size tells raw chunks from coded ones, always |
| `Chunks.CeilingIs` | writer.go:437 | rounding the division up counts the chunks |
| `ResourceWriter.EncodeChunk` | writer.go:515-526 | a chunk is stored coded when that is smaller, and raw otherwise |
| `ResourceWriter.EncodeChunks` | writer.go:472-510 | every chunk at its own index |
| `ResourceWriter.CompressResource` | writer.go:435-464 | the table and the chunks, and whether that is smaller |
| `ResourceWriter.StoreResource` | writer.go:397-413 | metadata is stored compressed even when that does not pay, anything else just when it is smaller; the stored size is the smaller one |
| `WorkerPool.ScheduleDoesNotMatter` | writer.go:472-510 | under every interleaving each slot is written once, with its own chunk's code |
| `WorkerPool.ParallelIsSequential` | writer.go:466-510 | the parallel result is the sequential one |
| `WorkerPool.Finishes` | writer.go:494-509 | from every reachable state some schedule has all the workers finish |
| `WorkerPool.StepProgresses` | writer.go:494-508 | every step of an unfinished worker brings the end nearer |
| `RandomAccess.OffsetsExpected` | resource.go:80-119 | of any resource laid out so, the table read is the starts of its chunks |
| `RandomAccess.TableAccepted` | resource.go:65-120 | every such table passes all the reader's checks |
| `RandomAccess.AnyResourceReads` | resource.go:153-284 | whoever wrote it: with entries of 4 or 8 bytes counted from the table's end, and each chunk raw at its own size or coded, every range read is that range of the data |
| `RandomAccess.ImplausibleIsRefused` | resource.go:295-316 | a resource that declares more than 64 GiB, more than its stored bytes can describe, or a raw size other than its own is refused whatever the file holds |
| `RandomAccess.OwnLayout` | writer.go:435-464 | what this writer stores compressed is laid out so |
| `RandomAccess.ReadsRange` | resource.go:153-187 | for any codec: a read returns the range it names as far as there is any, with EOF exactly when it reaches past the end; a negative offset, and a resource of more than 64 GiB, are refused |
| `RandomAccess.ReadsRangeLzx` | resource.go:153-284 | the same, with the codec the writer uses |
| `ResourceReader.Reader.ChunksOf` | resource.go:47-58 | a table is read once; what is remembered, for good, is what the file says, or that the read failed |
| `ResourceReader.Reader.ReadChunkTable` | resource.go:65-120 | reads and checks the table, with no overflow passed over |
| `ResourceReader.Reader.LoadCached` | resource.go:236-271 | a chunk comes from the cache or the file with the same result, and no failure leaves the cache claiming a chunk it does not hold |
| `ResourceReader.Reader.ReadChunkedAt` | resource.go:210-284 | serves the range the uncached read serves, and fails exactly on a fault now or a remembered failure of the table |
| `ResourceReader.Reader.ReadResourceAt` | resource.go:153-187 | through any history of cached, failed and corrupt reads, reports just what a read with nothing kept reports; fails exactly on a fault now, or when it needs a table whose read failed once |
| `ResourceReader.Reader.ReadResourceOnce` | resource.go:228-230 | a read given no cache reports the same, and fails in just the same cases |
| `FileReader.File.ReadAt` | fs.go:143-153 | reports the range of the file's content it names, whatever was read before, and fails exactly on a fault or a remembered one |
| `FileReader.File.Read` | fs.go:135-139 | consecutive reads of any sizes concatenate to the file |
| `Names.DecodesEncoded` | dentry.go:308-313 | a name survives UTF-16, surrogate pairs included |
| `Names.LessTransitive` | dentry.go:202-213 | names are in one order |
| `Names.LessIs` | dentry.go:202-213 | the order is by the first place two names differ in, and a name comes before its own extensions |
| `Records.FieldAt` | metadata.go:91-107 | every field written over a record can be read back |
| `Layout.RecordFields` | metadata.go:91-107 | which bytes of a record hold its length, attributes, security id, child list, three times, hash, name length and name |
| `Layout.RecordGaps` | metadata.go:86-90 | and that all its other bytes are zero |
| `Layout.EntryRead` | dentry.go:216-275 | a record read is the node it was made of, and leads to just what follows it |
| `MetadataQueue.TableEndsAt` | metadata.go:112-129 | the reader finds the tree at the aligned end of the security table exactly when the table's length fits its 32-bit field |
| `MetadataQueue.DescriptorFound` | metadata.go:112-129 | in metadata that begins with the table, descriptor k is found by the count and the lengths before it |
| `Placement.PlaceList` | metadata.go:49-69 | placing one more directory's list overlaps nothing placed before |
| `Placement.FillList` | metadata.go:49-69 | that leaves no gap: every byte laid out so far is a record's or a terminator's, and no two terminators overlap |
| `MetadataEncoder.LayOut` | metadata.go:40-69 | the breadth-first pass gives every record and terminator a place of its own, and together they take up every byte of the buffer |
| `MetadataEncoder.PutDentry` | metadata.go:91-107 | writes one record into its place, and nothing else |
| `MetadataEncoder.EmitTree` | metadata.go:71-77 | the depth-first pass leaves every record and terminator in place, clobbering none |
| `MetadataEncoder.EncodeMetadata` | metadata.go:32-78 | what is encoded parses to just the captured tree if that is within the reader's limits, and is refused if it is not; every node has a record that is read as the node, with its time in all three places and its security descriptor under the number it gives |
| `TreeRoundTrip.ParsesBack` | dentry.go:101-124 | any layout with each record in place parses so, children sorted by name, empty directories included |
| `TreeMeasures.LimitsAre` | dentry.go:186-279 | a captured tree is within the reader's limits exactly when it has at most 2^20 nodes and no directory more than 63 levels down |
| `TreeMeasures.ShallowIsWithin` | dentry.go:186-279 | told from the walk that was captured: at most 2^20 visits, and no directory's path of more than 63 names |
| `TreeLimits.ChainWithinLimits` | dentry.go:186-196 | 64 nested directories can be read back, 65 cannot, though both can be captured |
| `DentryBounds.ListBounded` | dentry.go:186-279 | on any bytes, cyclic offsets among them, a list's node count is what was counted and its nesting is bounded |
| `DentryBounds.ParsedIsBounded` | dentry.go:101-124 | any parsed tree has at most 2^20 entries in at most 65 nested lists, each strictly ascending by name |
| `Dentries.EntrySays` | dentry.go:216-304 | of any entry read: which bytes its fields are; its hash is the first stream's when that has no name and its own is zero; it is missing just when it is a file with a hash no stream has |
| `MetadataGrammar.EntryIsRead` | dentry.go:216-275 | an entry is read exactly where one lies, streams after it stepped over at their aligned lengths, and as what it is a record of |
| `MetadataGrammar.TreeIsParsed` | dentry.go:101-279 | whoever wrote the metadata, a tree that lies in it within the limits is parsed as what its entries are records of, each list sorted |
| `MetadataGrammar.ParsedLies` | dentry.go:101-279 | the converse: metadata that is parsed has such a tree in it |
| `MetaParser.MetaParser.List` | dentry.go:186-279 | terminates on any bytes with the list they hold (`MetadataGrammar.TreeIsParsed`), or refuses; counts every entry |
| `MetaParser.MetaParser.SkipStreams` | dentry.go:243-264 | stepping over streams finds the hash of `Dentries.EntrySays`, moves forward by at least 38 bytes each and stays in bounds |
| `MetaParser.ParseMetadata` | dentry.go:101-124 | the tree the metadata holds, and nothing exactly when it holds none |
| `FileTree.FindChild` | fs.go:105-111 | binary search finds what a look at every child finds |
| `FileTree.SplitJoin` | fs.go:85-101 | joined components are taken apart again |
| `FileTree.ListedAreFound` | fs.go:73-102 | a path joined from listed names finds the listed entry, and any other valid path reports not-exist |
| `FileTree.LookUp` | fs.go:73-102 | the walk by components resolves what the path names |
| `FileTree.Directory.ReadDir` | fs.go:173-187 | repeated calls list each entry once, in order, with EOF at the end |
| `Capture.AddStream` | capture.go:147-155 | a hash seen before gains a reference and keeps its path, a new one is added with this path, and the index stays exact |
| `Capture.CaptureOne` | capture.go:73-172 | refuses a visit exactly when it is a link or irregular, lacks a descriptor, has too long a name or no visited parent |
| `Capture.CaptureTree` | capture.go:67-181 | captures exactly the acceptable walks; the result is a tree of just the visits, with every descriptor once, every stream once under the path of its first file with as many references as files hold it, and the counts of directories and files |
| `BlobTable.ResHdrRoundTrip` | wim.go:76-94 | a resource header survives just when its size fits seven bytes |
| `BlobTable.EncodeBlobTable` | metadata.go:133-143 | the table's bytes |
| `BlobTable.EntryBytes` | metadata.go:133-143 | which of an entry's fifty bytes hold its numbers, the part number 1, the reference count and the hash |
| `BlobTable.ScanAddsAll` | reader.go:198-237 | a table read back adds up to the entries it was written from |
| `BlobTable.MetasAreLive` | reader.go:213-226 | images are the live metadata of any table, in its order; superseded ones are left out |
| `BlobTable.StreamsAreFirst` | reader.go:228-236 | a hash finds the first stream that has it |
| `BlobTable.EmptyIsNoStream` | reader.go:230-236 | the all-zero hash never finds a stream |
| `BlobTable.ScanAccepts` | reader.go:198-212 | a table is accepted just when every entry of it names bytes inside the file, stored in one piece by themselves |
| `BlobTable.OpenedIsSound` | reader.go:169-249 | whatever file is opened, every resource in its index lies in the file, streams and images are told apart, and there are as many images as the header says |
| `BlobTable.ReadBlobTable` | reader.go:169-249 | indexes a table, or refuses it |
| `SealedTable.SortMetas` | writer.go:329-334 | sorting by offset leaves the images in the order they were added |
| `SealedTable.SortedFinds` | writer.go:329-334 | a stream is found by its hash in the sorted table |
| `WimHeader.HeaderReadsBack` | writer.go:529-567 | the 208 bytes written read back to the same chunk size, counts and resource headers |
| `WimHeader.HeaderAccepted` | reader.go:104-167 | a header is accepted just when its bytes are the signature, the size, the version, part one of one, and no codec or LZX with a chunk size that is zero or a power of two up to 32768 |
| `WriterState.TiledApart` | writer.go:397-423 | no two stored resources overlap |
| `WriterState.StillHeld` | writer.go:397-423 | what is written later, and the header over its place, leave stored resources as they were |
| `WriterState.LoggedWhenDue` | writer.go:397-413 | in a file being written, with a codec, metadata is compressed and a stream just when that is smaller, so none takes up more than its own length |
| `WriterState.StreamAdded` | writer.go:278-283 | a new stream keeps hashes unique and agreeing with the index |
| `WriterState.MoreReferences` | writer.go:260-263 | a stream referenced again changes the sum of references by just that |
| `ReferenceCounts.CaptureCounts` | capture.go:147-155 | a capture's references to a hash are the files it found holding it |
| `ReferenceCounts.CountedMore` | writer.go:260-283 | one more image keeps every stream's count at the files of all images that hold it |
| `Rereading.CoveredIsRereadable` | writer.go:253-284 | the streams to be stored can be reread exactly when, of every content not stored before, the first file found with it still gives a content of that hash |
| `WimWriter.Destination.Write` | writer.go:381-392 | writes at the position, over what is there; a failed write leaves a prefix, and is counted |
| `WimWriter.Writer.constructor` | writer.go:200-202 | a new writer has nothing written, over a destination that may hold anything |
| `WimWriter.Writer.Start` | writer.go:363-376 | after it resources begin at byte 208 |
| `WimWriter.Writer.WriteResource` | writer.go:397-423 | one more resource end to end with the rest, held as it was stored and compressed when `WriterState.LoggedWhenDue` says; fails just on a fault |
| `WimWriter.Writer.AddStream` | writer.go:254-284 | references a known stream again, or stores one that still has the hash it was captured with |
| `WimWriter.Writer.AddImage` | writer.go:208-309 | refuses just in the stated cases and then changes nothing; otherwise succeeds exactly when the destination did not fail, nothing was cancelled and every new content could be reread; a failure is final; after it there is one more image, and every stream's references are the files of all images that hold it |
| `WimWriter.Writer.Close` | writer.go:313-357 | refuses just when failed, closed or empty; fails just on a fault of the destination; otherwise the file opens as a WIM whose index is the writer's own tables |
| `SealedWim.TableAgrees` | reader.go:198-237 | what the sealed table adds up to agrees with the writer's blobs, hashes and images |
| `SealedWim.SealedReads` | reader.go:169-249 | the reader accepts the sealed table |
| `SealedWim.BootsMarked` | reader.go:321-333 | the image that boots is the one marked when it was added, or the only one; the header's copy agrees |
| `WimRoundTrip.TreeRestored` | dentry.go:85-98 | the tree of image k of a closed file is the tree captured k-th |
| `WimRoundTrip.PathsRestored` | fs.go:73-102 | a path is found in it just when it was captured |
| `WimRoundTrip.VisitRestored` | writer.go:249-357 | everything captured is found at its path with its name, attributes, write time and content, hash collisions aside |
| `WimRoundTrip.SecurityRestored` | metadata.go:91-129 | everything captured has a record in its image's metadata that gives the number of its security descriptor there, and its time three times |
| `WriterState.LoggedIsKnown` | resource.go:47-58 | no two compressed resources of a writer's file begin at one offset, so a table is remembered for the right one |
| `OpenedWim.VisitOpens` | fs.go:31-47 | a captured file, looked up, can be opened through the cached reader with the content it was captured with |
| `OpenedWim.OpenVisited` | fs.go:31-47 | opening it gives a file at its start that reads that content |
| `WimRoundTrip.StreamReads` | reader.go:228-236 | every stream the writer knows by a hash is read by that hash, and has it |

## Left out

- File and directory access, `fs.WalkDir` and contexts: a capture takes the visits of a walk as a sequence, and giving up between two streams is a nondeterministic choice that is counted.
- SHA-1: any function to twenty bytes, never all zero. Content theorems say the hash agrees, and that the bytes do when no other bytes have that hash.
- XML: `buildXML`, `readXML` and what an image's description says; `Close` takes the description as bytes, and opening reads the header and the table only.
- UTF-8: names and paths are sequences of code points that can be encoded, and are ordered by code point, as Go orders valid UTF-8 strings.
- FILETIME conversion, GUID derivation and the wording of errors: a time is a 64-bit number, a GUID sixteen bytes, and refusals are told apart only where a caller sees the difference (end of file, bad offset, corrupt, failed).
- Goroutines, mutexes and `sync.Once`: the worker pool is atomic steps of workers over one counter, and reads through a cache happen one at a time.
- The contents of named streams, short names, reparse data and anything else of a dentry the reader steps over: only where they end is described.
- `Image`'s memo and `Images`: `ImageMeta` picks the metadata resource; nothing is said of the memo.
- `findMetadataResource` and `metadataBytes`, which only the tests use.
- `ChunkDecoder.Decompress`: the destination is the chunk's length exactly; what a refused decode leaves in it is not stated.
- `ResourceReader.Reader.ReadResourceAt`: the cache's two buffers exist from the start, where the source makes them on first use, and a failed read reports how many bytes were served only as far as the chunks that succeeded. A read given no cache is one with a new cache. Distinct compressed resources are taken to lie at distinct offsets, which the remembered tables rely on; in a file the writer made they do (`WriterState.LoggedIsKnown`).
- `RandomAccess.ReadsRange`: the reader's check of a plausible size is stated without the 64-bit wrap its product has for files of more than 2 PiB.
- `MetadataEncoder.EncodeMetadata`: for security descriptors of less than 4 GiB together, the width of the table's length field, which the source does not check.
- `WimWriter.Writer.Close`: for files below 2^56 bytes, fewer than 2^32 images and fewer than 2^32 files, the widths of the fields that record them, which the source does not check.
- `SealedTable.SortMetas`: the sort keeps entries at equal offsets in order, which `sort.Slice` does not promise; only an entry whose resource is empty shares an offset.
- `E8.TranslateBuffer`: 32-bit wrap is written out with integers; bit operations throughout are their arithmetic equivalents.
- `Slots.FindPositionSlot`: offsets are unbounded where the source's are 32-bit; all that occur are below 32768.
- Slices that alias: a chunk stored raw shares the caller's bytes in the source and is a copy here; nothing writes to either.
