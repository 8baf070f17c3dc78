# Verified model of the archive formats, the calculator and the awk machinery

This project models the hard algorithms of a collection of POSIX utilities written in C, in Dafny, and
proves what they are for:

- **compress** - both formats, both directions. `gzip_compress` (window, hash chains, lazy matching, symbol
  buffer, length-limited Huffman codes from a heap, the choice of the shortest of three block forms, bit
  writer, CRC) and `gzip_decompress` (bit reader, canonical codes, block types, window, header and trailer)
  are each proved against a reference decoder, a function from bits to bytes and an error; together they
  give the round trip. Which files the decompressor takes, and what they mean, is also said without it, as a
  form that bits have or have not (`GzipForm.Accepted`). The same is done for LZW, whose encoder and decoder keep different tables that must
  stay one entry apart.
- **bc** - magnitudes in base 10^9 with Knuth's algorithm D, the school product, Newton's square root; numbers
  with sign and scale, their truncating division, remainder, power and root; printing and parsing in any
  base; the exponential with a bound on its error.
- **awk** - the record that is split and put together only when needed, against one that does both at once;
  and the arrays, a chained hash table threaded in the order of creation, against a map with an order.
- **bc's names** - dynamic scoping: stacks of values and of arrays for each name, pushed by calls and undone by
  a log of the pushes, also after an error at any depth.
- **at and atd** - the spool as a state machine of atomic steps by any number of submitters, removers and
  daemons, in any order.
- **cp** - the stacks of open directories, of which only some are open at a time, and the walk over them.
- **cksum** - the table-driven CRC against bit-at-a-time division.

The code that changes state step by step is modelled by methods and classes with the same loops, arrays and
fields; each is proved against a function or predicate, and what the programs promise is proved about those.
Words of 32 and 64 bits appear as bounded integers where an overflow would matter.

## How it is laid out

| modules | about |
|---|---|
| `Arith`, `Bits`, `Options` | products and quotients, bit strings and bytes, missing values |
| `Crc`, `Cksum` | both CRCs |
| `Canonical`, `Huffman`, `Kraft`, `CodeOrder` | canonical codes: words, tables, decoding, Kraft's inequality, which words they are |
| `Heap`, `HuffmanTree`, `Optimal`, `CodeLengths` | code lengths from frequencies |
| `Deflate` | the reference decoder of DEFLATE blocks and of gzip members |
| `Tokens`, `Runs`, `DynamicBlock`, `BlockStream`, `GzipMember` | what is written is read back, layer by layer |
| `BitWriter`, `SymbolBuffer`, `BlockWriter`, `Costs`, `RunCoder`, `BlockPlan`, `FlushBlock`, `BlockMaker` | the writer of blocks |
| `Window`, `Chains`, `Matches`, `Compressor`, `GzipCompress` | the compressor |
| `BitReader`, `OutWindow`, `Inflate`, `GzipDecompress` | the decompressor |
| `GzipRoundTrip` | both together |
| `GzipHeader`, `DeflateForm`, `TreesForm`, `BlocksForm`, `GzipForm` | which files are accepted, layer by layer, and what they mean |
| `LzwFormat`, `LzwWriter`, `LzwTable`, `LzwSync`, `LzwCompress`, `LzwReader`, `LzwDecompress`, `LzwRoundTrip` | LZW |
| `LzwPhrases`, `LzwLayout` | what .Z files mean: strings without a table, places without a state |
| `Limbs`, `Magnitude`, `Multiply`, `Division`, `Decimal`, `SquareRoot` | bc's magnitudes |
| `Fractions`, `Numbers`, `Quotients`, `Powers`, `Exponential` | bc's numbers |
| `NumberText`, `NumberInput`, `NumberOutput`, `NumberBases`, `NumberRoundTrip`, `NumberLaws` | bc's text |
| `AwkSplit`, `AwkEager`, `AwkRecord`, `AwkRuns`, `SplitLaws`, `AwkLaws` | awk's records |
| `AwkTable`, `AwkArrays` | awk's arrays |
| `Scope`, `ScopeFrame`, `ScopeLaws`, `ScopeMachine`, `ScopeCalls` | bc's names: scoping on values, what is left alone, what a name has, the symbols on the heap, calls |
| `AtSpool`, `AtSafety`, `AtSteps`, `AtRuns`, `AtProgress` | the steps on the spool, the invariant, each step, whole runs, what gets done |
| `OpenDirs`, `CopyWalk`, `CopyWays` | cp's stack of open directories, its walk, and where it goes |

`dafny verify dfyconfig.toml` checks everything.

## Where the code and its documentation differ

- `compress/lzw.c` says that codes grow to the largest code size. With a largest size of nine bits both
  directions go on to ten when the table is full (`LzwRoundTrip.NineBitsBecomeTen`); the round trip holds all
  the same.
- `bc` prints a zero without its scale, so a zero with a scale does not come back with it
  (`NumberRoundTrip.WriteAndRead` says exactly when a number does).
- `awk/run.c` reads RS when a record is split, not when it is read (`AwkRuns.LateSeparator`);
  `AwkRecord.Record.AssignVariable` says exactly when that matters.
- `at/at.c` empties the counter file before it writes it. A process that dies in between makes the next
  number 1, which is given out twice exactly if one was given out before (`AtRuns.LostAtFirst`,
  `AtRuns.LostLater`); `AtRuns.SpoolIsSafe` is for the runs without the second.

## Model

| member | source | states |
|---|---|---|
| `GzipRoundTrip.RoundTrip` | compress/gzip.c:336-919 | for every input, level 1 to 9 and time, `gzip_decompress` of what `gzip_compress` writes ends without an error and gives the input |
| `GzipRoundTrip.MemberAlone` | compress/gzip.c:336-406 | a file that has the form of a member (magic number, any header with its optional fields, blocks that are read as data, less than eight bits of padding, CRC and length of data) is decompressed to that data |
| `GzipRoundTrip.ContentIsUnique` | compress/gzip.c:336-406 | no file has the form of a member for two different contents |
| `GzipRoundTrip.MembersTogether` | compress/gzip.c:398-404 | any number of members one after the other are decompressed to their contents together, whatever was there before |
| `GzipRoundTrip.GarbageAfterMember` | compress/gzip.c:398-404 | anything else after a member, one byte or two that are not the magic number, is the error "trailing garbage", with the content already written |
| `GzipForm.Accepted` | compress/gzip.c:336-406 | just these files are decompressed without an error, and to what they mean: members with a magic number between them, each of a header with any of its optional fields, blocks, less than eight bits of padding, and the CRC and the length of what the blocks mean; and this for every file |
| `GzipForm.FileRead` | compress/gzip.c:336-406 | so are these files with anything after them that does not begin with a magic number, which is the error "trailing garbage" |
| `GzipForm.OtherTrailer` | compress/gzip.c:388-396 | a member with another CRC ends in the error of the CRC, and one with just another length in that of the length, in both cases after its content was written |
| `GzipHeader.HeaderReads` | compress/gzip.c:341-367 | a header (method 8, a flag for each optional field and none beyond, six bytes, an extra field with its length low byte first, name and comment up to a zero byte, a check of two bytes) is read to its end, whatever follows |
| `GzipHeader.HeaderIs` | compress/gzip.c:341-367 | what is read as a header is one |
| `GzipHeader.HeaderRefused` | compress/gzip.c:341-367 | bytes that do not begin with a header are refused for their method, their flags, or because they end too soon |
| `BlocksForm.BlocksRead` | compress/gzip.c:369-384 | blocks, stored with their length and its complement after bits up to a whole byte, or of symbols in fixed or written codes, are read as what they mean one after the other |
| `BlocksForm.BlocksAre` | compress/gzip.c:369-384 | what is read as blocks without an error is such a sequence |
| `TreesForm.TreesRead` | compress/gzip.c:250-308 | the codes of a dynamic block that fit, with an end of the block, written in runs in a code length code that fits, are read as they are |
| `TreesForm.TreesAre` | compress/gzip.c:250-308 | what is read as the codes of a dynamic block without an error is that |
| `DeflateForm.SymsRead` | compress/gzip.c:174-209 | symbols that have code words, with distances that reach no further back than there is output, up to the end of the block, are read as what they mean |
| `DeflateForm.SymsAre` | compress/gzip.c:174-209 | what is read as symbols without an error is such a block |
| `DeflateForm.CopyRepeats` | compress/gzip.c:203-207 | a match repeats what was made at its distance, also over itself |
| `GzipCompress.HeaderBytes` | compress/gzip.c:839-845 | bytes 4 to 7, low byte first, are the time if it is positive and fits, and otherwise zero; the next is a hint at the level |
| `GzipCompress.Compress` | compress/gzip.c:824-919 | the result has the form of a member for the input, and begins with the ten bytes of the header, with the time or, when it is not positive or does not fit, zero |
| `GzipCompress.Close` | compress/gzip.c:908-918 | the result is the header, the blocks, zero bits up to a whole byte, and the CRC and the length modulo 2^32, least significant byte first |
| `GzipDecompress.Decompress` | compress/gzip.c:336-406 | the imperative reader computes the reference function from bits to bytes and error, for every byte string |
| `GzipDecompress.OneMember` | compress/gzip.c:340-404 | one turn of the loop: header, blocks, trailer, and then the end, garbage, or another member; each goes on to the same goal |
| `GzipDecompress.ReadHeader` | compress/gzip.c:341-367 | all optional fields and all six ways in which a header can be wrong are those of the reference |
| `GzipDecompress.ReadBlocks` | compress/gzip.c:369-384 | blocks are read to the last one or to the first error, as the reference reads them |
| `GzipDecompress.CheckTrailer` | compress/gzip.c:388-396 | the trailer is accepted exactly if it has the CRC and the length modulo 2^32 of what was made; otherwise the error is the one of the reference |
| `GzipDecompress.Get4` | compress/gzip.c:312-324 | four bytes are 32 bits of the stream, least significant first, or the input ends |
| `GzipMember.ReadMember` | compress/gzip.c:336-406 | header, blocks, padding and trailer of a member, with whatever optional fields, are read as its content by the reference, whatever follows |
| `Crc.CrcTable.constructor` | compress/gzip.c:26-36 | every entry of the table is eight steps of the division by the polynomial |
| `Crc.CrcTable.Update` | compress/gzip.c:38-44 | the table method continues the bit-at-a-time division of the polynomial over all bits of the bytes |
| `Crc.ByteAtATime` | compress/gzip.c:38-44 | dividing eight bits in is one table entry and a shift, for any register and polynomial |
| `Crc.CrcConcat` | compress/gzip.c:105-110 | a CRC updated in pieces, as windows are flushed and input is read, is that of the whole |
| `Cksum.CksumTable.constructor` | cksum/cksum.c:29-37 | every entry of the table is eight steps of the division, high bit first |
| `Cksum.CksumTable.Sum` | cksum/cksum.c:40-63 | however the file comes in pieces, the CRC is the complement of the remainder of all its bits, high bit first, followed by its length, least significant octet first, and the size is the number of bytes |
| `Cksum.ByteStep` | cksum/cksum.c:54-59 | taking a byte in through the table is dividing its eight bits in |
| `Huffman.DecodeExact` | compress/gzip.c:155-172 | decoding gives symbol i and the rest if and only if the input is the canonical code word of i followed by that rest |
| `Huffman.DecodeCodeBits` | compress/gzip.c:155-172 | a code word is decoded to its symbol, using exactly its length, whatever follows |
| `Huffman.PrefixFree` | compress/gzip.c:568-587 | no code word of lengths that fit begins another |
| `Huffman.Build` | compress/gzip.c:130-152 | the table has the counts and the symbols in order of their codes; it is refused exactly if the lengths are over-subscribed, or incomplete with more than one code |
| `Huffman.MakeCodes` | compress/gzip.c:568-587 | each code, in the order it is written in, is the bits of the canonical code word of its symbol |
| `CodeOrder.WordIsRoom` | compress/gzip.c:568-587 | read as a binary fraction, the code word of a symbol is the room that the words before it take, which are the shorter ones and those as long of a lesser symbol; so the codes are those of the standard |
| `Kraft.KraftInequality` | compress/gzip.c:138-151 | the count of codes left over is not negative if and only if the powers of one half add up to at most 1, and is 0 if and only if to 1 |
| `Heap.Push` | compress/gzip.c:508-513 | sifting up with a hole keeps the heap and adds one node |
| `Heap.Pop` | compress/gzip.c:518-531 | the lightest node is taken out, and the rest is a heap of the other nodes |
| `HuffmanTree.MakeTree` | compress/gzip.c:501-547 | a tree of all used symbols is made in which each inner node joins the two lightest roots of its time, weighs what they do and has all weight at the root |
| `HuffmanTree.FibonacciWeight` | compress/gzip.c:515-546 | two roots together weigh at least the Fibonacci number of the height of the higher plus three |
| `HuffmanTree.CutIsOne` | compress/gzip.c:547-551 | every cut through the tree adds up to 1 in powers of one half |
| `Optimal.NoCheaper` | compress/gzip.c:515-546 | for the roots at any time of the joining, no lengths that fit the code space cost less than the depths in the tree |
| `Optimal.Deepen` | compress/gzip.c:517-536 | lengths that fit can be changed, at no more cost, so that the two lightest nodes have the same, the longest length |
| `Optimal.DepthsAreShortest` | compress/gzip.c:547-560 | no prefix code for the used symbols takes fewer bits for these frequencies than the depths of the leaves |
| `CodeLengths.Depths` | compress/gzip.c:547-558 | the lengths are the depths of the used symbols, and over tells if one is deeper than the limit |
| `CodeLengths.DeepIsHeavy` | compress/gzip.c:555-563 | a tree too deep for the limit has at least a Fibonacci number of symbols in it, so halving comes to an end |
| `CodeLengths.Attempt` | compress/gzip.c:488-564 | one pass: lengths that are good and shortest for its frequencies, or frequencies halved, of smaller sum, when a leaf was too deep |
| `CodeLengths.Lengths` | compress/gzip.c:479-565 | it ends; no length is over the limit; exactly the used symbols have one (but for one more when only one is used); Kraft's sum is exactly 1; no code is shorter for the frequencies as halved, and they are not halved when their sum is below a Fibonacci number |
| `Deflate.LenBaseTable` | compress/gzip.c:48-51 | the formula for the length bases has the 29 values of the table |
| `Deflate.DistBaseTable` | compress/gzip.c:56-60 | the formula for the distance bases has the 30 values of the table |
| `Deflate.ClOrderTable` | compress/gzip.c:65-68 | the formula for the order of the code length lengths has the 19 values of the table |
| `Deflate.LenExtraTable` | compress/gzip.c:52-55 | the formula for the extra bits of lengths has the 29 values of the table |
| `Deflate.DistExtraTable` | compress/gzip.c:61-64 | the formula for the extra bits of distances has the 30 values of the table |
| `SymbolBuffer.FindLenCode` | compress/gzip.c:460-466 | the code found covers the length with its base and extra bits, and the next base is larger; it is the code of the reference |
| `SymbolBuffer.FindDistCode` | compress/gzip.c:468-474 | the code found covers the distance with its base and extra bits, and the next base is larger; it is the code of the reference |
| `SymbolBuffer.SymbolBuffer.Tally` | compress/gzip.c:730-742 | one symbol more, with the frequencies of literal, length and distance codes and the byte count kept true of the buffer |
| `BitWriter.BitWriter.PutBits` | compress/gzip.c:442-452 | the stream gets the n low bits of v, least significant first |
| `BitWriter.BitWriter.AlignBits` | compress/gzip.c:454-458 | the stream is padded with zero bits to a byte |
| `Tokens.ReadBlock` | compress/gzip.c:174-209 | coded symbols and the end of block, read back, append what the symbols mean, literal or copy, for any symbols with codes and distances that reach |
| `BlockWriter.WriteSymbols` | compress/gzip.c:589-606 | what is written is the code words and extra bits of the symbols and of the end of block |
| `Runs.ReadRuns` | compress/gzip.c:270-300 | run-length coded lengths are read back as the lengths they expand to |
| `RunCoder.RunLengths` | compress/gzip.c:636-662 | the runs found expand to exactly the lengths, and are ones the reader accepts |
| `RunCoder.Trim` | compress/gzip.c:630-634 | only zero lengths are cut off |
| `RunCoder.TrimCl` | compress/gzip.c:668-670 | only zero code length lengths are cut off, in their peculiar order |
| `DynamicBlock.ReadTrees` | compress/gzip.c:261-307 | the code length code and the runs are read back as the literal and distance lengths, which build |
| `DynamicBlock.ReadDynamic` | compress/gzip.c:250-310 | a dynamic block is read back as what its symbols mean |
| `Costs.SymCost` | compress/gzip.c:608-619 | the bits counted from frequencies are the length of the coded symbols, but for the end of block counted with them |
| `Costs.RunsCost` | compress/gzip.c:673-674 | the bits counted for the runs are the length of the coded runs |
| `BlockPlan.MakePlan` | compress/gzip.c:624-674 | lengths, runs and sizes for a dynamic block that the reader accepts, in which every symbol of the block is coded |
| `BlockStream.FixedReads` | compress/gzip.c:231-248 | a fixed block of any symbols is read as what they mean |
| `BlockStream.DynamicReads` | compress/gzip.c:250-310 | a dynamic block with good trees is read as what its symbols mean |
| `BlockStream.StoredReads` | compress/gzip.c:211-229 | a stored block of up to 65535 bytes, written at any bit of the stream, is read as its bytes |
| `BlockStream.ReadsMore` | compress/gzip.c:371-384 | a stream that is read as out, with one more block, is read as what the block makes of out |
| `FlushBlock.WriteStored` | compress/gzip.c:685-697 | any number of bytes are written as stored blocks that are read as those bytes, with the last flag on the last one only, in no more bits than were reckoned |
| `FlushBlock.WriteFixed` | compress/gzip.c:698-704 | the block is read as the bytes, and takes the bits of its symbols and three |
| `FlushBlock.WriteDynamic` | compress/gzip.c:705-722 | the block is read as the bytes, and takes the bits of its plan and three |
| `FlushBlock.Flush` | compress/gzip.c:622-728 | whichever form is chosen, the stream is read as what it was read as and the bytes of the block, the buffer is empty again, and no more bits were written than in any of the three forms |
| `BlockMaker.BlockMaker.Flush` | compress/gzip.c:622-728 | between blocks: everything up to the last symbol is in the stream |
| `BlockMaker.BlockMaker.Finish` | compress/gzip.c:908-911 | the last block makes the stream complete |
| `Window.Window.Slide` | compress/gzip.c:746-753 | the upper half moves down, and the window shows the same part of the input as before |
| `Window.Window.Read` | compress/gzip.c:759-778 | input is read until there is enough to look ahead or it ends, and the window shows it |
| `Chains.Chains.Insert` | compress/gzip.c:783-791 | the position is the new head of its chain; what was the head is one inserted before, or none |
| `Chains.Chains.Slide` | compress/gzip.c:754-757 | all links are moved down, and those that leave the window are cut |
| `Matches.Longest` | compress/gzip.c:795-822 | a result better than before is a true match: inside the window, no longer than what there is to match, and equal byte for byte; no position of the chain that was looked at has a longer one; and the search ended because the match was long enough, or enough positions were looked at, or no more were in reach |
| `Compressor.Fill` | compress/gzip.c:744-779 | the window slides only when the block may still be written from it, and is filled again |
| `Compressor.Step` | compress/gzip.c:874-906 | one step of lazy matching keeps that the symbols, and a byte that waits, stand for all input up to here |
| `Compressor.Run` | compress/gzip.c:858-907 | at the end of the input the blocks, the symbols in the buffer and a waiting byte stand for all of it, and the CRC is that of all of it |
| `BitReader.BitReader.Bits` | compress/gzip.c:86-103 | n bits are taken off the stream, or the end of the input is noted |
| `OutWindow.OutWindow.PutByte` | compress/gzip.c:112-118 | a byte more is made; a full window is written and goes into the CRC |
| `OutWindow.OutWindow.FlushWindow` | compress/gzip.c:105-110 | everything made is written and in the CRC |
| `OutWindow.OutWindow.Back` | compress/gzip.c:206-207 | within the window, the byte d back is the one made d bytes ago, across its end |
| `Inflate.Decode` | compress/gzip.c:155-172 | the table decoder reads what the canonical code says, or fails as it does |
| `Inflate.OneMatch` | compress/gzip.c:186-207 | a match is read and copied byte by byte, also over itself, or refused for one of the reasons of the reference |
| `Inflate.ReadCodes` | compress/gzip.c:174-209 | symbols up to the end of the block are read as the reference reads them, with its errors |
| `Inflate.ReadStored` | compress/gzip.c:211-229 | a stored block is read as the reference reads it, with its errors |
| `Inflate.ReadFixed` | compress/gzip.c:231-248 | a fixed block is read as the reference reads it |
| `Inflate.ReadLengths` | compress/gzip.c:270-300 | the lengths, with all repeats and their errors, are those of the reference |
| `Inflate.ReadTrees` | compress/gzip.c:252-308 | both codes of a dynamic block, or the error of the reference |
| `Inflate.ReadDynamic` | compress/gzip.c:250-310 | a dynamic block is read as the reference reads it, with its errors |
| `LzwRoundTrip.RoundTrip` | compress/lzw.c:78-247 | for every input and every largest code size from 9 to 16 bits, `lzw_decompress` of what `lzw_compress` writes ends without an error and gives the input |
| `LzwRoundTrip.NineBitsBecomeTen` | compress/lzw.c:63-74 | with a largest code of nine bits, the width becomes ten all the same when the table is full, in both directions; for ten to sixteen it never exceeds the largest |
| `LzwCompress.Compress` | compress/lzw.c:78-144 | the file, read by the reference decoder, is the input, whenever CLEAR is sent |
| `LzwDecompress.Decompress` | compress/lzw.c:180-247 | the imperative decompressor computes the reference decoder, for every byte string; three malformed ones are not modelled (see below) |
| `LzwSync.CodeRead` | compress/lzw.c:213-245 | while the decoder is one entry behind, the next code is read as the string it was sent for, and the decoder has the same table but for the entry it is about to make |
| `LzwSync.NewestCode` | compress/lzw.c:222-227 | a code sent for the very entry that the decoder lacks is read as the string of that entry |
| `LzwSync.KnownCode` | compress/lzw.c:228-244 | any other code is read as the string of an entry that both have |
| `LzwSync.AddedBehind` | compress/lzw.c:117-119 | after the encoder makes an entry, the decoder is one entry behind again |
| `LzwSync.ClearRead` | compress/lzw.c:214-219 | CLEAR is read as the empty table, which the encoder has too |
| `LzwLayout.FileRead` | compress/lzw.c:180-247 | a file of codes, in block mode in stretches with a CLEAR between them, without it in one, each code at its place, is decompressed to the strings that the codes stand for; places and strings are given without a table or a state |
| `LzwLayout.CodeAfter` | compress/lzw.c:151-177 | the codes of each width take up whole groups of eight; the width is nine bits, or as many as the newest code that there can be takes, up to the largest |
| `LzwLayout.Cleared` | compress/lzw.c:158-169 | after a CLEAR the rest of its group is left out, and codes have nine bits again |
| `LzwPhrases.NextKnown` | compress/lzw.c:213-245 | a code that names string i, counted from 256, or from 257 in block mode, is read as the i-th string since the table was cleared and the first byte of the one after it, also while that is the one being read |
| `LzwWriter.LzwWriter.PutCode` | compress/lzw.c:54-57 | the code is or-ed into the group at its place: the stream gets its bits |
| `LzwWriter.LzwWriter.Output` | compress/lzw.c:46-76 | a code in the current width, then the padding of the group if the width is about to change, and the width that the reader will have |
| `LzwWriter.LzwWriter.Finish` | compress/lzw.c:48-53 | the last group is cut to whole bytes, with fewer than eight zero bits after the last code |
| `LzwReader.LzwReader.GetCode` | compress/lzw.c:151-178 | the reader settles the width, drops the rest of the group when it changes, and takes the next code of the stream, or finds the end, or less than a code |
| `LzwDecompress.LzwDecoder.Unwind` | compress/lzw.c:228-237 | the stack, reversed, holds the string of the code, and never overflows |
| `LzwDecompress.LzwDecoder.Use` | compress/lzw.c:220-244 | one code changes tables, last code and first byte as the reference does, or is refused by both |
| `LzwTable.HsizeIsPrime` | compress/lzw.c:27 | the table size is prime |
| `LzwTable.SlotsDiffer` | compress/lzw.c:106-110 | a probe sequence meets no slot twice before it has met all |
| `LzwTable.SearchEnds` | compress/lzw.c:108-110 | as many full slots as were met are entries of the dictionary, so a search of a table that is not full ends |
| `LzwTable.LzwTable.Find` | compress/lzw.c:105-113 | a pair of prefix and byte is found, with its code, if and only if it is in the dictionary since the last CLEAR; otherwise the slot is the free one where it will be looked for |
| `LzwTable.LzwTable.Add` | compress/lzw.c:117-119 | the dictionary gets the pair with the next code |
| `Limbs.TrimmedUnique` | bc/num.c:45-51 | trimmed magnitudes of the same number are the same |
| `Magnitude.Compare` | bc/num.c:84-92 | the sign of the difference of trimmed magnitudes |
| `Magnitude.Add` | bc/num.c:94-106 | the exact sum; the carry is at most 1 and nothing is left over |
| `Magnitude.Subtract` | bc/num.c:109-124 | the exact difference when it is not negative; no borrow is left over |
| `Magnitude.MultiplySmall` | bc/num.c:157-170 | a * m + add exactly, every product within 64 bits |
| `Magnitude.DivideSmall` | bc/num.c:172-185 | quotient and remainder exactly, every dividend within 64 bits and every quotient one limb |
| `Magnitude.FromLong` | bc/num.c:64-75 | three limbs hold every long that is not negative |
| `Multiply.Multiply` | bc/num.c:126-155 | the exact product, zero limbs skipped, the carry of a row going no further than the limbs there are, all within 64 bits |
| `Division.Estimate` | bc/num.c:229-237 | the corrected estimate of a quotient digit is a limb, is not too small, and is at most one too large, with both sides of every test within 64 bits |
| `Division.MultiplySubtract` | bc/num.c:238-260 | the multiple of the divisor is taken from the window modulo a power of the base, with the borrow that tells if it was too much |
| `Division.AddBack` | bc/num.c:261-271 | the divisor is added to the window modulo the same power |
| `Division.QuotientDigit` | bc/num.c:228-273 | one digit: the window was a multiple of the divisor, by the digit, more than what is left, which is less than the divisor |
| `Division.Normalized` | bc/num.c:214-216 | scaling by BASE / (d + 1) keeps the number of limbs and makes the first at least half the base |
| `Division.DivMod` | bc/num.c:187-286 | for all trimmed a and b not zero, a = q * b + r with 0 <= r < b |
| `Decimal.ShiftUp` | bc/num.c:288-301 | a * 10^k exactly |
| `Decimal.ShiftDown` | bc/num.c:303-322 | a / 10^k rounded down |
| `SquareRoot.Digits` | bc/num.c:640-650 | the number of decimal digits |
| `SquareRoot.SquareRoot` | bc/num.c:577-609 | the integer square root, rounded down: the first guess is above it, the guesses decrease, and it stops at it |
| `SquareRoot.RootIsUnique` | bc/num.c:577-609 | there is one such root |
| `Fractions.TruncatesIff` | bc/num.c:446 | a quotient is cut off toward zero if and only if what is left is less than the divisor and has the sign of the dividend |
| `Numbers.Rescale` | bc/num.c:326-337 | the number cut off toward zero at the scale |
| `Numbers.RescaleUpDown` | bc/num.c:326-337 | to more places and back, a number is what it was |
| `Numbers.RescaleSame` | bc/num.c:472 | a number rescaled to its own scale is itself, so the last rescale of num_mod loses nothing |
| `Numbers.CompareNum` | bc/num.c:339-361 | the sign of the difference of the numbers, for all signs and scales |
| `Numbers.Negative` | bc/num.c:363-369 | the negative number; zero stays as it is |
| `Numbers.AddSub` | bc/num.c:371-414 | sum and difference are exact at the larger scale |
| `Numbers.MultiplyExact` | bc/num.c:416-423 | the exact product at the sum of the scales |
| `Numbers.MultiplyNum` | bc/num.c:435-442 | the product cut off toward zero at the scale of the standard |
| `Quotients.Divide` | bc/num.c:444-462 | a / b cut off toward zero at the scale, also when the dividend loses digits first; refused exactly for zero |
| `Quotients.Modulus` | bc/num.c:464-477 | r = a - q * b exactly, for the q that is a / b cut off at the scale; r is less than b by that scale and is zero or has the sign of a |
| `Quotients.Root` | bc/num.c:613-638 | the square root cut off at the larger of the scales; refused exactly for negative numbers |
| `Powers.ToLong` | bc/num.c:501-523 | the whole part, if and only if it fits in a long |
| `Powers.ExactPower` | bc/num.c:535-555 | by squaring, the exact power of the magnitude, at scale times exponent |
| `Powers.RaiseTo` | bc/num.c:525-575 | the power for positive, zero and negative exponents, cut off at the scale of the standard; refused exactly for exponents out of range and zero to a negative one |
| `Exponential.Halve` | bc/mathlib.c:71-82 | halving ends, at an argument of at most 1/2 that is less than the exact one by less than one unit; the exact one is below 1; an argument of at most 1/2 is not halved |
| `Exponential.Series` | bc/mathlib.c:84-94 | the series ends; the sum does not exceed the exact sum of the terms added, falls short of it by at most four units for each, and of every longer sum by at most eight more |
| `Exponential.TermStep` | bc/mathlib.c:88-89 | a computed term stays below the true one, by less than four units, if the one before did |
| `Exponential.ExpPos` | bc/mathlib.c:66-100 | for every argument x that is not negative, halved n times: the result does not exceed the exact sum of the terms added at x / 2^n, squared n times, and falls short of that of any more terms by no more than a given bound; the same for the argument as computed; for at most 1/2, the bound of the series |
| `NumberText.DecimalDigitsUnique` | bc/num.c:779-782 | digits without needless zeros are those of the number |
| `NumberText.StripContinued` | bc/exec.c:261-271 | a number written over continued lines, from any column and for any length, is got back by stripping |
| `NumberOutput.Output.PutNumber` | bc/exec.c:261-271 | a character, after a backslash and an end of line when the line is full |
| `NumberOutput.Print` | bc/num.c:749-794 | in base ten, the text with sign, digits of the mantissa and point is written; the buffer never overflows |
| `NumberInput.StripContinuations` | bc/scan.c:640-654 | every backslash before an end of line, and that end, are dropped |
| `NumberInput.Parse` | bc/num.c:661-721 | in any base from 2 to 16, with digits beyond the base counting as base - 1 unless alone: the digits after the point over the power of the base, cut off after as many decimal places |
| `NumberRoundTrip.WriteAndRead` | bc/num.c:661-866 | printing, joining lines and parsing in base ten, the minus sign taken as the operator, gives a number back, sign, mantissa and scale, if and only if it is not a zero with a scale |
| `NumberRoundTrip.ReadBack` | bc/num.c:749-866 | the same of the texts, from any column and for any length of line: there is a minus sign just before a negative number, and the rest is read as the magnitude |
| `NumberBases.PrintIn` | bc/num.c:749-866 | in any other base: the digits of the whole part without leading zeros, and of the fraction, as many as it takes for the power of the base to reach 10^scale |
| `NumberLaws.TextSpells` | bc/num.c:760-796 | in base ten the characters are those of the digits at their places, the sign before them and the point where the scale says, with no needless zero in front |
| `NumberLaws.TextInSpells` | bc/num.c:722-865 | in any other base, up to sixteen the characters, and beyond it the groups of decimals with their blanks, are those of the digits at their places, of the whole part and, after the point, of the fraction |
| `NumberLaws.WholeBack` | bc/num.c:661-866 | in every base up to sixteen a whole number is read back as it was written |
| `NumberLaws.LoneDigit` | bc/num.c:667-678 | a lone digit has its face value, whatever the base |
| `NumberLaws.OtherDigits` | bc/num.c:667-692 | digits of any other token that the base does not have are read as if its largest digit stood there |
| `NumberLaws.PointIsRead` | bc/num.c:671-728 | around a point, the whole part is read as if alone, and the fraction as if it were a whole part, over as many powers of the base, cut off after as many decimals |
| `NumberLaws.LineIsFull` | bc/exec.c:259-271 | a line is broken just when it is full, and the rest goes on as from the first column |
| `NumberLaws.LineIsShort` | bc/exec.c:259-271 | a line that does not fill up, or is not to be broken, is written as it is |
| `NumberLaws.NotContinued` | bc/scan.c:640-654 | what has no backslash before the end of a line stays as it is |
| `NumberLaws.JoinedThere` | bc/scan.c:640-654 | a backslash before the end of a line goes with it, and what is around it is joined as by itself |
| `NumberBases.ExpansionValue` | bc/num.c:822-860 | the digits together are |a| * base^k rounded down, with the least k for which base^k is not less than 10^scale |
| `AwkSplit.Split` | awk/run.c:227-293 | blanks, one character, every character, or matches of an expression: the loops compute the fields of the reference |
| `SplitLaws.FieldsAreWords` | awk/run.c:234-247 | words without blanks, with blanks between them and perhaps around them, are the fields, each whole |
| `SplitLaws.FieldsAreCharacters` | awk/run.c:249-256 | with an empty separator each character is a field |
| `SplitLaws.FieldsAreBetween` | awk/run.c:257-267 | with a separator of one character, pieces without it, with one between each two, are the fields; in paragraph mode a newline is one, too |
| `SplitLaws.FieldsAreOutside` | awk/run.c:269-292 | with an expression the fields are what is outside the matches that the matcher gives, each looked for from the end of the one before, and no match there is overlooked |
| `AwkSplit.PiecesJoin` | awk/run.c:257-267 | for one character, the fields put together again with it are the text |
| `AwkSplit.PiecesClean` | awk/run.c:257-267 | no field contains the separator |
| `AwkSplit.WordsAre` | awk/run.c:234-247 | for blanks, the fields are not empty, contain no blanks, and are together all that is not blank |
| `AwkSplit.SeparatedJoin` | awk/run.c:269-292 | for an expression, the fields and the matches between them, none of them empty, are the text |
| `AwkSplit.NewlinesMatterIff` | awk/run.c:261 | newlines as separators change the fields if and only if the separator is one character, not a newline, and the text has a newline (for expressions, if the matches differ) |
| `AwkLaws.RecordRead` | awk/run.c:312-338 | a record, when it is read, is the text, and its fields are what FS makes of it, empty ones without a value |
| `AwkLaws.RebuiltIsText` | awk/run.c:340-359 | a record split at one character and put together with that character as OFS is the text |
| `AwkLaws.JoinedIsJoin` | awk/run.c:340-359 | a record put together is the texts of its fields with OFS between them |
| `AwkLaws.FieldSet` | awk/run.c:399-422 | a field set has the value, fields up to it are made, the others stay, and $0 is put together |
| `AwkLaws.CountSet` | awk/run.c:379-397 | NF set drops fields or makes them, the others stay, and $0 is put together; out of range it is refused, with nothing changed |
| `AwkLaws.Shown` | awk/run.c:361-372 | $0, a field, or no value beyond the last, and NF are shown, and nothing changes |
| `AwkLaws.VariableSet` | awk/run.c:1114-1127 | a variable set changes neither $0 nor the fields |
| `AwkRecord.Record.EnsureSplit` | awk/run.c:312-326 | the fields are made late, by the FS of the read, and nothing a program sees changes |
| `AwkRecord.Record.SetRecord` | awk/run.c:328-338 | as if the record were split at once |
| `AwkRecord.Record.RebuildRecord` | awk/run.c:340-359 | $0 becomes the fields joined by OFS, and nothing a program sees changes if it was due |
| `AwkRecord.Record.GetFieldAt` | awk/run.c:361-372 | the field, or $0 put together if due, as the eager record has it |
| `AwkRecord.Record.SetCount` | awk/run.c:379-397 | NF set: fields are dropped or made, and $0 is as if put together at once; refused out of range |
| `AwkRecord.Record.SetFieldAt` | awk/run.c:399-422 | a field set: fields up to it are made, and $0 is as if put together at once |
| `AwkRecord.Record.AssignVariable` | awk/run.c:985-992 | a variable assigned is as for the eager record, unless RS becomes, or stops being, empty while a text waits to be split for whose fields newlines matter: exactly then it is not |
| `AwkRuns.Do` | awk/run.c:1099-1127 | one operation of the lazy record shows, and leaves, what the eager one does |
| `AwkRuns.Run` | awk/run.c:312-422 | for every sequence of reads, field and NF accesses and assignments to FS, OFS, CONVFMT and RS in which RS is settled, everything seen is what a record split and put together at once shows |
| `AwkRuns.LateSeparator` | awk/run.c:306-326 | a run in which RS is not settled: NF is 2 where the eager record has 1 |
| `AwkRuns.ToldApart` | awk/run.c:361-372 | records whose fields differ can be told apart by NF or by a field |
| `AwkTable.MaskIsRemainder` | awk/lib.c:253 | masking with a power of two less one is the remainder |
| `AwkTable.Array.Find` | awk/lib.c:248-257 | the search along the chain finds the element if and only if the key is there |
| `AwkTable.Array.Rehash` | awk/lib.c:232-246 | the table is four times as large, or sixteen; keys, values and order stay |
| `AwkTable.Array.Get` | awk/lib.c:248-277 | the element of the key; a new one, without a value, comes last in the order, if it was wanted |
| `AwkTable.Array.Delete` | awk/lib.c:279-297 | just the key goes, from its chain and from the order |
| `AwkTable.Array.Clear` | awk/lib.c:212-224 | nothing is left |
| `AwkTable.Array.Keys` | awk/lib.c:299-308 | the live keys in the order in which they were made |
| `AwkArrays.Run` | awk/lib.c:199-317 | for every sequence of lookups, creations, assignments, deletions, clears and listings, all answers are those of a map with the order of its keys |
| `AwkArrays.MapKeepsStep` | awk/lib.c:199-317 | what each operation does to the list of pairs is what it does to a map, and keys stay distinct |
| `AwkArrays.OneChain` | awk/lib.c:232-297 | in every state, the pointers from the head of a chain give just the elements whose masked hash is its number, each once |
| `ScopeFrame.CallRestores` | bc/exec.c:495-596 | a call that returns leaves every parameter and auto, value or array, with the whole stack it had when the arguments had been evaluated, and every other name with a stack as high and the same below its end; what the call does not assign by its own name, outside calls that bind that name, has what it had before |
| `ScopeFrame.ArraysUnaffected` | bc/exec.c:551-557 | an array of the caller, passed or not, is unchanged by a call that does not assign it by its own name, whatever the callee does to its parameters |
| `ScopeFrame.ExecLeaves` | bc/exec.c:734-824 | any program leaves alone the values and arrays of a name that it does not assign outside calls that bind it, also if it ends with an error at any depth, once the pushes are undone |
| `ScopeFrame.ItemLeaves` | bc/exec.c:828-850 | the same of an item, ended normally or by an error |
| `Scope.RunItemKeeps` | bc/exec.c:828-850 | ended normally or by an error at any depth, an item leaves every stack as high as before, and the same below its end, and nothing to undo |
| `Scope.ExecKeeps` | bc/exec.c:350-359 | from any point of any program the pushes can be undone back to where it began; where there was no error there are none |
| `Scope.UndoOne` | bc/exec.c:86-114 | whatever was done with a name since it was pushed, undoing the push gives back just what it had |
| `Scope.UndoDeep` | bc/exec.c:350-359 | in every state a push to undo has a value, or array, below it, so no stack is popped empty |
| `ScopeMachine.Machine.VarSlot` | bc/exec.c:46-57 | the first use of a name gives it a zero |
| `ScopeMachine.Machine.ArrCur` | bc/exec.c:59-72 | the current array of a name, made at its first use; no two names or levels share one |
| `ScopeMachine.Machine.PushVar` | bc/exec.c:74-84 | a value more on the stack of the name, and in the log |
| `ScopeMachine.Machine.PushArray` | bc/exec.c:99-109 | an array more on the stack of the name, and in the log |
| `ScopeMachine.Machine.CopyArray` | bc/exec.c:116-130 | a new array with the same elements |
| `ScopeMachine.Machine.Grow` | bc/exec.c:132-151 | an array is made long enough by doubling, up to the limit, with zeros |
| `ScopeMachine.Machine.StoreElement` | bc/exec.c:376-381 | one element of the current array is set and nothing else changes, of this or any other array; out of bounds is an error |
| `ScopeMachine.Machine.LoadElement` | bc/exec.c:424-430 | the element, or zero beyond the array, which does not grow |
| `ScopeMachine.Machine.Unwind` | bc/exec.c:350-359 | the pushes after the mark are undone, the last first |
| `ScopeCalls.EvaluateArgs` | bc/exec.c:532-558 | arguments are evaluated in turn, each after what the ones before did; an array is copied, so that it is none of any name; a wrong kind is an error |
| `ScopeCalls.PushAll` | bc/exec.c:559-580 | each parameter has the argument passed for it as its current value, or array, over what its name had, each auto zero or an empty array, and every other name what it had |
| `ScopeLaws.CallBinds` | bc/exec.c:495-596 | a call with as many arguments as parameters, and of their kinds, evaluates them in turn, each in what the ones before left, starts its body with each parameter bound to its argument, autos to zero or an empty array and all other names as they were, and ends with what the body left, unwound if it returned |
| `ScopeLaws.ParamsBound` | bc/exec.c:559-580 | a name that is given once has what it is given over what it had; of one given twice the last counts |
| `ScopeLaws.Assigned` | bc/exec.c:370-375 | an assignment sets the current value of its name and changes nothing else |
| `ScopeLaws.ElementAssigned` | bc/exec.c:376-381 | an assignment to an element, if its index is in bounds, sets just that element of the current array, and otherwise changes nothing |
| `ScopeLaws.RoomDoubles` | bc/exec.c:132-151 | an array is doubled, from sixteen elements if it had none, just until the index fits, but never beyond the limit |
| `ScopeCalls.RunCall` | bc/exec.c:495-596 | on the heap, a call does what the scoping of values says; arrays that it does not assign by their own names are as they were |
| `ScopeCalls.RunActs` | bc/exec.c:734-824 | on the heap, any program does to the names what the scoping of values says |
| `ScopeCalls.Run` | bc/exec.c:828-850 | on the heap, an item leaves every name as it found it but for its current value, after an error too |
| `AtRuns.SpoolIsSafe` | at/atd.c:123-300 | over any interleaving of any number of submitters, removers and daemons: numbers are distinct; what is visible is whole; a job is started at most once, not before its time, and not if its removal succeeded; no daemon runs two jobs of queue b; a daemon takes the jobs of a scan by time, then by number; also when the counter is lost before any number is given out |
| `AtProgress.ScanStarts` | at/atd.c:256-300 | from every state of the invariant, an idle daemon can by itself go through whatever jobs it finds, and then just those have been started that are due, of the batch jobs only the first, and none if it runs one; the others are visible as before, and it is idle again |
| `AtProgress.DueStarts` | at/atd.c:256-300 | every visible job that is due is started by any idle daemon that may run it, unless it is a batch job and that daemon runs one |
| `AtProgress.RemovalTakes` | at/at.c:558-577 | a removal by the owner or by root takes a visible job and nothing else; one by another user takes nothing |
| `AtProgress.SubmissionPublishes` | at/at.c:391-481 | a submission that nobody gets in the way of makes a whole job visible, under the next number, and changes nothing else in the spool |
| `AtProgress.EndedIsGone` | at/atd.c:222-244 | a job that has ended is no more among those that run, and its file is gone |
| `AtProgress.NotStarted` | at/atd.c:135-155 | a job for which there is no process is visible again as it was, and one that cannot run is gone |
| `AtRuns.StepKeeps` | at/at.c:391-577 | each atomic step of each process keeps the invariant of the spool, also the loss of the counter before any number is given out |
| `AtRuns.LostAtFirst` | at/at.c:409-411 | losing the counter file between emptying and writing it harms nothing if no number was given out |
| `AtRuns.LostLater` | at/at.c:406-413 | if one was, there is a run in which the next submitter is given the number 1 again |
| `AtSteps.LockStep` | at/at.c:402-412 | one submitter at a time holds the lock on the counter |
| `AtSteps.WriteStep` | at/at.c:406-413 | the number written is one more than any given out |
| `AtSteps.WritingStep` | at/at.c:450-477 | a job being written has a name that is not visible and is its submitter's alone |
| `AtSteps.PublishStep` | at/at.c:478-481 | the rename makes a whole job visible under a number that was never visible before |
| `AtSteps.UnlinkStep` | at/at.c:563-577 | a removal that succeeds takes a job that was not started, and it never will be |
| `AtSteps.SeeStep` | at/atd.c:268-279 | what a scan reads is a job that was published so |
| `AtSteps.SortStep` | at/atd.c:247-281 | the jobs found, put in order of time and number, are ones that were published, and are gone through in that order |
| `AtSteps.TakeStep` | at/atd.c:131-134 | the rename succeeds for one daemon only, and then no removal can |
| `AtSteps.ForkStep` | at/atd.c:148-218 | the job that was taken is started, at its time or later, for the first time |
| `AtSteps.BackStep` | at/atd.c:149-155 | when there is no process to be had the job is visible again, not started |
| `AtSteps.DropStep` | at/atd.c:135-147 | a job that cannot be run is gone, not started |
| `AtSteps.ReapStep` | at/atd.c:222-244 | a job that has ended leaves the runs and the spool, and the rest stays so |
| `OpenDirs.Stack.Push` | cp/cp.c:172-188 | the new top is open; no more are open than allowed, or all but the top are pinned; at most one level is closed, the lowest that is open and not pinned |
| `OpenDirs.Stack.Pop` | cp/cp.c:190-212 | the level below is open on its own directory, "..", if it had to be opened, having led there; the count of open levels stays right |
| `OpenDirs.Stack.Pin` | cp/cp.c:461-462 | a level that ".." of the next does not lead back to stays open |
| `OpenDirs.ShutEnough` | cp/cp.c:180-187 | closing one level keeps to the limit, unless none can be closed |
| `CopyWalk.CopyDir` | cp/cp.c:421-488 | from any depth the walk goes into just the directories it should, each through the descriptor of the one it is in and to the target in the target it is in, never finds that one has moved, and comes back to both stacks as they were |
| `CopyWalk.CopyEntry` | cp/cp.c:491-546 | a directory the walk is in already is a cycle and not followed; a link pins the level it leaves |
| `CopyWalk.Copy` | cp/cp.c:605-637 | the walk over any graph of directories and links ends |
| `CopyWalk.EverythingReached` | cp/cp.c:491-546 | a copy goes into every directory to which there is a way, links and cycles or not |
| `CopyWays.EnteredIff` | cp/cp.c:421-546 | a directory is entered, with this target, if and only if there is a way to it that does not come to a directory twice, whose entries lead to that target |
| `CopyWays.CycleIff` | cp/cp.c:491-546 | a cycle is reported if and only if such a way ends at a directory with an entry for one on the way |
| `Cksum.OctetsAre` | cksum/cksum.c:58-59 | the octets of the length that are appended are the length, and no more than it takes |

## Left out

- LzwFormat.Act: a second CLEAR right after a CLEAR, and the next new code when the table is full, which no compressor sends, end in the error NotModelled; `compress/lzw.c:214-233` goes on with what its arrays held before.
- LzwFormat.Decode: a last group of a single byte, less than a code, ends in NotModelled too, where `compress/lzw.c:163-178` makes a code of that byte and one of the group before.
- LzwDecompress.Decompress: ends in NotModelled on those inputs, as the reference does.
- LzwDecompress.LzwDecoder.Use: refuses those codes.
- LzwReader.LzwReader.GetCode: says in `stale` that it met such a group, instead of its code.
- SymbolBuffer.SymbolBuffer.Tally: the length code is searched for, not looked up in `lcode`, which `gzip_compress` fills by the same search.
- FlushBlock.Flush: `lit_freq[256]` is set on a copy of the frequencies, which are cleared afterwards as in the source.
- Compressor.Fill: the input buffer of `in_byte` is not modelled; the window is filled byte by byte until it is full, which is one of the amounts the source may take.
- GzipCompress.Compress: members are not promised to be as short as another compressor would make them.
- CodeLengths.Lengths: when frequencies had to be halved, the lengths are shortest for the halved frequencies, not for the ones given; length-limited optimality is not what the source computes.
- Cksum.CksumTable.Sum: read errors and the width of `uintmax_t` are left out; sizes are unbounded.
- Numbers: scales are unbounded naturals, so overflow of a `long` scale is left out.
- Quotients.Root: the variable `gnu_sqrt_quirk`, for testing only, is left out.
- Exponential.ExpPos: the number of halvings is unbounded; `math_e`, which picks the working scale with floating point, is left out, and so are logarithm, arctangent, sine, cosine and Bessel functions.
- NumberBases.PrintIn: `snprintf` of a digit of several decimals is a function of its value and width.
- NumberInput.Parse: what is not a token of the scanner is excluded, as the scanner does.
- AwkSplit.Split: the call with a compiled expression instead of a string, the locale's character lengths and the matcher are parameters (`AwkSplit.Oracle`); the fields are returned and then added, instead of added by a callback.
- AwkRecord.Record: values are text or numbers; reference counts, and running out of memory, are left out.
- AwkRuns.Run: says that settled runs agree; of runs that are not settled, `AwkRecord.Record.AssignVariable` and `AwkRuns.ToldApart` say that they can be told apart at the assignment, not that a given rest of the program does so.
- AwkTable.Array.Clear: walks no list, since freeing is left out; the hash function is a parameter.
- `awk/run.c` `substitute`, getline and all expression evaluation; `awk/lib.c` numbers and multibyte helpers.
- AtProgress.ScanStarts: says what one daemon can do when the others rest; that a scan finds every job, or happens at all, is not promised, since any process may be as slow as it likes.
- Matches.Longest: says that no position of the chain that was looked at has a longer match; a longer one further back is not looked for, as in the source.
- LzwLayout.FileRead: is about files in which every code stands for a string; for all others `LzwDecompress.Decompress` gives the error.
- Scope.CallRestores: programs are trees of what they do to names, with the values that come out of the arithmetic given; the registers `scale`, `ibase` and `obase`, the value returned, builtin functions, printing and the check of the machine stack are left out.
- ScopeMachine.Machine.PushVar: the capacity of the stacks and the freeing of numbers and arrays are left out.
- AtRuns.SpoolIsSafe: says nothing of numbers that overflow a `long`, of lack of memory, or of a daemon that dies; the contents of jobs, `fork`, users and mail are left out, and only what a job file says of owner, time and queue is in it.
- AtSteps.SortStep: of jobs with the same time and number, the order is any, as `qsort` may leave it.
- CopyWalk.CopyDir: the tree does not change, and has directories only; the target is outside it, so that directories the copy made, or a target that is the source, are not met. Files are left out.
- CopyWalk.CopyEntry: is about an entry that is a directory or leads to one; the tests for the same file and for a directory made by the copy are left out.
- CopyWalk.Copy: of an operand, only what follows the test that the target is not inside it is in it.
- OpenDirs.Stack.Pop: the error for a directory that has moved is in the code, and proved not to occur in an unchanging tree.
- Descriptors, buffering, file names, options and messages of all programs.
