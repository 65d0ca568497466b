# Verification of the vendored zlib codec and of the SQLite port's own code

This project models, in Dafny, the parts of the repository where correctness hangs on invariants that no
single function states, and proves what those parts are for.

- **Deflate and inflate** (`zlib/`, RFC 1950 and RFC 1951). The encoder: sliding window, hash chains,
  greedy and lazy matching, Huffman trees built over a heap with their length limit, the coding of code
  lengths, the choice of block form, bit output, wrapper. The decoder: two-level tables, the mode machine that
  stops and resumes anywhere, the fast loop, the circular window. At the end stand three statements: a text
  that arrives in any pieces, is compressed by `deflate_fast` or `deflate_slow`, is sent as a stream and is
  inflated with input and output cut up in any way, comes back (`Codec.CompressedComesBack`); inflate takes
  exactly the streams of the format, which is written down without any decoder, and refuses all others
  (`StreamDecoding.ExactlyStreams`, `Inflate.InflateInPieces`); and each literal and match tallied follows from
  what the matcher saw at its position and the next, where it saw all there was in reach (`Parsing.WhyLiteral`,
  `Parsing.WhyMatch`, `Parsing.SeenInReach`).
- **Checksums**: braided CRC-32 in either byte order and its combination, as polynomials over GF(2); Adler-32
  with its deferred reductions and its combination.
- **The SQLite port** (`SQLite_Esp_Port/`): the write-behind buffer of journal files, which no sequence of
  calls can tell from writing through, but for sizes asked for before a sync; and shox96, whose encoder and
  decoder are followed bit for bit.

Code that changes things step by step is modelled as methods over arrays and classes, each proved against a
function or predicate on values; the laws are lemmas about those. There is one module to a file, and its head
says which lines it models. `dafny verify dfyconfig.toml` verifies everything.

## How it is laid out

| part | modules |
|---|---|
| numbers and bits | BitOps, BitStream, BitReader |
| canonical codes and tables | Canonical, SortedSymbols, DecodeTable, TableFilling, SubTables, InflateTable, CodeLookup, CodeReading, TrimmedCodes |
| Huffman trees | Huffman, Heap, HeapMerge, MergeRuns, TreeScan, BitLengths, GenBitlen, BuildTree, BuiltTrees |
| blocks | RunLengths, CodeLengths, LengthCodes, BlockCodes, CompressBlock, BlockHeader, BlockCost, HeaderCost, FlushBlock, StaticTrees, SentBlock, TrFlush |
| matching | HashKey, HashChains, LongestMatch, Lz77, Parsing (why a literal, why a match), Deflate |
| inflate | InflateSpec (steps on values), InflateState, InflateRuns, InflateStep, InflateHeader, InflateTrees, InflateSymbols, InflateFast, FastEntry, InflateWindow, MatchCopy, InflateBack, Inflate |
| both together | HeaderDecoding, BlockDecoding, Blocks, RoundTrip, SendStream, CompressBound, Codec |
| the format | StreamFormat (what a stream is), Accepted, HeaderAccepted and StreamAccepted (a good end means a stream), StreamDecoding (a stream means a good end) |
| checks | CrcPoly, CrcRemainder, CrcPeriod, Crc, CrcCombine, ByteOrder, CrcBraid, CrcBig, Adler32, AdlerBase |
| SQLite port | Journal, ShoxBits, ShoxCode, ShoxDecode, ShoxTokens, ShoxEncode, ShoxCompress, ShoxDecompress |

## Where the code is not what it is said to be

- shox96 with references, into the text or into earlier lines, does not undo itself on every text. After a
  reference the encoder compares with the last but one character copied (`shox96_0_2.cpp:216` and `229`), the
  decoder repeats the last. `ShoxEncode.ThereAndBack` gives the exact condition, `ShoxEncode.RunAfterReference`
  a text that fails.
- shox96 drops the count of a run that is too long; the decoder then takes other bits for it, one of them from
  behind its input (`ShoxEncode.LongRunIsLost`).
- `inflate_fast` says that it is entered with fewer than 8 bits held (`inffast.c:29`). After a call of
  `inflate` that ended inside a code more may be held, at most 14: if and only if they begin a code with more
  bits than they are (`FastEntry.HeldInLen`, `FastEntry.HeldOnEntry`). `FastEntry.CutRun` and
  `FastEntry.EightHeld` give seven bytes of input that leave 8. What holds instead, and suffices for
  giving bytes back, is `InflateState.Inflater.Slim`.
- `longest_match` says that the result is `prev_length` when no match is longer (`deflate.c:1270-1271`); it is the
  lookahead when that is less (`LongestMatch.Longest`, with `LongestMatch.LessThanBefore` for such a call).
- The size of a journal file is asked of `fstat` without `fflush` (`esp32.cpp:298-307`), so bytes at the end that
  stdio still holds are not in it. It is right exactly when none are (`Journal.File.FileSize`), which is so
  after a sync; `Journal.SizeBehind` is a file whose size comes out one short.

## Model

| member | source | states |
|---|---|---|
| InflateTable.Build | zlib/inftrees.c:32-304 | For all code lengths of all three types: -1 exactly for over-subscribed and for incomplete sets that are not allowed; 1 exactly when the table would exceed the space; else a table whose one or two reads give, for every bit pattern, the symbol and length of the canonical code of section 3.2.2 of RFC 1951 or the invalid marker, with exactly the entries of root table and sub-tables used and nothing before it touched |
| Canonical.PrefixFree | zlib/trees.c:572-605 | Lengths within Kraft's inequality: no bits begin with the canonical codes of two symbols |
| Canonical.Complete | zlib/trees.c:589-593 | With equality, every bit pattern begins with some code |
| CodeLookup.LookupIs | zlib/inflate.c:1074-1090 | Reading any table that may be built gives what the code lengths alone say |
| CodeLookup.FoundStable | zlib/inflate.c:1074-1078 | An answer covered by the bits held is not changed by bits pulled later, so pulling one byte at a time is safe |
| Heap.PqDownHeap | zlib/trees.c:445-474 | Sinking a node restores the heap order from its place on and keeps the nodes as a multiset |
| HeapMerge.MergeTwo | zlib/trees.c:660-686 | One pass of the merging loop joins two lightest trees of the forest: the arrays stay a heap of the forest, a list of the joined nodes and their fathers; of equal weights it takes those of least depth, and the new tree gets one more than the greater depth, in eight bits |
| Huffman.TreeOptimal | zlib/trees.c:655-693 | Huffman's theorem on its own, without the heap and the arrays: the depths left by any run of lightest-pair merges cost no more than any code for the leaves, as long as none is deeper than the limit |
| BitLengths.Repair | zlib/trees.c:528-542 | From an excess of half of `overflow` in units of the longest length, a shorter leaf to move is always found, and the counts end at Kraft equality over as many leaves; there is one move for each two of `overflow`, each from the longest length in use below the limit at its time |
| BitLengths.GivenUpLast | zlib/trees.c:533-535 | No short code is given up while a longer one below the limit could be: when the first code of some length went, none of a length between it and the limit was left |
| GenBitlen.GenLengths | zlib/trees.c:486-562 | The lengths are a complete code for exactly the leaves within the limit, `opt_len` and `static_len` grow by exactly what the symbols take, `overflow` is twice the excess of the tree, and without overflow the lengths are the tree's depths; with it the counts come from those of the depths by moves from the longest length below the limit, and a heavier leaf never gets a longer code |
| BuildTree.GenCodes | zlib/trees.c:572-605 | Every symbol with a length gets its canonical code, bits reversed; the others are not touched |
| BuildTree.TreeState.BuildTree | zlib/trees.c:615-697 | For any frequencies that, with one for each symbol forced, sum to less than 65536: a complete code within the limit for exactly the used symbols and, if these are fewer than two, the one or two forced (the symbol after it if that is 1 or 2, else 0), with its canonical codes; `opt_len` and `static_len` grow exactly; when `gen_bitlen` meets no overflow, no prefix code on these symbols costs less; always, a heavier symbol never has a longer code than a lighter one, and after an overflow the counts are those of the tree's depths after moves of codes from the longest length below the limit |
| CodeLengths.ScanTree | zlib/trees.c:703-742 | The frequencies grow by exactly the codes that `send_tree` sends for the same lengths |
| CodeLengths.SendTree | zlib/trees.c:748-793 | Writes exactly the bits of the tokens of the lengths |
| RunLengths.TreeTokensExpand | zlib/trees.c:748-793 | Expanding those tokens gives the lengths back; all repeat counts are in range and none comes first (section 3.2.7 of RFC 1951) |
| RunLengths.TreeTokensGreedy | zlib/trees.c:703-793 | The state machine of both functions gives the tokens of a simple rule: as many zeros as one token can stand for, or as many repeats of the length before, and a length by itself only where these are fewer than three |
| BlockHeader.SendAllTrees | zlib/trees.c:834-858 | Writes exactly the header of a dynamic block |
| BlockHeader.OrderIs | zlib/trees.c:71-72 | The order of the nineteen lengths by rule (section 3.2.7 of RFC 1951): the three repeats, zero, and then outward from eight, up and down in turn |
| HeaderDecoding.HeaderRun | zlib/inflate.c:936-1058 | inflate's steps over a sent header arrive at the first symbol with the very code lengths that were sent |
| BlockCodes.LengthBack | zlib/trees.c:255-268 | The decoder's base and the extra bits sent give every match length back |
| BlockCodes.DistBack | zlib/trees.c:270-286 | The same for every distance up to 32768 |
| CompressBlock.SendSymbols | zlib/trees.c:1042-1087 | Writes exactly the codes and extra bits of the symbols in sym_buf and of the block's end |
| BlockDecoding.BlockRun | zlib/inflate.c:1064-1220 | inflate's steps over those bits, with any complete codes, extend the output as LZ77 says and end the block with nothing of what follows used |
| BlockDecoding.LongestTwoWays | zlib/trees.c:264-268 | Length 258 as code 284 with 31 and as code 285 decodes alike |
| BlockCost.PlanIsExact | zlib/trees.c:523-524 | The bits a block takes are the sum of frequency times length and extra bits |
| TrFlush.TrFlushBlock | zlib/trees.c:912-1008 | The block goes stored if and only if its text is at hand and with four bytes more is no longer than the bytes of the coded form, static under Z_FIXED and else the shorter of both; coded, it goes static if and only if Z_FIXED demands it or that is no longer than dynamic; the counts are those of the bits written; with its text at hand a block takes at most five bytes more than the text; the tallies start over |
| HashKey.ThirdByte | zlib/deflate.c:1379-1384 | For every hash size in use, equal keys and equal first two bytes force equal third bytes |
| HashChains.InsertString | zlib/deflate.c:176-179 | Inserting keeps every chain a list, newest first, of inserted positions with one key in prev[] taken modulo the window size, each entry the newest before it of all the positions ever inserted that have the key and lie behind the start of the window; it returns the newest of those before str |
| HashChains.SlideHash | zlib/deflate.c:198-222 | The same chains, relative to the window moved by its size |
| LongestMatch.Longest | zlib/deflate.c:1278-1422 | A result above prev_length is the length of a true repetition within the window and the lookahead, though the third byte is never compared; it is the greatest among the positions seen, or the lesser of prev_length and the lookahead when none beats prev_length; those seen are the chain up to the reason for stopping; every inserted position within reach that has the key is among them, unless the match is nice enough or as many newer ones were seen as may be |
| LongestMatch.LessThanBefore | zlib/deflate.c:1420-1421 | A call with prev_length 4 and a lookahead of 3 whose result is 3 |
| Deflate.DeflateState.FillWindow | zlib/deflate.c:1527-1646 | Sliding, reading and inserting held-back strings keep the window showing the text and the chains right, and leave room and lookahead unless the input is used up, and then leave input only when the window is full; 258 bytes behind the text, or all there are, are not left unset; the strings held back are in the dictionary once three bytes of them are there |
| Parsing.WhyLiteral | zlib/deflate.c:2022-2086 | Of the symbols tallied by either matcher: a literal stands only where none of the positions seen repeats three bytes, or lazily where what was found is discarded (up to five bytes under Z_FILTERED, three bytes from more than 4096 back) or the next position has a longer match |
| Parsing.WhyMatch | zlib/deflate.c:2036-2064 | A match tallied is a true repetition, no shorter than any at the positions seen for it and, lazily, than the one that counts at the next position |
| Parsing.SeenInReach | zlib/deflate.c:2001-2021 | At every position looked at with three bytes before it, the string is in the dictionary, and every earlier inserted position behind the start of the window and nearer than MAX_DIST that has these three bytes was seen, unless lazily the match before was long enough, the one found is nice enough, or as many newer ones were seen as max_chain_length allows |
| Deflate.DeflateState.DeflateFast | zlib/deflate.c:1877-1971 | Between calls the symbols tallied and flushed decode to exactly the input consumed, across any slides and flushes, with distances in range, and each follows from what was seen as the rows of Parsing say, with no position looked at before 262 bytes after it were read or the input was at its end, and with the strings of a match of up to max_insert_length put into the dictionary; a call that is done has sent all of it, and one that is not, and flushed no block, used up its input |
| Deflate.DeflateState.DeflateSlow | zlib/deflate.c:1979-2102 | The same for lazy matching, less the one pending literal while a call is under way; all strings of a match are put into the dictionary as far as three bytes of them were read, and the match to be beaten is the one that waits |
| CompressBound.BlocksFit | zlib/compress.c:81-86 | Blocks at most five bytes over their text, all but the last covering 16383 bytes, and the wrapper fit in `compressBound` |
| CompressBound.FullAreLong | zlib/deflate.c:373-377 | Blocks flushed because sym_buf was full cover 16383 bytes |
| SendStream.TrInit | zlib/trees.c:379-402 | The static tables and trees are the fixed codes and length codes of sections 3.2.5 and 3.2.6 of RFC 1951, and the first block starts empty |
| SendStream.SendWhole | zlib/deflate.c:866-893 | The bytes sent are the stream of header, blocks and trailer; long blocks with their text at hand come to at most `compressBound` of the text |
| RoundTrip.StreamDecoded | zlib/inflate.c:658-1272 | Any such stream, raw or with the zlib wrapper, of blocks of any form, decodes to the text, a good end and no bit over |
| RoundTrip.HeaderParts | zlib/deflate.c:869-885 | The two bytes of a zlib header hold method 8, the window size and the level as section 2.2 of RFC 1950 places them, announce no dictionary and are a multiple of 31 |
| StreamDecoding.ExactlyStreams | zlib/inflate.c:658-1272 | For all bytes: the run over them comes to a good end n bytes on with a text if and only if those n bytes are a stream of it as section 2 of RFC 1950 and section 3 of RFC 1951 say: a wrapper that is a multiple of 31, with method 8, a window up to 32K and no dictionary; blocks, the last one marked; stored lengths and their complements; 257 to 286 and 1 to 30 code lengths, with any tokens that expand to them, and a code for the end of block; codes that are complete or of the kinds excused; literals and references that reach no farther back than the output; any padding; and the Adler-32 of the text, most significant byte first |
| StreamDecoding.OneStream | zlib/inflate.c:658-1272 | At most one beginning of any bytes is a stream, and of one text only |
| StreamDecoding.DictionaryAsked | zlib/inflate.c:848-858 | A run ends in DICT if and only if the two bytes are right but announce a dictionary and four more are there, before any output and right behind those six |
| StreamDecoding.StreamRun | zlib/inflate.c:658-1272 | Every stream is taken, however its encoder coded the lengths, padded the blocks and chose the codes |
| StreamAccepted.OnlyStreams | zlib/inflate.c:1221-1252 | Only streams are taken: from any good end the blocks, the wrapper and the check are read back |
| StreamAccepted.SectionsMean | zlib/inflate.c:871-935 | From a run that ends well: the blocks it took, of any kind, with the output that they stand for |
| HeaderAccepted.HeaderMeans | zlib/inflate.c:936-1058 | From a run that ends well: the code lengths, the nineteen that coded them and the tokens, all as the format allows |
| Accepted.PiecesMean | zlib/inflate.c:1064-1220 | From a run that ends well: the literals, lengths and distances of a block up to its end |
| SendStream.ThereAndBack | zlib/inflate.c:625-1302 | Blocks that stand for a text, sent and inflated in any pieces: once everything was offered the text is back, the end is good and the whole stream is used |
| Codec.CompressedComesBack | zlib/deflate.c:1877-2102 | The whole way: text in any pieces, either matcher, flushes Z_NO_FLUSH, Z_BLOCK and Z_FINISH in any order, any block forms, raw or zlib, any cuts of input and output; the symbols of all blocks together follow from what the matcher saw; and within `compressBound` at the default memory level or above without flushes |
| InflateHeader.DoFixed | zlib/inflate.c:880-889 | Choosing the fixed codes is a step of the mode machine and leaves tables that decode them |
| InflateTrees.DoCodeLens | zlib/inflate.c:977-1058 | The CODELENS loop, stopped and resumed anywhere, takes steps of the machine up to the two tables |
| InflateSymbols.DoMatch | zlib/inflate.c:1170-1214 | The copy from window and output, cut short by either, is a stretch of the LZ77 copy from all history |
| InflateWindow.Window.Update | zlib/inflate.c:399-447 | After any updates the window holds the last bytes of the output, as many as fit, ending at wnext |
| MatchCopy.WindowCopied | zlib/inflate.c:1172-1212 | A piece taken from the window is the LZ77 copy from the history behind it |
| InflateRuns.AlikeEnd | zlib/inflate.c:658-1272 | What earlier symbols left in the fields length, offset and extra has no bearing on how a run ends |
| InflateFast.ItemRun | zlib/inffast.c:103-290 | A whole symbol decoded at once is what the modes LEN to LIT do one after another, errors included |
| FastEntry.HeldInLen | zlib/inffast.c:25-32 | Between symbols fewer than eight bits are held, or fewer than the code that they begin has: the same as holding no byte that could be done without |
| FastEntry.HeldOnEntry | zlib/inffast.c:25-32 | The fast loop is entered with eight bits or more only if those are the beginning of a longer code, and with at most 14 |
| FastEntry.CutRun | zlib/inflate.c:1064-1090 | From the start, steps over seven bytes lead to LEN with eight bits left, which are no code |
| FastEntry.EightHeld | zlib/inffast.c:29 | A call of inflate with those bytes ends in LEN with eight bits held |
| InflateFast.DecodeFast | zlib/inffast.c:50-307 | Entered with 6 bytes and room for 258, the fast loop takes steps of the machine (same output, bit position and error), never leaves its buffers, and ends with fewer than 8 bits held |
| Inflate.Call | zlib/inflate.c:625-1302 | One call, in a flush mode that never stops between blocks, for raw or zlib, takes steps of the machine, and stops only at an end, for want of all input or for want of all room, with the return code that says which; when the last of the calls returns Z_STREAM_END the bytes taken by all of them are a stream of the output, and when it returns Z_DATA_ERROR no beginning of the bytes is a stream |
| Inflate.InflateInPieces | zlib/inflate.c:1280-1302 | However a stream is cut into calls, output, mode and position to the bit are those of the one run over all bits, whenever the calls end, starve, offer enough at the last or go on steadily; Z_STREAM_END means that the bytes up to the position are a stream of the output, Z_DATA_ERROR that no beginning of the bytes is a stream, and a beginning that is one ends with Z_STREAM_END right behind it; a call starves only with fewer than 32 bits unread |
| InflateBack.BackWindow.CopyMatch | zlib/infback.c:579-605 | Copying around the end of the window that is the output buffer is the LZ77 copy from all output; a distance is refused exactly when it reaches before the output or out of the window |
| InflateBack.BackWindow.Play | zlib/infback.c:513-606 | The symbols of a block, however they were read, leave in window and output exactly what they decode to |
| CrcPoly.MultModP | zlib/crc32.c:551-569 | Terminates for nonzero a and multiplies the polynomials modulo p(x) |
| CrcRemainder.MulIsProduct | zlib/crc32.c:547-550 | That multiplication is the remainder of the carry-less product, by a definition without registers |
| CrcRemainder.PowerIsRemainder | zlib/crc32.c:571-574 | Power(n) is the remainder of x^n |
| CrcRemainder.CrcIsRemainder | zlib/crc32.c:748-1067 | The CRC of any data is the remainder of the message times x^32, the initial register added (section 8 of RFC 1952) |
| CrcRemainder.PolynomialIs | zlib/crc32.c:257-258 | The polynomial by its exponents |
| CrcPeriod.PowerPeriod | zlib/crc32.c:584 | x^(2^(k+32)) is x^(2^k), so indexing the table of squares modulo 32 is right |
| CrcCombine.X2nModP | zlib/crc32.c:575-589 | x^(n 2^k) modulo p(x), for every n and k |
| CrcCombine.CombineChecks | zlib/crc32.c:1081-1090 | From the CRCs of A and B and the length of B, the CRC of A and B together |
| CrcBraid.Braid | zlib/crc32.c:514-531 | The braiding tables advance a byte over the rest of a block; those for big-endian machines hold the same for the byte at the other end, reversed |
| CrcBraid.BraidedBlocks | zlib/crc32.c:778-915 | On a little-endian machine the interleaved checks of words, joined in the last block, are the check of the blocks' bytes one by one |
| ByteOrder.ByteSwap | zlib/crc32.c:121-142 | Masks and shifts reverse the bytes of words of four and of eight |
| ByteOrder.SwapXor | zlib/crc32.c:735-743 | Reversing bytes distributes over exclusive or, so registers may be kept reversed |
| CrcBig.BigWordCheck | zlib/crc32.c:735-743 | On a reversed word it gives what the little-endian loop gives, reversed |
| CrcBig.BigBraidedBlocks | zlib/crc32.c:916-1038 | Braided on a big-endian machine: the check of the blocks' bytes one by one |
| CrcBig.Crc32Z | zlib/crc32.c:748-1067 | For any number of braids, words of four or eight bytes, either byte order, any alignment, length and start, the bit-at-a-time CRC |
| Crc.UpdateIsFeed | zlib/crc32.c:1051 | One table step is eight bit steps |
| Adler32.Adler32Z | zlib/adler32.c:63-131 | Equals the check reduced after every byte, for reduced starting sums or more than one byte, with 32-bit sums that wrap if they can; the result is reduced |
| Adler32.NmaxLargest | zlib/adler32.c:13-14 | One byte more than NMAX between reductions can overflow |
| AdlerBase.BaseIsLargest | zlib/adler32.c:12 | 65521 is prime, and no number from there to 65535 is |
| AdlerBase.AllOnesCheck | zlib/adler32.c:63-131 | 257 bytes 0xff, whose sums pass the modulus, have the check 0x080f000f |
| Adler32.Combine | zlib/adler32.c:143-169 | The conditional subtractions always suffice; all ones for a negative length |
| Adler32.CheckInTwo | zlib/adler32.c:143-169 | Checks of two pieces, combined, are the check of both |
| Journal.File.Write | SQLite_Esp_Port/esp32.cpp:199-247 | The file overlaid with the buffer becomes what writing through would have made it; the copy loop ends; a write that goes on where the buffer ends, and fits, gives stdio nothing |
| Journal.File.FileSize | SQLite_Esp_Port/esp32.cpp:286-311 | The size is never too great, and it is right exactly when no byte that stdio still holds lies behind the end that fstat sees |
| Journal.File.Run | SQLite_Esp_Port/esp32.cpp:96-311 | Any run of writes, reads, syncs and size queries leaves the contents and gives the answers of a file written through, whatever stdio holds back; sizes, when no write came after the last sync |
| ShoxBits.AppendBits | SQLite_Esp_Port/shox96_0_2.cpp:53-86 | Appends the leading bits of the code, highest first, less a change of state in front in the second state, and disturbs no bit before |
| ShoxCode.CodeIsSpelling | SQLite_Esp_Port/shox96_0_2.cpp:36-37 | All 95 codes of the encoder are the prefixes by which the decoder's tables lead to that character |
| ShoxCode.PlaceRead | SQLite_Esp_Port/shox96_0_2.cpp:342-357 | Every place prefix is read as its place, whatever follows |
| ShoxCode.SetRead | SQLite_Esp_Port/shox96_0_2.cpp:342-357 | Every set prefix is read as its set |
| ShoxTokens.CountRead | SQLite_Esp_Port/shox96_0_2.cpp:88-102 | Every count below 70308 is read back, with exactly its bits used |
| ShoxTokens.TokenRead | SQLite_Esp_Port/shox96_0_2.cpp:390-496 | Every piece of code is read, in one turn, as what it stands for, and leaves the decoder in the encoder's state |
| ShoxEncode.PadRead | SQLite_Esp_Port/shox96_0_2.cpp:297-300 | The padding ends the text in every state |
| ShoxEncode.ThereAndBack | SQLite_Esp_Port/shox96_0_2.cpp:174-304 | For every text of printable ASCII, tab, CR and LF whose counts fit, any earlier lines that the decoder has too, and whatever bits lie behind the input: decoding gives it back if and only if no run is coded after a reference whose last character is not the run's |
| ShoxEncode.AlwaysRight | SQLite_Esp_Port/shox96_0_2.cpp:195-207 | Without references that condition always holds |
| ShoxEncode.ShortIsCounted | SQLite_Esp_Port/shox96_0_2.cpp:93-101 | Texts of fewer than 70312 characters, with at most 70308 earlier lines of fewer than 70320 characters, have only counts that fit |
| ShoxEncode.RunAfterReference | SQLite_Esp_Port/shox96_0_2.cpp:214-218 | "abcdefg" twice and then five times "f" does not come back with references, and does without |
| ShoxEncode.LongRunIsLost | SQLite_Esp_Port/shox96_0_2.cpp:196-206 | 70313 or more times "a" comes back as six or five, as the bit behind the input is set or not |
| ShoxCompress.MatchOccurance | SQLite_Esp_Port/shox96_0_2.cpp:104-121 | Finds the first earlier place that agrees for at least seven characters and writes the reference, or says that there is none |
| ShoxCompress.MatchLine | SQLite_Esp_Port/shox96_0_2.cpp:123-172 | Leaves the reference to the place sought in the earlier lines and nothing of those tried before it, or says that there is none |
| ShoxEncode.SeekFinds | SQLite_Esp_Port/shox96_0_2.cpp:131-163 | Of all places in all lines that agree for at least twelve characters, that one is nearest to the beginning of its line, and among equals in the last line |
| ShoxCompress.Compress | SQLite_Esp_Port/shox96_0_2.cpp:174-304 | The loop over the buffer writes exactly the bits of the specified encoding, in whole bytes |
| ShoxDecompress.GetCodeIdx | SQLite_Esp_Port/shox96_0_2.cpp:342-357 | Gives the index and the bits used that the tables say, and stops where the bits run out |
| ShoxDecompress.Decompress | SQLite_Esp_Port/shox96_0_2.cpp:378-500 | The loop over the buffer gives what decoding its bits gives |
| ShoxDecompress.Through | SQLite_Esp_Port/shox96_0_2.cpp:378-500 | Compressed and decompressed, a text comes back exactly under the condition above, and always without references |

## Left out

- gzip: headers, the FLAGS to HCRC modes and the length trailer are not modelled; streams are raw or zlib.
- Preset dictionaries: inflate stops in the mode DICT, as it does until one is set; deflate never announces one.
- Flush modes: `inflate` is modelled for the modes that never stop between blocks; `deflate` for Z_NO_FLUSH, Z_BLOCK and Z_FINISH. The empty blocks and the clearing of the hash table that follow other flushes are not modelled.
- Windows under 32K for inflate: there, without INFLATE_STRICT, a far distance may be accepted or not depending on how the output is split, so independence of the cuts does not hold.
- ENOUGH_LENS and ENOUGH_DISTS: parameters. Table space running out is then a verdict of the model too; `RoundTrip.StreamDecoded` asks that the codes sent find room, which 65536 entries always give.
- deflateParams, deflatePrime, deflateTune, deflateCopy, deflate_stored, deflate_rle, deflate_huff, inflateCopy, inflateSync and the like: wide, and with little that the rest does not show.
- The output buffer of deflate: a flush may or may not find it full, which is left open in `Deflate`; the bytes pending are not cut into pieces.
- 16-bit machines, ARM's CRC instructions, unaligned comparison, FASTEST, allocation failure and debugging code.
- crc32.h, inffixed.h and trees.h: the tables in them are built by the code that generates them.
- Parsing.SeenInReach: the window's first byte is never a candidate, as index 0 means none in the tables; where the window begins depends on how the input arrives, and is part of what is recorded for each position.
- Deflate.DeflateState.DeflateFast: Z_BLOCK stands for every flush that ends a block before the input does, so what `deflate` adds after such a block is not stated.
- InflateTable.Build: lengths are in 0 to 15 as the code says it assumes, and for the code length code, whose space the code does not check, the caller must provide the room.
- BuildTree.TreeState.BuildTree: frequencies that sum to 65536 or more, with one for each symbol forced, could wrap in 16 bits and are excluded; sym_buf cannot hold them.
- InflateBack.BackWindow.Play: the mode machine around the copying, which repeats inflate's, and its calls of inflate_fast, which bounds distances in its own way, are not modelled.
- Widths: registers of 16 and 32 bits are natural numbers with proved bounds, except in Adler32, where the sums wrap, and in the CRC, where words are cut explicitly.
- Arrays of the source that are handed over as they are (lens[], the tables once built, sym_buf) are sequences.
- Inflate.InflateInPieces: with which of its messages inflate refuses a stream is that of the mode machine's first failing step, and not stated otherwise; nor that it refuses as soon as it could.
- State after an error: inflate's check value and the window after a data error are not stated.
- Journal.File.Run: calls into the C library do not fail, and stdio passes bytes on in the order in which it got them; the `IDF_MODE` half of the file is not compiled.
- ShoxEncode.ThereAndBack: characters without a code, which the encoder drops, are not modelled; for texts with a count that does not fit only `LongRunIsLost` is stated.
- ShoxCompress.Compress: the caller must provide room for the encoding, and with earlier lines 73 bits more for references that are tried and overwritten; how the SQL functions size their buffers is not modelled.
- ShoxDecompress.Decompress: references that overlap what they copy, or to what does not exist, are outside the model.
- unishox1.c, SQLiteCPP, MaxDB, JsonQuery and the examples: string building and plumbing around libraries that are not here.
