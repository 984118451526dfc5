# Verification of frag_find and NSRLBloom

frag_find looks for the blocks of known master files in a disk image. It hashes each master block by block, keeps an index from block digest to master blocks and a Bloom filter in front of it, scans the image, and notes for every master block where in the image it was seen. The notes (the filemap) are disambiguated by `clean()`, cut into runs, and reported as text and as DFXML. The repository also holds the pieces this rests on: the Bloom filter library with its file format and its mutex, MD5, a paged line reader, and a DFXML writer and reader.

The project models these pieces in Dafny and proves what they are for. `dafny verify dfyconfig.toml` checks all of it.

| file | models |
|---|---|
| `Bits`, `Offsets`, `Options` | bytes and their bits, powers of two, block and byte offsets, optional values |
| `Filemaps` | the filemap: `clean`, `runlen`, `found_count` |
| `Reports` | rows and runs of a report: partition, matching bytes, coverage |
| `Reassembly` | when the runs, joined in order, are the master |
| `Digests` | `md5_t` and the order of the digest index |
| `ScanSpec`, `Masterfiles`, `FragFind` | index, scan and `main`, against the naive comparison of every block with every block |
| `Soundness`, `Validation` | what a report says about bytes; the program's own test, for all inputs |
| `BloomSpec`, `BloomCounts`, `Bloom` | the Bloom filter as a set of bits with counters, and the object that refines it |
| `BloomThreads` | the filter used by many threads, step by step |
| `Decimals`, `BloomHeader`, `BloomFile` | numbers as text, the header page, writing and opening filter files |
| `Rfc1321`, `Md5Transform`, `Md5Counter`, `Md5Stream`, `Md5Vectors` | MD5 as RFC 1321 describes it, the program's MD5, and two digests of the RFC's test suite |
| `RdsReader` | the sliding-buffer line reader `RDSFile` |
| `XmlText`, `Dfxml`, `DfxmlReader`, `DfxmlReport`, `DfxmlRoundTrip`, `DfxmlLegible`, `DfxmlText` | the XML writer and the SAX reader, that one undoes the other, which reports a parser accepts, and what a report looks like |

Objects whose methods update fields are classes, and their methods are proved against functions of the state; the theorems are about those functions. Inner loops of long methods are methods of their own.

## Main results

- **Scan.** For every image, list of masters and scan range, the filtered, index-driven scan leaves in each filemap entry exactly the increasing list of scanned image blocks with the digest of that master block (`ScanSpec.ScanExactly`, `FragFind.Run`), `hits` is the number of scanned blocks that the filter lets through, and `hits - bloom_false_positives` the number of those whose digest occurs in some master (`FragFind.PassedIsCount`, `ScanSpec.MatchingIsCount`). Block numbers pass through a 32-bit parameter, so this holds exactly when no master block numbered 2^32 or more occurs in the scanned blocks; `ScanSpec.WideBlockIsLost` shows the loss.
- **clean().** One call reaches a fixpoint of both rewrite rules, so iterating it, as a comment in `main` suggests, changes nothing; a filemap is left alone exactly when no rule applies; the result has a closed form; runs anchored at a unique block survive.
- **Report.** The rows partition the found blocks, are unique, start at the lowest location of their first block, and add up to `found_count()`; every run names equal bytes of master and image if equal digests mean equal blocks; the runs cover the master exactly when all blocks and the tail were found. That is not enough for the test of the repository, which joins the runs: a lone block with several locations is joined once for each (`Soundness.BlockTwiceIsJoinedTwice`). If equal digests mean equal blocks, and no master block numbered 2^32 or more occurs, the joined runs are the master exactly if image and master are such that every full block occurs in the scanned blocks, the cleaned hits never come to a lone block with several locations, and the partial block follows a location of the last full one (`Soundness.ReportReassemblesMaster`). `Soundness.OnceEachIsRecoverable` gives the plain case: every full block occurs once, and the partial block follows.
- **The whole program.** For every image and list of masters, the search, the report as XML and its reading are composed (`Validation.SearchAndRead`): one object per master comes back, with its MD5 and its runs, and the test passes on it as above (`Validation.ReportValidates`).
- **Bloom filter.** Any mix of adds and queries keeps the vector equal to the union of the slices of the added hashes; the counters bound the number of set bits; the two bit counts of the library agree; slicing is one-to-one exactly when it uses all bits of the hash. Bits of hashes and of the vector are given as binary digits of their bytes.
- **Threads.** With the mutex, every interleaving of steps of any number of threads leaves the vector, the counters and the answers of the calls run one at a time in lock order; a query answers yes exactly if earlier adds set all its bits. In every state of every run the vector holds all bits of every add that has ended, and a query that begins after an add of its hash has ended finds it: both exactly for filters with the mutex (`BloomThreads.AddsAreHeldExactlyWithMutex`, `BloomThreads.AddsAreFoundExactlyWithMutex`). Without it two adds to one byte can lose a bit (`BloomThreads.AddIsLost`), also if all calls are `nsrl_bloom_addString`. `nsrl_bloom_addString` never counts an aliased add in one thread, and can in two: it takes the mutex twice.
- **Filter files.** A filter that is written and opened again is the same filter exactly when its numbers are ints, its comment has no newline, and its header fits the page. While hashes are added, the header is rewritten after every 1000 adds only and not at the end: the counters in the file are current exactly after a multiple of 1000 adds (`BloomFile.FileCountsThousands`). The bits in the file are the current ones because the vector is mapped; the model takes `mmap` to do that at once.
- **MD5.** For every way of cutting a message into updates, the digest is that of RFC 1321. The 64 unrolled steps are the operations of section 3.4 on all inputs, and the digests of two messages are computed (section A.5).
- **Line reader.** A file is read as its lines exactly if every line, or the file, ends within the buffer that is fetched at the line's start: 1024 bytes in the first half buffer of the file, 512 bytes behind the start elsewhere (`RdsReader.ReadAllIsLines`). So lines shorter than half the buffer are always safe, and no longer bound is (`RdsReader.LongestLine`; the source says: shorter than the buffer); otherwise text is returned twice. The first call with an offset inside the first line of the file loses that line's first character.
- **DFXML.** What the writer writes is well nested; the reader neither exits on a mismatch nor crashes on a report, and delivers one object per master with its digest and its runs in order, however the parser cuts the character data. Escaped text comes back unchanged exactly if it has no control characters below U+0020. NUL, tabulators and ends of line come back percent-encoded; the others are written as they are, and a parser stops at them: it accepts a report exactly if no text in it has one (`DfxmlLegible.ReportIsParsed`).

Where the code and its texts disagree the model follows the code: `-X1` does not turn off the Bloom filter (the flag only affects messages), and the comment on the buffer of `RDSFile` promises more than the code does.

## Model

| member | source | states |
|---|---|---|
| Filemaps.ContainsBlock | src/frag_find.cpp:110-116 | true exactly when the block is in the list |
| Filemaps.ForwardRecurrence | src/frag_find.cpp:131-139 | the closed form of the forward pass obeys the loop's rewrite, block by block |
| Filemaps.BackwardRecurrence | src/frag_find.cpp:142-150 | the closed form of both passes obeys the backward rewrite on the forward result |
| Filemaps.ForwardIsStable | src/frag_find.cpp:131-139 | after the forward pass no forward rewrite applies anywhere |
| Filemaps.CleanedIsStable | src/frag_find.cpp:130-151 | after both passes neither rewrite applies anywhere: the backward pass re-enables none |
| Filemaps.CleanedFixesExactlyStable | src/frag_find.cpp:130-151 | cleaning changes nothing if and only if no rewrite applies |
| Filemaps.CleanIdempotent | src/frag_find.cpp:716 | cleaning twice is cleaning once, so iterating it is useless |
| Filemaps.CleanedClosedForm | src/frag_find.cpp:130-151 | which single location a block gets, from the nearest unique block below or above, and that other lists stay |
| Filemaps.CleanedSelects | src/frag_find.cpp:130-151 | each list stays, or becomes one of its own locations; no list is emptied or filled |
| Filemaps.AnchoredRunSurvives | src/frag_find.cpp:130-164 | the run from a unique block is as long after cleaning, and all its blocks end with their aligned location |
| Filemaps.RunIsUnique | src/frag_find.cpp:156-164 | the length of the maximal run from a location is determined |
| Filemaps.CleanedKeepsFound | src/frag_find.cpp:166-172 | cleaning keeps the set of found blocks |
| Filemaps.Filemap.constructor | src/frag_find.cpp:388 | a new map has one empty list per block |
| Filemaps.Filemap.Clean | src/frag_find.cpp:130-151 | the two in-place passes compute the closed form |
| Filemaps.Filemap.RunLen | src/frag_find.cpp:156-164 | returns the maximal run from the location |
| Filemaps.Filemap.FoundCount | src/frag_find.cpp:166-172 | counts the non-empty lists |
| Reports.RowsUnique | src/frag_find.cpp:257-301 | a filemap has only one list of ascending disjoint maximal rows: the greedy cut |
| Reports.RowsCoverFound | src/frag_find.cpp:257-301 | a block is in a row if and only if it was found |
| Reports.RowsCountFound | src/frag_find.cpp:166-172 | row lengths add up to the number of found blocks |
| Reports.RowsAddUpToFoundCount | src/frag_find.cpp:166-172 | the rows of a report add up to what `found_count` returns, before and after cleaning |
| Reports.RowInFile | src/frag_find.cpp:266-269 | a row ends within the file: the clamp never shortens a run |
| Reports.RunsOfRow | src/frag_find.cpp:271-298 | the offsets and lengths, in bytes, of the runs of a row: one run, or one for each location of a lone block, in the order of the list |
| Reports.TailIs | src/frag_find.cpp:303-335 | offset, image offset and length of the run of the partial block: of the first location that its bytes follow; none exactly if they follow no location |
| Reports.RunsMatch | src/frag_find.cpp:271-298 | every run of a row names equal bytes if every location does |
| Reports.TailMatchesBytes | src/frag_find.cpp:303-335 | the run of the partial last block names equal bytes |
| Reports.CoveredExactly | src/frag_find.cpp:257-335 | which byte offsets of the master the runs cover |
| Reports.WholeMasterCovered | src/frag_find.cpp:257-335 | the runs cover the file if and only if all blocks were found and the tail, if any, matched |
| Reports.ReportTiles | src/frag_find.cpp:257-335 | the runs tile the file without overlap if and only if no lone block has several locations, given full coverage |
| Reports.TilesReassemble | src/test_frag_find.py:38-50 | image bytes of tiling, matching runs, joined in order, are the master |
| Reports.ReportReassembles | src/test_frag_find.py:38-50 | if all blocks and the tail were found and no lone block has several locations, the joined runs are the master |
| Reassembly.OnlyCompleteReassembles | src/test_frag_find.py:38-50 | if the joined runs are the master, all that is so |
| Reassembly.ReassemblesExactlyComplete | src/frag_find.cpp:255-336 | both: the joined runs are the master if and only if the report is complete |
| Reassembly.UnambiguousIsCleanCut | src/frag_find.cpp:257-301 | whether the greedy cut comes to a lone block with several locations, read off the filemap |
| Reassembly.SettledCutsCleanly | src/frag_find.cpp:130-164 | if every block has at most one location, or cleaning leaves it one, the cut never does |
| Digests.LessIsLexicographic | src/md5.h:112-121 | the operators, with their shortcut, are lexicographic order and equality |
| Digests.IndexKeysAreDigests | src/md5.h:112-121 | keys that compare equal in the index are equal digests, and the order is asymmetric |
| Digests.LessIsTransitive | src/md5.h:112-117 | the order is transitive |
| ScanSpec.HeldOnce | src/frag_find.cpp:355-357 | below 2^32 blocks the index holds each block number once, under its digest |
| ScanSpec.NaiveIsAllMatches | src/frag_find.cpp:597-655 | the naive list holds exactly the scanned image blocks with the digest |
| ScanSpec.NaiveIncreases | src/frag_find.cpp:597-655 | the list is strictly increasing |
| ScanSpec.ScanExactly | src/frag_find.cpp:342-358 | index-driven and naive scan agree if and only if no master block numbered 2^32 or more occurs in the scanned blocks |
| ScanSpec.WideBlockIsLost | src/frag_find.cpp:342-357 | a master of 2^32 + 1 blocks, searched in itself: its last block occurs and is not reported |
| ScanSpec.MatchingIsCount | src/frag_find.cpp:640-654 | the matching blocks are counted once each: the scanned blocks whose digest some master has |
| Masterfiles.Masterfile.constructor | src/frag_find.cpp:388 | a new master has an empty index and an empty filemap |
| Masterfiles.Masterfile.AddBlockHash | src/frag_find.cpp:342-358 | the index and the filter gain the block |
| Masterfiles.Masterfile.Load | src/frag_find.cpp:376-388 | the index holds every block number under its digest; the filter is the one after adding every digest in order |
| Masterfiles.Masterfile.Entry | src/frag_find.cpp:643 | the lookup, which enters an absent key, changes no lookup |
| Masterfiles.Masterfile.PushBlocks | src/frag_find.cpp:643-649 | the image block is appended for each index entry |
| Masterfiles.Masterfile.RecordBlock | src/frag_find.cpp:642-650 | the image block is appended to the list of every block with its digest |
| Masterfiles.Masterfile.EmitRow | src/frag_find.cpp:262-300 | the runs of one row, one for a long row, one per location for a lone block |
| Masterfiles.Masterfile.EmitNextRow | src/frag_find.cpp:262-300 | the row at a found block is the maximal run from its first location |
| Masterfiles.Masterfile.EmitRows | src/frag_find.cpp:257-301 | the greedy cut gives ascending disjoint maximal rows that leave out no found block |
| Masterfiles.Masterfile.EmitTail | src/frag_find.cpp:303-335 | the partial block behind the first location of the last block that it follows |
| Masterfiles.Masterfile.PrintReport | src/frag_find.cpp:255-336 | rows, then tail |
| FragFind.NotFilteredOut | src/frag_find.cpp:634 | the filter never hides a digest that occurs in a master |
| FragFind.StopIs | src/frag_find.cpp:593-597 | the scan ends before block `end`, or with the image if that comes first or `end` is 0 |
| FragFind.PassedIsCount | src/frag_find.cpp:634-654 | the blocks that pass are counted once each: the scanned blocks all of whose bit numbers are set |
| FragFind.FilterBits | src/frag_find.cpp:414-420 | the bits of the filter are the bit numbers of the digests of the masters |
| FragFind.RecordInMasters | src/frag_find.cpp:640-650 | one image block is recorded in all masters, and counted |
| FragFind.ScanBlock | src/frag_find.cpp:628-654 | one turn of the scan, with the filter, is the turn without it, and counts hits and false positives |
| FragFind.Scan | src/frag_find.cpp:593-655 | the scan leaves in every filemap what the index says of every scanned block; hits counts the blocks that pass the filter, hits less false positives the matching ones |
| FragFind.AddMasterFile | src/frag_find.cpp:414-420 | a master is opened and loaded |
| FragFind.AddNextMaster | src/frag_find.cpp:414-420 | one more master: its index and filemap, and the filter after its digests |
| FragFind.AddMasterFiles | src/frag_find.cpp:580-583 | all masters are loaded unless one is larger than the image |
| FragFind.ReportableIs | src/frag_find.cpp:303-306 | which masters can be reported: the empty ones, and those with a full block |
| FragFind.ReportMaster | src/frag_find.cpp:714-717 | clean once, then report |
| FragFind.ReportMasters | src/frag_find.cpp:687-735 | one report per master |
| FragFind.ScanAndReport | src/frag_find.cpp:585-735 | the scan, then a report per master, of the filemaps that the digests determine |
| FragFind.Run | src/frag_find.cpp:550-735 | which check exits for which input, and otherwise the reports of the scanned filemaps, with both counts as functions of image and masters |
| ScanSpec.CollisionOtherwise | src/frag_find.cpp:628-650 | where the assumption on digests fails, a block of the master and a different one of the image have the same digest |
| Soundness.ScanMatches | src/frag_find.cpp:597-655 | if no blocks collide, every noted location holds the bytes of its master block |
| Soundness.ReportIsSound | src/frag_find.cpp:255-336 | if no blocks collide, every reported run names equal bytes of master and image |
| Soundness.FoundExactly | src/frag_find.cpp:642-650 | a block is reported found if and only if its digest occurs in the scanned range |
| Soundness.RowStartsAtLowest | src/frag_find.cpp:262-263 | every reported row starts at the lowest location of its first block, and goes on exactly as long as each next block has the next location |
| Soundness.CompleteIsRecoverable | src/frag_find.cpp:593-735 | a report is complete if and only if image and master make it so |
| Soundness.ReportReassemblesMaster | src/test_frag_find.py:38-50 | the joined runs are the master if and only if a condition on image and master alone holds |
| Soundness.OnceEachIsRecoverable | src/test_frag_find.py:38-50 | it holds if every full block occurs once in the scanned blocks and the partial block follows |
| Soundness.BlockTwiceIsJoinedTwice | src/frag_find.cpp:281-298 | every master of one block, searched in two copies of itself, is found, and the joined runs are two copies |
| Soundness.ReportLiesInFiles | src/frag_find.cpp:255-336 | every run of every report lies in master and image, whatever the hash |
| Validation.ReportValidates | src/test_frag_find.py:38-50 | what is read back has the master as contents if and only if the condition holds; the test passes if and only if the contents have the master's MD5 |
| Validation.WriteAndRead | src/frag_find.cpp:663-742 | a report that a parser accepts is written and read back whole |
| Validation.SearchAndRead | src/test_frag_find.py:30-50 | search, report and reading for every image and list of masters: the sizes written for the image, and one object per master, with its name, its size in bytes and in full blocks, its digest and its runs, validated as above |
| Bits.BitIsDigit | src/bloom.c:202-206 | testing bit j of a byte reads the binary digit of weight 2^j of its value |
| Bits.SetBitAddsWeight | src/bloom.c:192-196 | setting bit j adds 2^j to the value of the byte if the bit was clear, else nothing |
| BloomSpec.BitNumberDigit | src/bloom.c:375-382 | digit by digit: the number of hash function i is read in binary from bits i*M to i*M+M-1 of the hash, the first one highest, where bit b is the digit of weight 2^(b mod 8) of byte b div 8 |
| BloomSpec.SlicesAreBitNumbers | src/bloom.c:375-382 | the bit numbers of a hash are those of functions 0 to k-1 |
| BloomSpec.BitSetDigit | src/bloom.c:202-206 | bit n of the vector is the digit of weight 2^(n mod 8) of byte n div 8 |
| BloomSpec.SlicesInRange | src/bloom.c:375-382 | a hash has at most k bit numbers, all within the vector |
| BloomSpec.SlicesDetermineBits | src/bloom.c:330-333 | the ordered bit numbers of two hashes are equal if and only if their first k*M bits are |
| BloomSpec.SlicingIsInjective | src/bloom.c:375-382 | slicing is one-to-one on hashes of a length if and only if it uses every bit |
| BloomSpec.SetBitAtAddsOne | src/bloom.c:192-196 | setting a bit adds that bit number to the set and no other |
| BloomSpec.BitsAreSlices | src/bloom.c:375-388 | after any adds the set bits are exactly the slices of the added hashes |
| BloomSpec.AfterOneMore | src/bloom.c:357-399 | one more call of the add operation takes the filter of all adds one step on |
| BloomSpec.OrderDoesNotMatter | src/bloom.c:357-399 | the bits depend only on which hashes were added |
| BloomSpec.AddedIsPresent | src/bloom.c:463-502 | an added hash is found |
| BloomSpec.CountersBoundBits | src/bloom.c:389-391 | over any adds: k*unique + P <= set bits <= k*unique + (k-1)*P, with P the partial adds |
| BloomSpec.AliasedExactlyWhenPresent | src/bloom.c:390 | an add counts as aliased if and only if a query just before it succeeds |
| BloomCounts.PopCountsCountBits | src/bloom.c:529-545 | the table sum is the number of set bits |
| BloomCounts.HistogramIsCount | src/bloom.c:283-292 | the histogram holds how often each byte value occurs, and 0 for zero bytes |
| BloomCounts.HistogramCountsBits | src/bloom.c:300-307 | the weighted histogram sum is the number of set bits |
| BloomCounts.CountsAgree | src/bloom.c:283-306 | the two sums agree for every vector |
| Bloom.NSRLBloom.constructor | src/bloom.c:728-750 | a new filter is empty, and usable if and only if k slices fit the hash |
| Bloom.NSRLBloom.Mapped | src/bloom.c:665-671 | a filter with the fields and the vector of a file |
| Bloom.NSRLBloom.Create | src/bloom.c:728-752 | which arguments exit, with the 32-bit product, and when the created filter is usable |
| Bloom.NSRLBloom.HashFunction | src/bloom.c:376-382 | the shift loop computes the slice, which lies in the vector |
| Bloom.NSRLBloom.SetBloomBit | src/bloom.c:192-196 | adds one bit number to the set; the value of byte n div 8 grows by 2^(n mod 8) if the bit was clear |
| Bloom.NSRLBloom.GetBloomBit | src/bloom.c:202-206 | whether the bit number is in the set, that is, that digit of its byte is 1 |
| Bloom.NSRLBloom.SetBits | src/bloom.c:375-388 | all slices are set; the count is that of the slices that were not |
| Bloom.NSRLBloom.Add | src/bloom.c:357-399 | the new state is the added one of the specification, for a filter without a file |
| Bloom.NSRLBloom.TestBits | src/bloom.c:482-492 | found if and only if all slices are set, with the early stop |
| Bloom.NSRLBloom.Query | src/bloom.c:463-502 | the answer is presence; only the hit count changes |
| Bloom.NSRLBloom.AddString | src/bloom.c:436-455 | adds what is not present, never counts an aliased add |
| Bloom.NSRLBloom.BitsPer | src/bloom.c:531-539 | the table holds the number of bits of each byte value |
| Bloom.NSRLBloom.BitsSet | src/bloom.c:541-547 | the loop counts the set bits of the vector |
| Bloom.NSRLBloom.CalcHistogram | src/bloom.c:283-292 | the counts are the histogram of the non-zero bytes |
| Bloom.NSRLBloom.BitCount | src/bloom.c:300-307 | the loop computes the weighted sum |
| BloomThreads.StepKeepsInvariant | src/bloom.c:366-398 | every step of every thread keeps: the owner alone is in the section and has brought the serial state part of the way |
| BloomThreads.RunsAreSerial | src/bloom.c:366-398 | with the mutex every interleaving gives the vector, counters and answers of the calls in lock order; one thread at a time in the section |
| BloomThreads.LogOnlyGrows | src/bloom.c:394-398 | finished calls stay finished, in order |
| BloomThreads.QueryAfterAddFinds | src/bloom.c:467-501 | a query that takes the lock after an add of the hash has finished finds it |
| BloomThreads.AnswersAreExact | src/bloom.c:467-501 | with the mutex a query answers yes if and only if each bit number of its hash is one of a hash added earlier in lock order |
| BloomThreads.StateIsExact | src/bloom.c:389-398 | with the mutex, while nobody holds it: the bits are those of the added hashes, and the counters the numbers of adds and of queries |
| BloomThreads.AddsAreHeldExactlyWithMutex | src/bloom.c:366-398 | for two or more threads: every reachable vector has all bits of all adds that have ended, if and only if the filter has the mutex |
| BloomThreads.AddsAreFoundExactlyWithMutex | src/bloom.c:366-369 | for two or more threads: in every run a query that begins after an add of its hash has ended finds it, if and only if the filter has the mutex |
| BloomThreads.AddIsLost | src/bloom.c:384-387 | without it, for every filter: a run in which an add has ended, its first bit is clear, and a query that begins afterwards does not find it |
| BloomThreads.AddStringNeverAliasesAlone | src/bloom.c:452-454 | threads that only add strings count no aliased add in any run if and only if there is one thread |
| Decimals.DigitsOf | src/bloom.c:265-278 | a number is printed as its tens, if any, and then its unit, in the digits 0 to 9 |
| Decimals.NumberStops | src/bloom.c:641-647 | reading goes on through digits 0 to 9, ten times the value so far plus the digit, and stops at anything else |
| Decimals.SignedNumbers | src/bloom.c:641-647 | white space is skipped, and one sign may precede the digits |
| Decimals.AtoiIs | src/bloom.c:641-647 | `atoi` is defined from -2147483648 to 2147483647 |
| Decimals.NumberOfDecimal | src/bloom.c:641-647 | reading digits undoes printing them |
| Decimals.AtoiOfDecimal | src/bloom.c:641-647 | `atoi` of a printed number is the number if it is an int |
| BloomHeader.InfoIsText | src/bloom.c:265-278 | the text of the header: its eight lines, in order |
| BloomHeader.ValuesAreAssigned | src/bloom.c:641-648 | what each of the eight keys does with its value, numbers modulo 2^32 |
| BloomHeader.OtherKeysAreIgnored | src/bloom.c:636-649 | any other key does nothing |
| BloomHeader.LineIsParsed | src/bloom.c:636-649 | a printed line, cut at its newline and its first colon, assigns its field |
| BloomHeader.HeadIsParsed | src/bloom.c:265-278 | the printed numbers are read into their own fields |
| BloomHeader.ParsedCommentIsOneLine | src/bloom.c:636-648 | no file gives a comment with a newline |
| BloomHeader.PageHoldsText | src/bloom.c:318-325 | the page as a C string is the text, cut to 4095 characters |
| BloomHeader.PageIsParsed | src/bloom.c:634-650 | the page read back: all fields, and the comment as far as it fits |
| BloomFile.OpenedExactly | src/bloom.c:630-671 | which files are opened and which rejected, another version among them; the vector is taken from byte 4096 |
| BloomFile.VectorOffset | src/bloom.c:686-717 | a written file is the header text, cut to 4095 bytes, zeros up to byte 4096, and the vector |
| BloomFile.ProperIs | src/bloom.c:265-278 | the filters that the program can hold, with all limits as numbers |
| BloomFile.StorableIs | src/bloom.c:634-648 | the storable filters, with all limits as numbers |
| BloomFile.StorableIsReopened | src/bloom.c:634-671 | a storable filter is opened as it was written |
| BloomFile.ReopenedIsWritten | src/bloom.c:634-671 | written and opened filter are the same, whatever `atoi` makes of too large numbers, if and only if it is storable |
| BloomFile.InfoUpdate | src/bloom.c:318-327 | the page is written over the start of the file |
| BloomFile.BloomWrite | src/bloom.c:686-717 | the file is the page and then the vector, written in chunks of 1 MB |
| BloomFile.AddInFile | src/bloom.c:357-399 | an add to a filter in a file: the vector in the file follows, the header only after every 1000 adds |
| BloomFile.CreateAndAdd | src/bloom.c:728-767 | a new filter in a file after any adds: vector of all, header of the last multiple of 1000 |
| BloomFile.FileCountsThousands | src/bloom.c:392 | the counters in the file are the current ones if and only if the number of adds is a multiple of 1000 |
| BloomFile.ReadHeader | src/bloom.c:634-650 | the line loop reads the fields of the specification |
| BloomFile.BloomOpen | src/bloom.c:630-671 | which files are rejected, and what an accepted one holds |
| BloomFile.WriteAndOpen | src/bloom.c:611-717 | the reopened filter has the same parameters and state, hence the same answer to every query |
| Md5Transform.OptimisedFunctions | src/md5.c:187-190 | F1 to F4 are the functions of RFC 1321 on all words |
| Md5Transform.ShiftOrRotates | src/md5.c:198 | the two shifts rotate |
| Md5Transform.StepIsNewWord | src/md5.c:197-198 | a step computes the word of one operation of section 3.4 |
| Md5Transform.Steps0To7 | src/md5.c:284-291 | eight unrolled steps are operations 0 to 7 |
| Md5Transform.Steps8To15 | src/md5.c:292-299 | operations 8 to 15 |
| Md5Transform.Steps16To23 | src/md5.c:301-308 | operations 16 to 23 |
| Md5Transform.Steps24To31 | src/md5.c:309-316 | operations 24 to 31 |
| Md5Transform.Steps32To39 | src/md5.c:318-325 | operations 32 to 39 |
| Md5Transform.Steps40To47 | src/md5.c:326-333 | operations 40 to 47 |
| Md5Transform.Steps48To55 | src/md5.c:335-342 | operations 48 to 55 |
| Md5Transform.Steps56To63 | src/md5.c:343-350 | operations 56 to 63 |
| Md5Transform.MD5Transform | src/md5.c:206-357 | the transformation is the table-driven one of section 3.4 on every state and block |
| Md5Counter.CounterAdds | src/md5.c:83-86 | the two words with the compared carry count bits modulo 2^64 |
| Md5Counter.CountOfPending | src/md5.c:88 | the low word gives the number of bytes in the buffer |
| Md5Counter.CounterIsLength | src/md5.c:167-169 | the two words in memory are the length field of section 3.2 |
| Md5Stream.PaddedFits | src/md5.c:150-153 | padding that fits is one block |
| Md5Stream.PaddedSpills | src/md5.c:142-149 | padding that does not is two |
| Md5Stream.FoldBlock | src/md5.c:106-112 | one more block is compressed into the state of those before it |
| Rfc1321.WordIsNumber | src/md5.c:102-111 | a word of a block is a number with the low-order byte first |
| Rfc1321.LengthByteIs | src/md5.c:167-169 | the length field holds the number of bits modulo 2^64, low-order byte first |
| Md5Vectors.EmptyDigest | src/md5.c:125-180 | the digest of the empty message is that of section A.5 of RFC 1321 |
| Md5Vectors.LetterDigest | src/md5.c:125-180 | and so is that of the message "a" |
| Md5Stream.Context.constructor | src/md5.c:62-71 | a new context has hashed nothing |
| Md5Stream.Context.Count | src/md5.c:81-86 | the counter gains the length |
| Md5Stream.Context.Transform | src/md5.c:100-102 | the block in the buffer is folded in |
| Md5Stream.Context.HashBlocks | src/md5.c:106-118 | whole blocks are folded in, the rest is kept |
| Md5Stream.Context.MD5Update | src/md5.c:77-119 | state, buffer and counter after the piece are those of the longer message |
| Md5Stream.Context.Pad | src/md5.c:130-154 | both cases of padding give all of section 3.1 but the length |
| Md5Stream.Context.MD5Final | src/md5.c:125-180 | the digest is RFC 1321's digest of everything hashed; the context is cleared |
| Md5Stream.Generator.constructor | src/md5.h:138-140 | a new generator has hashed nothing |
| Md5Stream.Generator.Update | src/md5.h:141-144 | appends to the message |
| Md5Stream.Generator.Final | src/md5.h:145-151 | the digest of the message, once |
| Md5Stream.Generator.HashBuf | src/md5.h:152-156 | one-shot hashing |
| Md5Stream.HashPieces | src/md5.h:134-151 | however a message is cut into updates, the digest is that of the whole |
| RdsReader.LinesOfLine | src/nsrl_bloom_creator.cpp:116-130 | text without CR and LF is one line, or none if it is empty |
| RdsReader.LinesOfText | src/nsrl_bloom_creator.cpp:116-130 | the first CR or LF ends the first line of a text; empty lines do not count |
| RdsReader.Progress | src/nsrl_bloom_creator.cpp:116-130 | reading goes forward, whatever the lines |
| RdsReader.LineIsRead | src/nsrl_bloom_creator.cpp:116-130 | at the start of a line that ends in the buffer fetched there, the line is returned and the next start is found |
| RdsReader.TooMuchIsRead | src/nsrl_bloom_creator.cpp:108-122 | from the start of a line on, if a later line does not fit, more text is returned than there is |
| RdsReader.ReadAllIsLines | src/nsrl_bloom_creator.cpp:101-134 | for every file: the non-empty strings are the file split on runs of CR and LF if and only if its lines fit the buffer fetched at their starts |
| RdsReader.LongFileIsRead | src/nsrl_bloom_creator.cpp:122-129 | a file with a line of 512 characters that comes back once more without its first |
| RdsReader.LongestLine | src/nsrl_bloom_creator.cpp:78-79 | all files with lines of at most n characters are read as their lines if and only if n < 512 |
| RdsReader.GetLineIsLineAt | src/nsrl_bloom_creator.cpp:116-130 | when the line at an offset is returned whole, for any buffer |
| RdsReader.FirstGetLine | src/nsrl_bloom_creator.cpp:122 | a first call returns the line if and only if the offset is 0 or not in the first line |
| RdsReader.RDSFile.constructor | src/nsrl_bloom_creator.cpp:87-93 | a new reader has nothing in its buffer |
| RdsReader.RDSFile.Fetch | src/nsrl_bloom_creator.cpp:112-113 | the buffer holds its part of the file |
| RdsReader.RDSFile.HasEnd | src/nsrl_bloom_creator.cpp:104-106 | whether a line end follows in the buffer |
| RdsReader.RDSFile.LoadBuffer | src/nsrl_bloom_creator.cpp:101-114 | which part of the file is in the buffer |
| RdsReader.RDSFile.FindStart | src/nsrl_bloom_creator.cpp:120-122 | going back to the line's start |
| RdsReader.RDSFile.FindEnd | src/nsrl_bloom_creator.cpp:121-125 | going on to its end |
| RdsReader.RDSFile.FindNext | src/nsrl_bloom_creator.cpp:127-128 | and over the line ends behind it |
| RdsReader.RDSFile.GetLine | src/nsrl_bloom_creator.cpp:116-130 | buffer, line and next position are those of the specification |
| RdsReader.RDSFile.LineInBuffer | src/nsrl_bloom_creator.cpp:119-129 | line and next position, once the buffer is loaded |
| RdsReader.RDSFile.NextLine | src/nsrl_bloom_creator.cpp:131-134 | the same from the next position |
| RdsReader.ReadRest | src/nsrl_bloom_creator.cpp:146-148 | repeated `nextline` returns the strings of the specification |
| RdsReader.ReadLines | src/nsrl_bloom_creator.cpp:141-148 | reading a file to its end gives its lines if and only if they fit; no string has a CR or LF in it in any case |
| XmlText.Replacements | src/xml.cpp:133-155 | what each of nine characters is replaced by, and that all others stay |
| XmlText.EscapeOfMore | src/xml.cpp:133-155 | the characters are escaped one by one, in order |
| XmlText.XmlEscape | src/xml.cpp:133-155 | what a parser makes of the escaped text: the text but for what was percent-encoded, or nothing if another control character is left |
| XmlText.EscapeIsUnescaped | src/xml.cpp:133-155 | resolving the entities gives the text back, but for what was percent-encoded |
| XmlText.EscapeIsParsed | src/xml.cpp:133-155 | for every text, what a parser makes of it |
| XmlText.SameWhenPlain | src/xml.cpp:145-149 | a parser gives the text itself if and only if it has no character below U+0020 |
| XmlText.HexDigits | src/md5.h:85-90 | the sixteen digits, and that both cases are read |
| XmlText.OtherHexDigits | src/md5.h:85-90 | any other character reads as 0 |
| XmlText.HexOfByte | src/md5.h:98-106 | the high digit of a byte comes first |
| XmlText.HexDigest | src/md5.h:98-106 | as many bytes in hexadecimal as fit the buffer |
| XmlText.FromHex | src/md5.h:91-97 | pairs of digits as bytes, zeros for missing ones |
| XmlText.HexRoundTrip | src/md5.h:85-106 | reading a printed digest gives it back |
| Dfxml.XmlWriter.constructor | src/xml.cpp:192-200 | a new writer has no open tags |
| Dfxml.XmlWriter.Push | src/xml.cpp:421-427 | opens a tag; the output stays well nested |
| Dfxml.XmlWriter.Pop | src/xml.cpp:429-437 | closes the innermost open tag |
| Dfxml.XmlWriter.XmlOut | src/xml.cpp:640-655 | one whole element, empty or with its text |
| DfxmlReader.StackIsOpenTags | src/dfxml.cpp:90-101 | the reader exits on a mismatch only if events are not well nested; its stack is the open tags |
| DfxmlReader.ChunksDoNotMatter | src/dfxml.cpp:139-143 | a parser may cut character data anywhere |
| DfxmlReader.NewlinesAreDropped | src/dfxml.cpp:164-172 | character data loses its newlines and nothing else |
| DfxmlReader.StartsAre | src/dfxml.cpp:55-88 | what a start tag does to each field of the reader |
| DfxmlReader.AttributesAre | src/dfxml.cpp:79-85 | which attribute of a run goes to which number, and that the first non-zero one counts |
| DfxmlReader.GetAttrsIs | src/dfxml.cpp:32-38 | the first attribute of the name, or the empty text |
| DfxmlReader.EndsAre | src/dfxml.cpp:90-134 | what the expected end tag does, tag by tag, crashes included |
| DfxmlReader.WrongEnds | src/dfxml.cpp:90-98 | an unexpected end tag exits, one without a start tag crashes |
| DfxmlReader.NumbersOf64Bits | src/dfxml.h:18-24 | a decimal number is read modulo 2^64 with sign, and as -1 if it is larger |
| DfxmlReader.NegativesOf64Bits | src/dfxml.h:18-24 | and so is a negative one, which is read without sign first |
| DfxmlReader.BlockSizes | src/dfxml.cpp:108-113 | a block size that is an `int` is known, a negative one modulo 2^64 |
| DfxmlReader.LowerIs | src/dfxml.cpp:119-129 | the name of the algorithm is kept in lower case |
| DfxmlReader.FileObjectReader.constructor | src/dfxml.h:143 | a new reader is empty |
| DfxmlReader.FileObjectReader.StartElement | src/dfxml.cpp:55-88 | the start transition of the machine |
| DfxmlReader.FileObjectReader.ReadRun | src/dfxml.cpp:79-85 | the attributes of a run |
| DfxmlReader.FileObjectReader.EndElement | src/dfxml.cpp:90-134 | the end transition, with exit and crashes, and a block size known only if it is an `int` |
| DfxmlReader.FileObjectReader.EndDigest | src/dfxml.cpp:119-129 | a digest goes to the run or the file it is in |
| DfxmlReader.FileObjectReader.CharacterData | src/dfxml.cpp:139-143 | text is appended |
| DfxmlReader.ReadDfxml | src/dfxml.cpp:145-178 | the machine run over the events that the parser accepts, which stops at text XML does not allow |
| DfxmlReport.WriteLeaves | src/xml.cpp:682-733 | a list of elements |
| DfxmlReport.WriteRuns | src/frag_find.cpp:271-298 | a `run` element per run |
| DfxmlReport.WriteFileHead | src/frag_find.cpp:692-695 | name, sizes and digest of a file object |
| DfxmlReport.WriteFile | src/frag_find.cpp:690-734 | one file object |
| DfxmlReport.WriteMetadata | src/frag_find.cpp:664-671 | root and metadata |
| DfxmlReport.WriteBranch | src/xml.cpp:677-734 | an environment element with its leaves |
| DfxmlReport.WriteCreator | src/frag_find.cpp:673-679 | the creator element |
| DfxmlReport.WriteSource | src/frag_find.cpp:680-683 | the source element, left open |
| DfxmlReport.WriteReport | src/frag_find.cpp:663-742 | the whole report; every tag is closed in the end |
| DfxmlText.MetadataIsText | src/frag_find.cpp:664-671 | the metadata, tag by tag |
| DfxmlText.CreatorIsText | src/frag_find.cpp:673-679 | the creator, with its two environments |
| DfxmlText.LeafIsText | src/xml.cpp:640-655 | one element of an environment |
| DfxmlText.SourceIsText | src/frag_find.cpp:680-683 | name, blocks and block size of the image |
| DfxmlText.FileIsText | src/frag_find.cpp:690-734 | name, blocks, size and digest of a master, and its runs |
| DfxmlText.RunIsText | src/frag_find.cpp:271-298 | one run and its three numbers |
| DfxmlText.ReportIsText | src/frag_find.cpp:663-742 | the parts of a report and its files, in order |
| DfxmlRoundTrip.NeutralElements | src/dfxml.cpp:62-77 | the elements that do not touch a reader outside of a file object: all but four tags |
| DfxmlRoundTrip.LeafIsRead | src/xml.cpp:640-655 | how the reader takes one element in any state |
| DfxmlRoundTrip.RunIsRead | src/dfxml.cpp:79-86 | the three numbers of a run come back |
| DfxmlRoundTrip.FileIsRead | src/dfxml.cpp:55-134 | one file object is delivered, and nothing else changes |
| DfxmlRoundTrip.ReportIsReadBack | src/dfxml.cpp:55-134 | a report is read to its end: one object per master, in order, all tags closed |
| DfxmlRoundTrip.FileObjectIsFile | src/dfxml.h:85-109 | digest and runs of an object are those of the master; its name too, if and only if nothing in it was percent-encoded |
| DfxmlLegible.ReportIsParsed | src/xml.cpp:133-155 | a parser accepts all of a report if and only if no text in it has a control character that is not escaped |

## Left out

- Files, devices, `mmap`, `pread`: files are byte sequences that are read completely. I/O errors are left out.
- A non-empty master smaller than one block: `filemap.back()` of an empty map is undefined in the source, hence `FragFind.Reportable`.
- The hash of a block is any function to 16 bytes in the search; `Validation` takes MD5 for it. That different blocks have different digests is assumed only where bytes are compared (`ScanSpec.NoCollision`).
- Bloom.NSRLBloom.Add: the HMAC key, `hash_encrypt`, OpenSSL and WinCrypt are left out, and so is the debug output. It is the add to a filter without a file; `BloomFile.AddInFile` adds the header update.
- Bloom.NSRLBloom.Create: `bloom_bits` outside 3 to 63 is an undefined shift and excluded; memory exhaustion is left out.
- Bloom.NSRLBloom.BitsSet: the loop counter is an `int`, so the vector is smaller than 2^31 bytes; the division to a rate is floating point and left out.
- The 64-bit counters do not wrap in the model.
- BloomFile.BloomOpen: a vector longer than the file and an out-of-range shift, which the source does not check, are one outcome, `BadMapping`.
- FragFind.Run: the image is smaller than 2^63 bytes; option parsing, md5deep input, the prefilter (a stub that is never on), status output, the raw listing of `-r` and its extra query, and the statistics are left out.
- DfxmlReader.ReadDfxml: the parser itself (expat) is left out; the model starts at its events, and the parser stops before text with a control character that XML does not allow; the part of that text in front of the character, which it may still hand over, is left out, and reaches no object that is delivered. Whether text is valid UTF-8 is left out. Attributes are name and value pairs, and newlines are dropped from text as the reader feeds lines.
- DfxmlReader.FileObjectReader.StartElement: the pointer from a file object to its volume is left out.
- Dfxml.XmlWriter.XmlOut: a call with an empty tag, which writes the text alone, is left out; no caller makes one.
- DfxmlRoundTrip.ReportIsReadBack: offsets are below 2^63, as sizes of files are, and the environment elements do not use the tags `volume`, `block_size`, `fileobject` and `hashdigest`.
- DfxmlReport.WriteCreator: the environment elements are any lists of elements; the nested processor element of 32-bit builds is left out.
- Dfxml.XmlWriter.Push: one-line mode, the set of tags, the check for spaces in tags, DTD writing and the constructor for existing files are left out.
- Byte order other than little-endian in MD5, `hash_file`, and the Java copies of the code.
- RdsReader.RDSFile.LoadBuffer: offsets behind the end of the file, for which the length to read is negative or the buffer shorter than the offset, are left out; `getline(0)` and `nextline` never give one.
- RdsReader.RDSFile.GetLine: offsets behind the end of the file and I/O errors are left out, and so is the regular expression that takes a line apart.
