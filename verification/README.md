# pcrec: proofs about the exemplar analyzer, its hash, the sweep's pool and the memory-function kit

This project models parts of the pcrec repository in Dafny and proves what those parts promise. `dafny verify
dfyconfig.toml` checks everything.

**The exemplar analyzer** (`analyze/count.c`, `analyze/main.c`). A scan counts bytes, adjacent byte pairs or code
points of a file, whole or one shard of n, and prints a bundle; a merge adds the bundles of the shards; a check
recounts a file against its bundle. The counters are arrays and an open-addressing table (`CpTable`, `KindBlock`), the
decoder is a loop over bytes (`Decoder`) proved against RFC 3629 (`Utf8`), the three shard rules are windows over
floor-divided cuts (`Shards`), and the bundle writer and reader are `Bundle`, `Reader` and `RoundTrip`. The commands
are in `Commands` and `MergeCheck`. What all these come to is stated apart from the functions they are proved against:
`Counts` (rows count occurrences), `Meaning` (scan and check), `MergeMeaning` (merge), `Printing` (the printed lines)
and `ReaderMeaning` with `ReaderWords` (what any text reads as, and why it is refused). The theorems that tie them
together are in `ShardedScan`: scanning in n shards, printing, reading back and merging prints the text the whole scan
prints, exactly when the encoding classes agree, and always for a valid file with three bytes per shard.

**SHA-256** (`shared/sha256.c`) is proved against FIPS 180-4, from the padding to the hexadecimal digest (`Sha256`),
with its six functions stated bit by bit (`Sha256Functions`) and the known answer for `abc` (`Sha256Facts`).

**The sweep's worker pool** (`scripts/emit_sweep.py`, `run_pooled`) is a state machine of atomic steps (`Pool`):
taking a task under the lock, calling it, giving the slot back, retiring. All statements are about every interleaving;
`PoolClaims` says which task a worker takes. The escape printer and reader of the same file are `Escape`.

**The memory-function kit** (`memfn/src`). `Composer` is the handle protocol of an art: define, locals, use, call,
end, with the first error kept; `ComposerHistory` tells each call's verdict from the calls before it. `FormClass` is
the per-offset byte proof of a row. `Options` is the deny list and the first-match walk over rows. `LibcNames` is the
sorted list of library names and its stamp. The form hash is `FormLex` (the two lexers), `FormNames` (the numbering of
identifiers), `FormNormal` (the normal form and renaming), `FormTells` and `FormSpace` (white space), `FormComment`
(comments), `FormConverse`, `FormOperators` and `FormDollar` (what equal forms tell), `FormHash` (the scanning loops),
`FormRules` (each pass on each kind of piece) and `FormAnswers` (a known normal form and a known digest).

**The trie census** (`scripts/alt_census.py`, `trie_stats`) is `Trie`; **the arena** (`src/core/arena.c`) is `Arena`.
`Bits`, `Text` and `Rows` hold the machine integers, the number and line texts, and rows as maps from key to count.

Counters wrap modulo 2^64 as the sources' do. Where a source is a loop over buffers or changes an object's fields, the
model is a method with a loop or a class, and its contract ties it to a recursive function about which the rest is
proved.

## Where the code does not do what its comments say

Each of these is a theorem here, with the exact condition where one is known.

- `shard_bounds` multiplies in 64 bits. Once n times the size reaches 2^64 the last cut falls short of the file's end and
  some shard starts after its end: `FreqTilesIff` and `PairTilesIff` say the shards tile the bytes and the byte pairs if
  and only if the product fits, `BoundsRiseIff` that every shard's range is in order if and only if it does.
- The class a sharded scan reports need not be the whole file's. A shard whose nominal range and the byte at its end are
  all continuation bytes starts inside a character, and shard 1 skips continuation bytes the file starts with.
  `MergedEncodingIff` is the condition.
- `run_pooled` leaves every composition task uncalled, without an error, when its cap is below 1: `FinishedRun`.
- A patterns file loses patterns that are blank or start with `#`, and a file without any other is refused, although the
  escape pair itself is a round trip: `PatternsRoundTripIff`. `decode_escape` also reads what Python's `int(_, 16)`
  accepts, such as `\x+f`.
- A bundle whose adaptation starts with a blank, ends in a carriage return or is a lone `|` is not read back as it was
  printed, nor one whose other texts have white space at their edges: `ParseRenderIff` is the condition.
- The form hash numbers every identifier past the 256th `$256`, so it cannot tell some texts apart:
  `NumberingExact` says that equal numbering means a renaming if and only if at most one use is numbered 256.
- An operator is to move the form hash, but white space between operator characters is dropped, and with it the
  difference between `a- --b` and `a-- -b` (`OperatorsHidden`). `TightLineExact`: a line shares its form only with lines of
  the same operators, among those without such white space, if and only if it has none itself; `TightFormTells` is the
  consequence for whole texts.
- The language reads a comment as a space; the form hash drops it. `CommentAsSpaceIff`: the two agree except where the
  comment separates two word characters, as in `a/**/b` (`CommentJoins`), or where the second pass, which reads a line at a
  time, takes it to stand in a literal left open on that line.
- A `$` outside literals can imitate a numbered identifier (`DollarImitates`). `DollarExact`: a text without `$` shares its
  form with a text that is numbered differently if and only if some identifier in it is not preceded by a kept space and
  its number is not needed for the others to stay in order of first appearance. `int x` has none, `x` has one.
- The form hash starts from 1469598103934665603, not from the published FNV-1a-64 offset basis 14695981039346656037; the
  model starts where the code does.
- The arena's memory is declared 16-aligned, but the block header of 24 bytes stands before it: in a block that `malloc`
  aligned to 16 every returned address is 8 beyond a multiple of 16 (`AddressAligned`).
- The arena's sizes wrap: a request above 2^64 - 16 is rounded to 0 (`RoundedIs`), and from 2^64 - 31 on the block asked of
  `malloc` is smaller than what is written to it (`HeldIff`).
- The library stamp writes `none` both for no name and for a function named `none` (`StampTells`).

## Model

| member | source | states |
|---|---|---|
| `Bits.MaskIsMod` | analyze/count.c:62-66 | masking with a power of two minus one is the remainder: why the table may index with `cap - 1` |
| `CpTable.Table.constructor` | analyze/count.c:44-50 | a new table has no slots and no entries |
| `CpTable.Table.Grow` | analyze/count.c:68-86 | growing keeps every entry and doubles the capacity (64 at first) |
| `CpTable.Table.Rehash` | analyze/count.c:73-80 | after the copy loop the larger arrays represent the same entries: each key once, no empty slot between a key's hash slot and its place |
| `CpTable.FreeSlot` | analyze/count.c:76-77 | the rehash probe terminates at the first empty slot from the key's hash slot on |
| `CpTable.Table.Probe` | analyze/count.c:91-94 | the probe terminates, at the key's slot if it is present and otherwise at an empty slot that proves it absent |
| `CpTable.Table.TakeSlot` | analyze/count.c:95-99 | a new key put into that empty slot keeps the representation |
| `CpTable.Table.Add` | analyze/count.c:88-101 | adds, modulo 2^64, to exactly one key's count and changes no other |
| `CpTable.Table.AddAll` | analyze/count.c:168-174 | adding every non-zero row of another table sums the two denoted maps |
| `CpTable.Table.Sorted` | analyze/count.c:109-123 | lists exactly the non-zero rows in ascending code-point order, whatever the slot order |
| `CpTable.RepInsert` | analyze/count.c:92-99 | writing a key into the first empty slot of its probe sequence keeps every other key reachable |
| `CpTable.ProbeMiss` | analyze/count.c:92-95 | a probe that meets an empty slot first has shown the key absent |
| `CpTable.EmptySlot` | analyze/count.c:90-92 | fewer keys than slots leave an empty slot, so probing always ends |
| `CpTable.StepKeepsSearch` | analyze/count.c:93 | the wrap-around step never skips a slot of the probe sequence |
| `CpTable.NextWraps` | analyze/count.c:93 | `(idx + 1) & (cap - 1)` is the next slot, wrapping at the end |
| `Rows.TallyCounts` | analyze/count.c:136-150 | a counter holds the number of occurrences of its key modulo 2^64 |
| `Rows.TallyConcat` | analyze/count.c:155-178 | counting two pieces and merging equals counting their concatenation |
| `Rows.MergeAllTally` | analyze/count.c:155-178 | merging the tallies of any number of pieces is the tally of the pieces in a row |
| `Rows.MergeAllPermuted` | analyze/count.c:155-178 | merging any permutation of the parts gives equal rows, even where totals wrap |
| `Rows.ListingUnique` | analyze/count.c:194-207 | two ascending row lists are equal exactly when the tables denote the same non-zero map |
| `Rows.SortRowsLists` | analyze/count.c:103-120 | sorting a duplicate-free list of a map's rows gives its one ascending listing |
| `KindBlock.Block.AddFreq` | analyze/count.c:136-139 | one byte counter grows, every other row stays |
| `KindBlock.Block.AddBigram` | analyze/count.c:141-145 | one pair counter grows; the array is allocated, zeroed, on first use |
| `KindBlock.Block.AddCp` | analyze/count.c:147-150 | one code point's row grows |
| `KindBlock.Block.MergeFrom` | analyze/count.c:155-178 | a block after a merge holds the key-wise sum of both blocks' rows, for all three kinds |
| `KindBlock.Block.RowsEqual` | analyze/count.c:180-211 | true exactly when the kinds and the denoted non-zero rows are the same, whatever capacities and insertion orders |
| `Utf8.ValidIffGrammar` | analyze/count.c:281-340 | the decoder's language is the grammar of section 4 of RFC 3629, and is exactly the set of encodings of scalar-value sequences |
| `Utf8.DecodeSound` | analyze/count.c:287-340 | what was decoded re-encodes to the consumed prefix, and where decoding stops no well-formed character begins |
| `Utf8.DecodeEncode` | analyze/count.c:287-340 | every scalar-value sequence encodes to an accepted string and decodes back to itself |
| `Utf8.CharRoundTrip` | analyze/count.c:294-334 | one scalar value: encoding then decoding gives it back, in the length its value calls for |
| `Utf8.CharsInOrder` | analyze/count.c:294-334 | characters stand for scalar values in the order of their bytes; with the round trips there is no other such coding |
| `Utf8.DecodeSplit` | analyze/count.c:268-279 | self-synchronisation: cut before a non-continuation byte, the whole decodes as the halves in turn, and is valid exactly when both are |
| `Utf8.ContRun` | analyze/count.c:268-279 | a valid string never holds four continuation bytes in a row: the bound behind the three-bytes-per-shard width |
| `Decoder.DecodeOne` | analyze/count.c:291-335 | one turn of the loop finds the length and scalar value of the character at an offset, or none |
| `Decoder.DecodeStrict` | analyze/count.c:287-340 | succeeds exactly on the strings of RFC 3629, adds each decoded scalar once to the table, and reports the first ill-formed offset |
| `Decoder.ClassifyEncoding` | analyze/count.c:343-348 | the class is ascii, utf8 or bytes as the content is 7-bit, valid, or neither |
| `Decoder.ClassifySplit` | analyze/count.c:350-362 | the class of a text cut at a character boundary is the lattice maximum of the halves' classes |
| `Shards.FreqTilesIff` | analyze/count.c:227-236 | each byte is counted by exactly one freq shard if and only if n times the size fits in 64 bits |
| `Shards.PairTilesIff` | analyze/count.c:227-261 | each pair of adjacent bytes is counted by exactly one bigram shard if and only if n times the size fits in 64 bits |
| `Shards.BoundsRiseIff` | analyze/count.c:227-231 | every shard starts at or before its end if and only if n times the size fits in 64 bits, for sizes and counts below 2^63 |
| `Shards.CutsRise` | analyze/count.c:227-231 | without wrap the floor-divided cuts rise within the file |
| `Shards.CutPlain` | analyze/count.c:227-231 | without wrap cut j of n is j times the size divided by n, rounded down |
| `Shards.CutEnds` | analyze/count.c:227-231 | without wrap the first cut is 0 and the last is the size, so nominal shard sizes sum to it |
| `Shards.CutShort` | analyze/count.c:227-231 | once the last product wraps no cut reaches the end of the file |
| `Shards.LateStartIsShort` | analyze/count.c:242-261 | a later shard whose start is 0, where the slice index wraps to the end, ends at byte 1 at most, so it loses no pair |
| `Shards.BigramWindow` | analyze/count.c:242-261 | each bigram window, wrapped start or not, holds exactly the adjacent pairs between its two pair cuts |
| `Shards.CpfreqShardRange` | analyze/count.c:268-279 | the two skip loops compute the character-aligned range and stay inside the file, whether or not the cuts wrapped |
| `Shards.CpfreqRange` | analyze/count.c:268-279 | that range is in order exactly when the two cuts are, or only continuation bytes stand between them |
| `Shards.WindowShape` | analyze/count.c:268-279 | a window runs between character starts unless its shard is stranded, and then it starts inside a character |
| `Shards.DecodePieces` | analyze/count.c:268-340 | pieces cut at boundaries are all valid exactly when the whole is, and then their scalars in a row are the whole's |
| `Shards.ClassifyPieces` | analyze/count.c:343-362 | the maximum of the pieces' classes is the whole's class |
| `Shards.CpfreqTilesIff` | analyze/count.c:268-279 | all n windows decode exactly when no shard is stranded and the file past its leading continuation bytes is valid; then they read that part once, in order |
| `Shards.MergedEncoding` | analyze/main.c:100 | the class the merged shards report, for every file and every shard count |
| `Shards.MergedEncodingIff` | analyze/main.c:230-231 | the merged class equals the whole file's exactly under a condition on stranded shards and leading continuation bytes |
| `Shards.WideShards` | analyze/count.c:268-279 | in a valid file three bytes per shard rule out stranded shards |
| `Text.DecRoundTrip` | analyze/count.c:443 | a printed decimal reads back as the number |
| `Text.HexRoundTrip` | analyze/count.c:368-383 | a printed hexadecimal key reads back as the number, at any width and case |
| `Text.LinesUnlines` | analyze/count.c:536-567 | lines without newlines survive joining and splitting |
| `Printing.DecText` | analyze/count.c:443 | a printed count is the decimal numeral of the number, without a leading zero |
| `Printing.SignedText` | analyze/count.c:468 | a byte total is printed as its numeral, with a minus sign before it where it is negative |
| `Printing.FreqRowText` | analyze/count.c:438-444 | a byte's row line: the two lower-case hexadecimal digits of the byte, then its count |
| `Printing.BigramRowText` | analyze/count.c:445-453 | a pair's row line: the digits of the first byte before those of the second, then the count |
| `Printing.CpRowText` | analyze/count.c:454-463 | a code point's row line: its upper-case hexadecimal numeral, at least four digits and no leading zero beyond them |
| `Printing.HeadText` | analyze/count.c:412-436 | the six declaration lines of each kind, for every class and choice of kinds |
| `Printing.ServesApart` | analyze/count.c:385-410 | no two kinds of one bundle that answer the same query serve the same alphabet |
| `Printing.ProvText` | analyze/count.c:465-475 | the provenance lines: source always, each other field exactly where it is stated, in this order |
| `Printing.BundleText` | analyze/count.c:477-496 | a bundle's lines: its name, then its kinds in the order freq, cpfreq, bigram, each with its rows in ascending order |
| `RoundTrip.KvLine` | analyze/count.c:536-593 | a printed keyword line is read as a content line with its indentation, keyword and value |
| `RoundTrip.KvRead` | analyze/count.c:536-593 | for any value without a newline the printed line is a content line with its keyword, and its value without leading blanks and without a carriage return at its end |
| `RoundTrip.RowRoundTrip` | analyze/count.c:661-696 | the reader adds exactly the row the writer printed, for each kind |
| `RoundTrip.AddListing` | analyze/count.c:661-696 | adding a listing row by row to an empty block gives the listed rows |
| `RoundTrip.FieldsBack` | analyze/count.c:633-652 | setting the printed provenance fields one by one gives what is read of each, for any newline-free texts |
| `RoundTrip.ProvBackIff` | analyze/count.c:633-652 | that is the printed provenance if and only if the plain texts have clean edges, the digest fits, and the adaptation starts with no blank, ends in no carriage return and is no lone block mark |
| `RoundTrip.HeadParsed` | analyze/count.c:419-436 | the declaration lines of a kind block leave only its encoding class in the reader |
| `RoundTrip.BlockParsed` | analyze/count.c:412-475 | one printed kind block is read back as that kind's rows, class and what is read of its provenance |
| `RoundTrip.ParseRead` | analyze/count.c:718-858 | parsing a rendered bundle with newline-free provenance gives its name, present kinds, rows, encoding classes and what is read of its provenance |
| `RoundTrip.ParseRenderIff` | analyze/count.c:718-858 | that is the bundle itself if and only if every provenance text is one the format carries |
| `RoundTrip.ParseRender` | analyze/count.c:718-858 | parsing such a rendered bundle gives it back: name, present kinds, rows, encoding classes and provenance |
| `Reader.ReadLine` | analyze/count.c:536-567 | the two-index scan of one line gives its indentation, trimmed text and class |
| `Reader.SplitLines` | analyze/count.c:536-567 | the splitting loop gives the classified lines of the text |
| `Reader.ParseBundle` | analyze/count.c:718-858 | the nested reading loops compute the recursive reading of the text, errors included |
| `Reader.ParseBlocks` | analyze/count.c:747-854 | the outer loop over kind headers refines that reading from any line on |
| `Reader.ParseBlock` | analyze/count.c:799-853 | the inner loop stops at the next line indented by less than 8 and accounts for every line before it |
| `ReaderMeaning.LineMeans` | analyze/count.c:536-567 | a line is its text less one carriage return, its indent, what stands between the blanks at both ends, and its class |
| `ReaderMeaning.LiveUnique` | analyze/count.c:718-858 | which lines count: the content lines outside block scalars are one determined set |
| `ReaderMeaning.ProseMeans` | analyze/count.c:593-623 | a prose value is what its line says, or the lines below it as far as they are deeper, without the first one's blanks, newlines between |
| `ReaderMeaning.ParseMeans` | analyze/count.c:718-858 | what every text reads as: refused exactly when its first content line gives no name or some line that counts is misplaced, with the first such line's message; otherwise the kinds with a header, their rows summed, the last encoding and the last value of each field |
| `ReaderWords.KwIff` | analyze/count.c:625-631 | a line starts with a keyword when its text is the keyword alone or before a blank |
| `ReaderWords.HeadIff` | analyze/count.c:776-794 | a line is a kind header when it starts with the kind's name, alone or before a space, and is no bundle line |
| `ReaderWords.ValueMeans` | analyze/count.c:575-584 | a line's value is what follows its first word and the blanks behind it |
| `ReaderWords.OpensIff` | analyze/count.c:595-602 | a value opens a block scalar when it is a bar with blanks at most behind it |
| `ReaderWords.TokensMean` | analyze/count.c:661-677 | a row's words are cut at spaces and to 39 bytes, and no more are read than asked for |
| `ReaderWords.NumbersMean` | analyze/count.c:678 | a count is read up to its last digit and saturates at 2^64 - 1, a signed total at 64 bits |
| `ReaderWords.HexMeans` | analyze/count.c:679-691 | a key is read as hexadecimal digits of either case, saturating |
| `Sha256.ConstantsAreRoots` | shared/sha256.c:7-64 | the 64 round constants and 8 initial words are the leading fractional bits of the cube and square roots of the first primes (sections 4.2.2 and 5.3.3 of FIPS 180-4) |
| `Sha256.PaddingIsLeast` | shared/sha256.c:69-78 | the zero padding is the least that satisfies the congruence of section 5.1.1 of FIPS 180-4 |
| `Sha256.LengthBlock` | shared/sha256.c:75-78 | the eight length bytes are the big-endian bit length for every message section 5.1.1 allows |
| `Sha256.Tail` | shared/sha256.c:69-78 | the 64- or 128-byte tail buffer is exactly the rest of the padded message |
| `Sha256.TailIsPadding` | shared/sha256.c:66-80 | full blocks plus tail are the padded message, in both tail sizes |
| `Sha256.Schedule` | shared/sha256.c:30-39 | the filled word array is the recursive message schedule of section 6.2.2 |
| `Sha256.Block` | shared/sha256.c:28-57 | the in-place round loop computes the compression of section 6.2.2, whose functions are pinned bit by bit in `Sha256Functions` and whose rounds by the known answer |
| `Sha256.Hash` | shared/sha256.c:59-80 | block loop and tail compute the digest of the padded message |
| `Sha256.Sha256Hex` | shared/sha256.c:59-94 | the output is the lower-case hexadecimal digest, for every input shorter than 2^64 bytes; for `abc` see AbcDigest |
| `Sha256.DigitBack` | shared/sha256.c:82-92 | a printed digest digit reads back as its four bits |
| `Sha256.DigestChain` | shared/sha256.c:59-80 | the digest is the last value of a chain that starts with the initial words and is carried by one compression a block over the padded message |
| `Sha256Functions.ChBits` | shared/sha256.c:46 | each bit of Ch is the second word's where the first has a one and the third's where it has none |
| `Sha256Functions.MajBits` | shared/sha256.c:47 | each bit of Maj is the one that two of the three words have |
| `Sha256Functions.BigSigma0Bits` | shared/sha256.c:47 | bit i is the exclusive or of bits i + 2, i + 13 and i + 22, around the word |
| `Sha256Functions.BigSigma1Bits` | shared/sha256.c:45 | bit i is the exclusive or of bits i + 6, i + 11 and i + 25, around the word |
| `Sha256Functions.Sigma0Bits` | shared/sha256.c:34-36 | bit i is the exclusive or of bits i + 7 and i + 18 around the word and bit i + 3 where there is one |
| `Sha256Functions.Sigma1Bits` | shared/sha256.c:34-38 | bit i is the exclusive or of bits i + 17 and i + 19 around the word and bit i + 10 where there is one |
| `Sha256Facts.AbcDigest` | shared/sha256.c:28-94 | the known answer for the message `abc`, computed round by round |
| `Commands.CountFreq` | analyze/main.c:118-123 | the counting loop adds the tally of its byte range |
| `Commands.CountPairs` | analyze/main.c:132-137 | the counting loop adds the tally of the adjacent pairs of its range; what a tally of pairs counts is CountsIff, how a pair is printed BigramRowText |
| `Commands.CountKind` | analyze/main.c:104-137 | each kind's block ends with the tally of its window; code points are refused exactly where the window is not valid |
| `Counts.CountsIff` | analyze/main.c:118-137 | rows are the tally of a window's keys if and only if they give, for each byte, ordered pair of bytes or scalar value, how often it stands in the window, modulo 2^64 |
| `Counts.DecodedIs` | analyze/count.c:287-340 | the scalar values that are counted are the ones whose encodings in a row are the window |
| `Meaning.ClassifyMeans` | analyze/count.c:343-348 | the class says whether the octets are UTF-8 and whether all are below 128 |
| `Meaning.ScanMeans` | analyze/main.c:21-159 | when a scan succeeds and what its bundle then holds, stated on the windows' bytes |
| `Meaning.CheckMeans` | analyze/main.c:301-391 | the check finds the failed comparisons, each once, stated on counts, sizes and digests |
| `MergeMeaning.MergeMeans` | analyze/main.c:198-295 | for all parts: when they merge, when they are refused for disagreement or for a byte total, and what the merge holds |
| `Commands.ListCells` | analyze/count.c:438-453 | the non-zero cells in ascending key order |
| `Commands.ListRows` | analyze/count.c:438-463 | the printed row order is the ascending listing of the denoted rows for all kinds |
| `Commands.RenderKindBlock` | analyze/count.c:412-475 | the printed lines: declarations, rows in order, provenance |
| `Commands.CmdScan` | analyze/main.c:21-159 | the scan succeeds exactly where cpfreq is not asked for or its window is UTF-8 of RFC 3629; then it prints a bundle with each kind's row counts of bytes, ordered pairs or scalar values in its window modulo 2^64, the class of the window and the command line's provenance |
| `Commands.Accumulate` | analyze/main.c:211-242 | the nested merge loops gather, per kind, rows, class, first field values, conflicts and byte sums; what these come to over the parts is MergeMeans |
| `MergeCheck.ListMap` | analyze/count.c:109-123 | listing does not depend on the order rows are visited in |
| `MergeCheck.RowsMatch` | analyze/count.c:194-207 | a recounted block and parsed rows compare equal exactly when they are the same rows |
| `MergeCheck.CheckKind` | analyze/main.c:345-386 | the number of failed comparisons of one kind: recount, byte total, digest; the comparisons themselves are stated in CheckMeans |
| `MergeCheck.CmdCheck` | analyze/main.c:301-391 | the check gives the number of pairs of a present kind and a comparison that fails: its rows do not count the file, its byte total or digest is not the file's; it is Ok(0) if and only if the text is readable and no comparison of any kind fails |
| `MergeCheck.Agreement` | analyze/main.c:244-268 | the loop accepts exactly when no field of any kind conflicts, and finds the largest byte total |
| `MergeCheck.CmdMerge` | analyze/main.c:198-295 | for readable parts: the merge fails for disagreement if and only if two parts that hold one kind state different values of one of the seven fields; otherwise each field is the value of every part that states it, each row the sum of the parts' |
| `MergeCheck.RenderBundle` | analyze/count.c:477-496 | the present kinds are printed in canonical order |
| `Analyze.ScanDocOk` | analyze/main.c:139-157 | every document a scan builds can be carried by the bundle format |
| `Analyze.FreshScanPasses` | analyze/main.c:344-390 | the bundle of a fresh unsharded scan passes the recount check on the same bytes with no mismatch |
| `ShardedScan.FreqKeysTile` | analyze/main.c:85-121 | the n freq windows in a row are the file |
| `ShardedScan.PairKeysTile` | analyze/main.c:86-135 | the pairs of the n bigram windows in a row are the file's pairs, each once |
| `ShardedScan.CpKeysTile` | analyze/main.c:87-113 | the code points of the n windows in a row are the file's |
| `ShardedScan.AllScanIff` | analyze/main.c:104-113 | all n shard scans and the whole scan succeed exactly under one condition on the file |
| `ShardedScan.PartsAccumulate` | analyze/main.c:211-242 | after j parts the accumulator holds the merged rows, the classes' maximum and the cut as byte sum, with no conflict |
| `ShardedScan.DocsMerge` | analyze/main.c:244-291 | merging the shard documents succeeds and gives the whole scan's rows and provenance |
| `ShardedScan.BytesCheckIff` | analyze/main.c:265-277 | the byte cross-check accepts exactly the file's own size, or anything when there is nothing to compare |
| `ShardedScan.MergedTexts` | analyze/main.c:198-295 | merging the printed shard texts prints the whole document under the shards' class |
| `ShardedScan.ShardedEqualsWholeIff` | analyze/main.c:21-295 | scan in n shards, print, parse and merge: the text equals the whole scan's text if and only if nothing was asked for or the classes agree |
| `ShardedScan.WideShardsEqualWhole` | analyze/main.c:21-295 | for every valid file with three bytes per shard, the sharded and the whole scan print the same text |
| `ShardedScan.MergedScanPasses` | analyze/main.c:301-391 | the merged bundle passes the recount check on the file |
| `ShardedScan.RenderBack` | analyze/count.c:477-496 | a bundle read back prints the same text again |
| `Pool.NextInv` | scripts/emit_sweep.py:1419-1435 | every atomic step of every worker keeps the invariant: queues, claims, slots, records and the call log agree |
| `Pool.RunInv` | scripts/emit_sweep.py:1402-1445 | the invariant holds in every state of every interleaving |
| `Pool.RunSafe` | scripts/emit_sweep.py:1422-1435 | in every state no task was called twice and at most comp_jobs composition tasks are being called |
| `Pool.NextDecreases` | scripts/emit_sweep.py:1419-1435 | every step decreases a measure of the state |
| `Pool.RunsTerminate` | scripts/emit_sweep.py:1419-1441 | no run is longer than a bound fixed by tasks and workers: every schedule terminates |
| `Pool.StuckIffFinished` | scripts/emit_sweep.py:1437-1441 | a reachable state has no next step exactly when every worker has retired: no deadlock |
| `Pool.FinishedRun` | scripts/emit_sweep.py:1428-1441 | when all workers have retired every task was called exactly once, if and only if comp_jobs is at least 1 or there is no composition task |
| `Pool.ScheduleIndependent` | scripts/emit_sweep.py:1442-1445 | two finished runs of one job return the same results or raise the same error |
| `Pool.FinishMeans` | scripts/emit_sweep.py:1442-1445 | the call returns all results in task order, or raises the first error in task order |
| `PoolClaims.IdleTakes` | scripts/emit_sweep.py:1419-1427 | in every state of every run an idle worker takes the first waiting composition task where one may start, else the first other one, and retires exactly where no task may start |
| `Escape.EncodeEscape` | scripts/emit_sweep.py:1551-1569 | the printing loop computes the recursive encoding |
| `Escape.DecodeEscape` | scripts/emit_sweep.py:865-894 | the reading loop computes the recursive decoding, with Python's own reading of two-character hexadecimal |
| `Escape.EncodePrintable` | scripts/emit_sweep.py:1551-1569 | encoded text is printable ASCII, no control byte |
| `Escape.EscapeRoundTrip` | scripts/emit_sweep.py:1551-1554 | decoding an encoding gives the bytes back, for every byte string |
| `Escape.CanonicalIff` | scripts/emit_sweep.py:865-894 | a text is unchanged by decoding and encoding exactly when it is some byte string's encoding |
| `Escape.EncodeByteText` | scripts/emit_sweep.py:1551-1569 | how each byte is written: the four named escapes, printable bytes as they are, two lower-case hexadecimal digits for the rest |
| `Escape.PyHexIff` | scripts/emit_sweep.py:882-890 | two bytes are read as a number exactly when they are hexadecimal digits, a sign before them or white space around them, as Python reads it |
| `Escape.PatternsRoundTripIff` | scripts/emit_sweep.py:1572-1585 | a written patterns file reads back as the same patterns if and only if there is one and none is blank or starts with a hash sign, and is refused if and only if all are |
| `Options.CheckToken` | memfn/src/options.c:57-67 | one token is accepted exactly when it is legal, otherwise the refusal says why |
| `Options.LegalIff` | memfn/src/options.c:57-67 | a token is legal exactly when it denies a listed name, or names a row that is a pair and denies nothing |
| `Options.OptsCheck` | memfn/src/options.c:52-71 | accepts exactly the empty string and strings whose comma-split tokens are all legal, and otherwise names the first illegal token |
| `Options.OptDenied` | memfn/src/options.c:73-86 | true exactly when some token is `no-` followed by the name |
| `Options.SplitMore` | memfn/src/options.c:56-70 | appending a comma and a comma-free token appends one token to the split |
| `Options.WalkRow` | memfn/src/compose.c:164-190 | a row is chosen exactly when it is not denied, passes the gate and holds; only a gate refusal updates the reason |
| `Options.KitWalk` | memfn/src/compose.c:192-209 | the first undenied, passing, holding row of the slot, or none, and the last declined row's fields |
| `Options.DeniedIff` | memfn/src/compose.c:164-175 | a row is denied exactly when it and the caller have a deny bit in common, or the string denies its option |
| `Options.DeclinedMeans` | memfn/src/compose.c:176-209 | the fields told are those of the last row before the choice that the gate declined |
| `Options.DenyAnother` | memfn/src/compose.c:192-209 | denying one more name, from any option string, leaves the choice exactly when it is not the chosen row's own |
| `FormClass.RunSet` | memfn/src/presence.c:87-93 | a byte is in the set if and only if it has the run byte's bit wherever the mask has a one and the run byte has none elsewhere |
| `FormClass.TermProve` | memfn/src/compose.c:373-385 | each row of the proof is intersected with what the term admits at its offset, within the range and the clip |
| `FormClass.KitClass` | memfn/src/compose.c:387-412 | refused exactly for an unstated FIND row; otherwise a byte is in row d if and only if each tested one of the first 32 terms lets it stand there, set or masked run, stated bit by bit |
| `FormClass.OutsideMask` | memfn/src/presence.c:87-93 | two bytes that differ only where the mask has no bit are both let stand or both not |
| `FormClass.MaskedLetter` | memfn/src/presence.c:87-93 | the class of a letter under the mask that forgets its case is exactly its two letters |
| `FormClass.SatisfiesIffAllows` | memfn/src/k1_ref.c:76-85 | a candidate passes the masked compare of a run, or a set test, exactly when each of its bytes is allowed at its offset |
| `FormClass.ProofSound` | memfn/src/compose.c:342-358 | at every candidate that satisfies the tested terms the byte at each offset lies in the proof |
| `FormClass.ProofTight` | memfn/src/compose.c:342-358 | if the tested terms are satisfiable, every byte of the proof occurs at some satisfying candidate |
| `FormClass.SatisfiableIff` | memfn/src/compose.c:342-358 | the tested terms are jointly satisfiable exactly when they leave a byte at every offset |
| `Composer.Art.KitFail` | memfn/src/compose.c:77-86 | only the first fault is recorded |
| `Composer.Art.Append` | memfn/src/compose.c:1115-1130 | a record is appended, the table doubled when full, no record lost |
| `Composer.Art.MfDefine` | memfn/src/compose.c:1063-1215 | the new state and verdict of a define |
| `Composer.Art.MfUse` | memfn/src/compose.c:1217-1258 | the new state and verdict of a use: refused before its storage is placed |
| `Composer.Art.MfLocals` | memfn/src/compose.c:1273-1302 | the new state and verdict of placing storage: once, for a declared point, with the define's texts |
| `Composer.Art.MfDefined` | memfn/src/compose.c:1304-1318 | a query about a handle changes nothing but the error |
| `Composer.Art.MfLever` | memfn/src/compose.c:1386-1397 | accepted before the first define for the one listed name |
| `Composer.Art.MfArtNoteLibc` | memfn/src/compose.c:1420-1449 | a new identifier is inserted in its sorted place, a known one changes nothing, a text that is no identifier is an error of the art |
| `Composer.Art.MfStamps` | memfn/src/compose.c:1457-1472 | the stamp is the list of the noted names, or nothing after an error |
| `Composer.Art.MfReachTable` | memfn/src/compose.c:1399-1412 | nothing is written without a stem; otherwise a bad sink is an error of the art |
| `Composer.Art.MfEmit` | memfn/src/compose.c:1320-1328 | a define followed by a use of its handle |
| `Composer.Art.MfCall` | memfn/src/compose.c:1330-1338 | a use of a helper handle only |
| `Composer.Art.MfArtEnd` | memfn/src/compose.c:1340-1358 | the first record, in handle order, that was not placed, not read or not used is the error |
| `Composer.Art.MfReach` | memfn/src/compose.c:1360-1374 | accepted once, before the first define, with a stem |
| `Composer.StickyError` | memfn/src/compose.c:77-86 | a call fails exactly when it leaves an error; a recorded error is never overwritten and blocks every later call |
| `Composer.FirstErrorStays` | memfn/src/compose.c:77-86 | over any sequence of calls the first recorded error is the one that remains |
| `Composer.NoErrorIff` | memfn/src/compose.c:77-86 | no error is recorded exactly when every call so far succeeded |
| `Composer.EndSucceedsIff` | memfn/src/compose.c:1340-1358 | the end succeeds exactly when every earlier call did and every defined handle was used |
| `Composer.PlacedOnce` | memfn/src/compose.c:1273-1302 | in every run a handle's storage was placed once or never, as its record says |
| `Composer.UseAfterPlacing` | memfn/src/compose.c:1217-1258 | a successful use of a declared point comes after its storage was placed, exactly once |
| `Composer.EndedWellPlacedOnce` | memfn/src/compose.c:1340-1358 | in a run that ends well every declared point was placed exactly once |
| `Composer.UsedIff` | memfn/src/compose.c:1217-1258 | a handle counts as used exactly when some use of it succeeded |
| `Composer.RunsNoteAlike` | memfn/src/compose.c:1419-1449 | two runs hold the same name list exactly when their successful notes name the same identifiers, whatever else they do |
| `ComposerHistory.StateTold` | memfn/src/compose.c:77-86 | after calls without an error the records, the stem and the lever are what the calls made |
| `ComposerHistory.CallsTold` | memfn/src/compose.c:1063-1472 | after calls that all succeeded, whether and why any next call is refused, told from the earlier calls alone |
| `LibcNames.StrCmp` | memfn/src/compose.c:1427 | the comparison loop decides the lexicographic order |
| `LibcNames.LessIff` | memfn/src/compose.c:1427 | a name is less exactly when it is a proper prefix or has the smaller byte where the two first differ |
| `LibcNames.CommasSplit` | memfn/src/compose.c:1462-1470 | the stamp of at least one identifier splits at its commas into the names in order |
| `LibcNames.NameList.Insert` | memfn/src/compose.c:1425-1447 | a name is put in its sorted place, once |
| `LibcNames.NameList.StampText` | memfn/src/compose.c:1462-1470 | the loop writes the comma list of the names, or `none` |
| `LibcNames.NameList.ShiftFrom` | memfn/src/compose.c:1444-1446 | the gap for a new name moves the later names up by one and loses none |
| `LibcNames.InsertedHolds` | memfn/src/compose.c:1419-1448 | the list stays sorted without repetition and gains exactly the name |
| `LibcNames.NotesOrderFree` | memfn/src/compose.c:1419-1448 | two note sequences leave the same list exactly when they note the same names |
| `LibcNames.StampTells` | memfn/src/compose.c:1462-1470 | the stamp tells two lists apart, except no name from the single name `none` |
| `FormLex.StripConcat` | memfn/src/formhash.c:102-121 | the comment pass works piecewise: after a text that closes its literals and comments it starts afresh |
| `FormLex.CommentsMoveNothing` | memfn/src/formhash.c:20-21 | inserting a block or line comment outside literals and comments leaves the pass-1 output |
| `FormLex.LexSound` | memfn/src/formhash.c:134-169 | the tokens of a line lose nothing and are well formed |
| `FormLex.LexRender` | memfn/src/formhash.c:134-169 | lexing the text of any well-formed token sequence gives the sequence back |
| `FormNames.NumberMeans` | memfn/src/formhash.c:157-162 | a number below 256 is the name's place in the table, 256 says the table was full without it |
| `FormNames.RelatedNumber` | memfn/src/formhash.c:157-162 | sequences related by a one-to-one renaming are numbered alike, however many names there are |
| `FormNames.NumberingExact` | memfn/src/formhash.c:123-162 | equal numbering means a one-to-one renaming for all sequences if and only if at most one occurrence is numbered 256 |
| `FormNames.FewNamesFit` | memfn/src/formhash.c:123-160 | up to 256 distinct names no occurrence is numbered 256 |
| `FormNames.OverflowHides` | memfn/src/formhash.c:157-162 | two uses of names beyond the table: another sequence is numbered alike without being a renaming |
| `FormNormal.TrimMiddle` | memfn/src/formhash.c:130-132 | indentation and trailing white space do not reach the tokens |
| `FormNormal.LineRenamed` | memfn/src/formhash.c:134-169 | renaming the identifiers of a line renames its items and nothing else |
| `FormNormal.RenamingKeepsForm` | memfn/src/formhash.c:26-30 | the normal form is unchanged by every one-to-one renaming of non-kept identifiers to non-kept identifiers, on whole texts |
| `FormTells.LayoutKeepsForm` | memfn/src/formhash.c:22-25 | the normal form is unchanged by indentation, trailing white space and blank lines |
| `FormTells.InnerSpace` | memfn/src/formhash.c:22-25 | inside a line the width of white space does not matter, nor its presence unless it separates two word characters |
| `FormSpace.InnerSpaceIff` | memfn/src/formhash.c:22-25 | where a line closes its literals and has visible characters on both sides, a gap put there leaves the items unchanged if and only if it does not stand between two word characters |
| `FormSpace.GapCounts` | memfn/src/formhash.c:137-144 | between two word characters a gap adds exactly one kept space to the line, whatever tokens the two sides join to |
| `FormSpace.FormGaps` | memfn/src/formhash.c:137-144 | texts of equal form keep equally many spaces, dollar signs or not |
| `FormComment.CommentAsSpaceIff` | memfn/src/formhash.c:20-25 | a block comment after closed literals and comments gives the normal form that a space gives, if and only if it does not join two word characters and does not stand in a literal left open on its line with something visible after it |
| `FormComment.CommentJoins` | memfn/src/formhash.c:112-114 | a failing input: the normal forms of `a/**/b` and `a b` differ |
| `FormConverse.NormalFormIff` | memfn/src/formhash.c:26-30 | without a dollar sign outside literals, normal forms are equal exactly when the items are numbered alike, and, if the first text has at most one name use beyond the table, exactly when the items differ by a one-to-one renaming; the items keep white space only between two word characters |
| `FormOperators.GapMoves` | memfn/src/formhash.c:137-144 | white space may move over any part of a line none of whose two edges separates two word characters |
| `FormOperators.OperatorsHidden` | memfn/src/formhash.c:26-30 | a failing input: `a- --b` and `a-- -b` have one normal form and different operators |
| `FormOperators.TightLineExact` | memfn/src/formhash.c:26-30 | a line has no white space between two operator characters if and only if every such line of the same form has the same operator items: otherwise one has others |
| `FormOperators.TightFormTells` | memfn/src/formhash.c:26-30 | texts without white space between operator characters and without a dollar sign, the first with at most one name use beyond the table: equal normal forms exactly when even the items with operator gaps differ by a one-to-one renaming |
| `FormConverse.DollarImitates` | memfn/src/formhash.c:160-162 | a failing input: `x` and `$0` are no renaming and have one normal form |
| `FormDollar.DollarExact` | memfn/src/formhash.c:156-163 | for every comment-free text without a dollar sign: some text numbered differently has its form if and only if the text has a spare number, one that no kept space precedes and the other numbers do not need |
| `FormDollar.SpareImitates` | memfn/src/formhash.c:156-163 | spelling a spare number out as a dollar sign and digits gives another text of the same form |
| `FormDollar.ImitatedSpare` | memfn/src/formhash.c:156-163 | a text that has the form of a dollar-free one and is numbered differently shows a spare number in it |
| `FormDollar.NoSpareTells` | memfn/src/formhash.c:26-30 | without a dollar sign and a spare number, and with at most one name use beyond the table, the form is shared exactly with the renamings, among all texts |
| `FormDollar.TextOfSheet` | memfn/src/formhash.c:125-169 | well-formed, squeezed lines of items are the items of the text that shows them |
| `FormDollar.NamedNumbered` | memfn/src/formhash.c:157-160 | every sequence of numbers in order of first appearance is the numbering of some identifiers |
| `FormHash.FnvOver` | memfn/src/formhash.c:73-80 | the hash loop computes the recursive FNV-1a-64 fold |
| `FormHash.DropComments` | memfn/src/formhash.c:100-121 | pass 1 computes the comment-free text |
| `FormHash.IsKept` | memfn/src/formhash.c:61-66 | the list search decides membership in the kept identifiers |
| `FormHash.SameName` | memfn/src/formhash.c:158 | the two comparisons against a recorded offset decide equality of whole identifiers |
| `FormHash.NumberName` | memfn/src/formhash.c:157-159 | the search over recorded offsets gives the identifier's number and records a new one while there is room |
| `FormHash.NormalizeLine` | memfn/src/formhash.c:133-169 | pass 2 over one line appends exactly the printed items of that line |
| `FormHash.TrimLine` | memfn/src/formhash.c:130-132 | the two trimming loops compute the trimmed line |
| `FormHash.FormHashText` | memfn/src/formhash.c:100-180 | the output is the 16-digit FNV-1a-64 fold of the normal form, from the code's own start value, for every text |
| `FormHash.DigestExact` | memfn/src/formhash.c:177 | the digest has 16 digits and two digests are equal exactly when the hashes are |
| `FormRules.CharClasses` | memfn/src/formhash.c:68-69 | which characters start a name, go on with one, are blanks, line edges and quotes |
| `FormRules.StripLiteral` | memfn/src/formhash.c:105-111 | a closed literal, whose backslashes take the next character along, is kept as it stands |
| `FormRules.StripOpen` | memfn/src/formhash.c:105-111 | a literal that is never closed is kept to the end of the text |
| `FormRules.StripBlock` | memfn/src/formhash.c:112-114 | a block comment goes up to its first close, or to the end of the text where there is none |
| `FormRules.StripLine` | memfn/src/formhash.c:115-116 | a line comment goes and the newline after it stays |
| `FormRules.StripChar` | memfn/src/formhash.c:117-120 | every other character is kept |
| `FormRules.LineRule` | memfn/src/formhash.c:127-173 | a line gives the items of what stands between its margins and an end of line, and nothing where nothing stands there |
| `FormAnswers.SourceForm` | memfn/src/formhash.c:100-169 | a known normal form: kept words, repeated names, an escaped quote, digits with letters, both comments and both kinds of white space |
| `FormAnswers.DigestOfX` | memfn/src/formhash.c:72-79 | the known digest of the text `x` |
| `Trie.InsertWord` | scripts/alt_census.py:314-322 | after inserting a word the trie denotes the old prefixes and the word's, each at one node |
| `Trie.Build` | scripts/alt_census.py:307-323 | the trie denotes exactly the prefixes of the words, every accept count is the word's multiplicity, and depth is the longest length |
| `Trie.PopPush` | scripts/alt_census.py:332-341 | popping a path and pushing its extensions keeps the stack an antichain above everything unvisited |
| `Trie.Walk` | scripts/alt_census.py:325-341 | the explicit-stack walk visits every path once and gathers the four figures, whatever order children are pushed in |
| `Trie.TrieStats` | scripts/alt_census.py:297-350 | nodes, depth, fan-out, mask depth, try sites and pushes are what the plain word list says |
| `Trie.PrefixesMember` | scripts/alt_census.py:313-321 | a path is a node exactly when it is empty or a prefix of some word |
| `Trie.CountExtend` | scripts/alt_census.py:335-341 | the words that are prefixes of a one-byte extension are those of the path and the extension itself |
| `Trie.DeepestAtWord` | scripts/alt_census.py:336 | the deepest prefix count over all paths is reached at a word |
| `Trie.TriesCounted` | scripts/alt_census.py:335-341 | the try sites are the pairs of a distinct word and a list entry that is a prefix of it |
| `Arena.RoundedIs` | src/core/arena.c:15 | the rounded size is the least multiple of 16 that holds the request if and only if the request is at most 2^64 - 16; above that it is 0 |
| `Arena.HeldIff` | src/core/arena.c:15-19 | a request in a new block is held, and its block by the bytes asked of malloc, if and only if it is at most 2^64 - 32 |
| `Arena.AddressAligned` | src/core/internal.h:304-314 | a returned address is a multiple of 16 if and only if the first byte behind the 24-byte header is one; in a block aligned to 16 it never is |
| `Arena.Arena.Open` | src/core/arena.c:17-33 | a new block, with its address and the size asked of malloc, becomes the head and the old list its rest |
| `Arena.Arena.Cut` | src/core/arena.c:34-38 | a region cut from the head block is zeroed, apart from every live region, and leaves their bytes |
| `Arena.Arena.Alloc` | src/core/arena.c:13-38 | the region starts at a multiple of 16 within its block, is inside it, zeroed and disjoint from all live ones, whose contents stay; a block is opened exactly when the head has no room; up to 2^64 - 32 bytes the request and its block are held |
| `Arena.Arena.Store` | src/core/arena.c:13-39 | writing inside one live region changes no byte of another |
| `Arena.Arena.Free` | src/core/arena.c:42-51 | every block is released exactly once, in list order, and the arena is empty |

## Left out

- Shards.FreqTilesIff: shard counts of 2^64 or more, which no `long` holds, are excluded.
- Shards.BigramWindow: shard counts with n times the size at or above 2^64 are excluded, here and in LateStartIsShort, WindowShape, CpfreqTilesIff, MergedEncoding, MergedEncodingIff, WideShards and every member of `ShardedScan` and `Analyze` that takes a shard. By BoundsRiseIff some shard's range is then out of order, and a scan of such a shard takes the length of an inverted window, which the model does not have.
- Messages of 2^61 bytes and more: the digest is proved for the length field the code writes there, the bit length modulo 2^64, but FIPS 180-4 defines none.
- FormDollar.DollarExact: about texts after the comment pass; that the other text it gives can be written with comments, or without any that the pass would drop, is not stated. A text that has a `$` outside literals itself is not characterised.
- FormOperators.TightLineExact: white space between operator characters is taken to count wherever it stands, although the language reads `( (` and `((` alike, and white space between a word and a literal, as in `L "x"`, is not considered.
- FormNormal.RenamingKeepsForm: the renaming is applied to the text after comments are dropped, so it relates any two sources whose comment-free texts are so renamed.
- Trie.Walk: children are pushed in an arbitrary order instead of the dictionary's insertion order; the figures do not depend on it. Node identities are creation numbers.
- Arena.Arena.Alloc: the header is 24 bytes, as with eight-byte pointers. In the model a block has its capacity even where the size asked of `malloc` wrapped; what the code then overwrites is not modelled, only that the block is too small. That `malloc` blocks do not overlap is that their memory is not shared.
- Composer.Art.MfDefine: the vocabulary check, the window family, the gate and the arms are not modelled; each call carries what they answered, before or after its record is appended. A name that an arm notes while it renders is a `Note` call before that use.
- Composer.INIT: an art whose measurement set `mf_art_begin` refused, so that it starts with an error, is not modelled.
- Composer.Art.MfStamps: the word count and the form list of the stamps are left out, and so is the text of the reach table.
- FormClass.KitClass: byte sets are sets of bytes instead of 32-byte bitmaps; the class fields other than the proof are left out.
- Options.KitWalk: the gate's verdict and a row's predicate are given per row; the trace-only code is left out.
- MergeCheck.CmdMerge: error messages name no file, field or kind; byte totals are unbounded integers, so a signed overflow of the sum is not modelled.
- Reader.ParseBundle: the declarations question, reader, analyzer, serves, include and description, which only the document dump prints, are read over and not kept; parsed rows are kept as a map, not added into a `KindBlock`. Signs, leading white space and `0x` accepted by the C number readers, and a code point key 0xFFFFFFFF, are not modelled.
- RoundTrip.ParseRead: provenance texts with a newline, which are printed as several lines, are excluded; so are a name and an encoding class that are not clean.
- Commands.CmdScan: the parsing of `--scan` and `--shard` is not modelled; the kinds and the shard are parameters.
- CpTable.Table.Sorted: the library `qsort` is an insertion sort over distinct keys.
- Pool.NextInv: a worker's step under the lock is one atomic step and a task's call is another; a task is what it returns or raises, fixed in advance.
- Allocation failure, and the `longjmp` and exit paths behind it; file and standard input, output streams and process exit codes.
- Text with NUL bytes; a C string is the characters before its NUL.
- `dump_doc`, `put_cell` and the digest-only command: output only.
- The vocabulary table of `compose.c`: a lookup.
- The regex compiler, the finder rows, the window family, the gate's own rules, and the censuses' reports and pinned counts.
