# appimagetool: digest, embedding and rewriting, modelled and proved in Dafny

`appimagetool` puts a runtime before a squashfs payload, computes a digest of that file and embeds it,
with update information, a signature and a key, in sections of the runtime inside the very same file.
This project models that core and proves what it keeps.

- **MD5** (`Md5Spec`, `Md5Steps`, `Md5Vector`, `Md5Blocks`, `Md5`). `Md5Spec` is RFC 1321 sections 3.1 to 3.5 as a
  specification: padding, blocks, a table-driven compression with rotating registers. `Md5Context` is the
  streaming context of `src/md5.c` with its unrolled rounds, its 29-bit/32-bit counter and its partial
  block; its ghost field `message` is everything fed so far, and `Valid` ties the rest to it. Any run of
  updates ends in the specification's MD5 of the bytes joined. `Md5Vector` computes the RFC's test value for the
  empty message from the specification, operation by operation.
- **The chunk loop** (`DigestSpec`, `DigestProof`, `DigestLayout`, `DigestReads`, `DigestBlanks`, `DigestExact`,
  `DigestMasked`, `DigestAhead`, `DigestStale`, `Digest`, `DigestElf`). `DigestSpec` tells one turn of the loop of `src/digest.c` branch by
  branch, and the methods of `Digest` are proved to do that. What the loop feeds to MD5 is then characterised
  exactly: `DigestReads` runs the same loop on file positions in place of bytes. The cells that come out tell,
  for every section table, which bytes count and where the memory of the buffer does.
- **Section lookup** (`Elf`, `ElfLayout`, `ElfFrame`, `ElfEncode`). The two loops of `src/elf.c` over raw bytes, which
  bytes they depend on, and the round trip from a section table to ELF bytes and back.
- **The packaging run** (`Hexlify`, `Sign`, `Packaging`, `PackagingRun`, `PackagingProof`, `PackagingLayout`,
  `PackagingWitness`). The steps of `main` and of `sign_appimage` on one file. The recorded digest still
  holds for the finished file, the signature covers what is shipped, and nothing else changes.
- **String rewriting and architecture scan** (`ReplaceStr`, `Arch`).

`Bytes` and `CLib` hold byte encodings and the parts of the C library used: `memcpy`, `memset`, `strcat`
and stdio streams, where `fread` clips at the end of the file and `fseek` may pass it.

## What holds, and what does not

**The chunk buffer is never cleared.** The comment at `src/digest.c:37` wants null bytes where a section
lies; the code leaves there whatever the buffer held. The model makes those contents a parameter, the
*fill*: for any fill, what is fed is the file wherever nothing is skipped (`FedWhenIsolated`); with a zero
fill and a good layout it is the file with the sections blanked and zeros up to a whole chunk
(`FedIsBlanked`). `DigestStale` covers the fill that keeps the previous chunk. So a digest depends on
memory that the code does not set: for one file, two fills feed the same bytes if and only if they agree
wherever the loop reads nothing (`FedTellsFill`), and wherever sections share no chunk the first byte of each
is such a place (`FirstByteIsUnread`).

**Not every layout is blanked.** A section on a chunk boundary is not recognised, two sections in one chunk
displace the cursor, and the carry is drained remainder first, which is right only if the overflow past the
first chunk is at most 4096 or a multiple of 4096. `GoodLayout` says exactly this. For sections that lie in
the file and do not overlap, and for any fill, the loop blanks every file of a size if and only if the layout
is good and the fill is zero where nothing is meant to be hashed (`GoodLayoutIsExact`, for a section table
given apart from the file). When the table is the file's own, the header, the section table and the names are
fixed bytes, and the exact condition, for every readable file and every fill, is that every cell is right for
these bytes: `CellsAreRight`, which takes the section table, the size and the fixed bytes (`ElfIsExact`).
For layouts this comes to the same condition as before if the three sections lie behind these bytes
(`ElfLayoutIsExactBehind`), or if they are only clear of them and no chunk is touched by all three
(`ElfLayoutIsExact`). `ThreeWaysToFail` has an ELF file for a section on a chunk boundary, for two
sections in one chunk and for one drained in the wrong order. A section of two or more whole chunks never makes
a good layout (`WholeChunksNeverDrain`). With no three sections in one chunk a layout is good exactly when no
byte of them is hashed (`GoodLayoutReadsNoMasked`); with three it can be bad though none is
(`CrowdReadsNoMasked`).

**The recorded digest.** The bytes hashed for two files of one size, with two fills, are the same if and only if
the files agree wherever the loop reads and the fills wherever it does not, for every section table
(`FedTellsAll`). So the recorded digest holds for the finished file of every safe run in which nothing is
written, from the digest on, where the loop reads (`RecordedDigestHolds`), however the sections lie, for
whoever recomputes it finding the same memory where nothing is read. With other memory there the bytes hashed
are others (`RecomputedExactly`), and in a good run there is always such memory (`OtherMemoryShows`). As for
the writes, that is exactly what is needed for every digest, signature
and key to be embedded unseen (`WritesAreUnreadExactly`, `SigningIsExact`); where it fails for a signature or a
key, another of the same size changes what is hashed. It can fail: with two sections in one chunk for every
signature that is not empty (`SharedChunkShows`), and for a key of more than 4096 bytes in a section of 8192
(`OverlongKeyShows`). If no two masked sections share a chunk, the condition is that the lengths fit the gaps
(`GapsAreExact`). That different hashed bytes give different digests is not claimed, as it is of MD5.

**Restarting from the beginning is not replace-all in general.** `Safe` is a condition on search and
replacement alone, and it is exactly what makes `replacestr` end, on every line, with one pass of
replace-all (`SafeIsExact`). All pairs its callers use satisfy it (`CallersAreSafe`).

**A data object read in several pieces is embedded wrongly**, as every read starts at the front of the
buffer; it is right for all contents exactly when there is one read at most (`OneReadIsExact`).

## What the model assumes of its inputs

- A file whose sections are looked up is `Readable`: header, section table and names lie inside it. The
  source maps the file and follows offsets without a check, so this is what it takes for granted.
- The run asks that the runtime's written sections are clear of header, table and names (`SafeRuntime`),
  so that later lookups still find a section table. `RuntimeHasSections` gives such a runtime for
  any four sections that fit behind its table, and `SampleRunsAreGood` shows runs that meet all that is asked.
- The hash, the signature, the exported key and the fill are parameters; the payload is whatever mksquashfs
  left in the destination.
- Text is bytes: `Bytes.Text` gives the codes of the characters of a literal, such as `Text(".sig_key")`.

## Model

| member | source | states |
|---|---|---|
| Bytes.WordRoundTrip | src/md5.c:299-314 | the four bytes written for a register determine it: reading them back low-order byte first gives the word |
| Bytes.LittleEndianRoundTrip | src/md5.c:287-295 | a number that fits is recovered from its little-endian bytes, whatever their count |
| Md5Spec.RotateIsCircular | src/md5.c:37-40 | the rotation written with two shifts is the circular shift for all sixteen amounts used |
| Md5Spec.CompressAllSplits | src/md5.c:81-166 | compressing a concatenation of whole blocks is compressing the one and then the other |
| Md5Spec.PaddingIsShortest | src/md5.c:271-297 | a padded message of n bytes is ceil((n + 9) / 64) blocks long |
| Md5Spec.PaddingIsInjective | src/md5.c:271-297 | messages shorter than 2^61 bytes with the same padded form are the same message |
| Md5Steps.FastFIsF | src/md5.c:27 | the optimised F equals RFC 1321's F on all words |
| Md5Steps.FastGIsG | src/md5.c:28 | the optimised G equals RFC 1321's G on all words |
| Md5Steps.MaskedRotateIsRotate | src/md5.c:39 | masking before the right shift changes nothing on 32-bit words |
| Md5Vector.HIsParity | src/md5.c:29 | for all words, a bit changed in any argument is changed in H, and H of zeros is zero |
| Md5Vector.FBitByBit | src/md5.c:27 | every bit of F comes from that bit of the arguments only |
| Md5Vector.GBitByBit | src/md5.c:28 | the same of G |
| Md5Vector.IBitByBit | src/md5.c:30 | and of I |
| Md5Vector.ChoicesAre | src/md5.c:27-30 | what F, G and I are where their choosing argument is all zeros or all ones |
| Md5Vector.EmptyMessage | src/md5.c:322-335 | the MD5 of the empty message is d41d8cd98f00b204e9800998ecf8427e, the test value of RFC 1321 section A.5 |
| Md5Steps.Step | src/md5.c:37-40 | one STEP takes the registers after i operations of the RFC to those after i + 1, with the roles moved on |
| Md5.Md5Context.constructor | src/md5.c:188-201 | a new context stands for the empty message |
| Md5.Md5Context.Set | src/md5.c:68-72 | SET decodes word n of the block and stores it for the rounds that reuse it |
| Md5.Md5Context.Round1 | src/md5.c:88-104 | the sixteen unrolled steps with SET are operations 0 to 15 of the table-driven compression |
| Md5.Md5Context.Round2 | src/md5.c:106-122 | the sixteen unrolled steps with GET are operations 16 to 31 |
| Md5.Md5Context.Round3 | src/md5.c:124-140 | the sixteen unrolled steps with GET are operations 32 to 47 |
| Md5.Md5Context.Round4 | src/md5.c:142-158 | the sixteen unrolled steps with GET are operations 48 to 63 |
| Md5.Md5Context.CompressBlock | src/md5.c:83-163 | one turn of the do-while is one table-driven compression of the block, for every state and block |
| Md5.Md5Context.TransformFunction | src/md5.c:48-177 | the do-while folds the compression over any nonzero number of blocks and returns the data after them |
| Md5Blocks.CounterStep | src/md5.c:221-226 | mask, wrapped comparison and shift add any uint32 size to the counter modulo 2^61 |
| Md5.Md5Context.Count | src/md5.c:221-226 | after the update hi:lo counts the old total plus the size |
| Md5.Md5Context.Update | src/md5.c:209-253 | in all of its branches, the context afterwards stands for the old message with the data appended |
| Md5Blocks.OneBlockEnds | src/md5.c:271-285 | where the length still fits, the padded message ends in one block |
| Md5Blocks.TwoBlocksEnd | src/md5.c:274-281 | where fewer than eight bytes are free it ends in two |
| Md5Blocks.LengthBytes | src/md5.c:287-295 | lo shifted by three and hi are the bit length modulo 2^64, little-endian |
| Md5.Md5Context.StoreLength | src/md5.c:287-295 | the last eight bytes of the buffer are the length field, the rest stays |
| Md5.Md5Context.Finalise | src/md5.c:261-315 | the digest is RFC 1321's MD5 of everything fed, and n bytes have taken ceil((n + 9) / 64) compressions in all |
| Md5.SameMessageSameState | src/md5.c:209-253 | registers, counters and live buffer depend on the bytes fed only, not on how updates cut them |
| Md5.HashInParts | src/md5.c:188-315 | for every sequence of updates of any sizes the result is the MD5 of the bytes joined, in ceil((n + 9) / 64) compressions |
| Md5.Calculate | src/md5.c:322-335 | the one-call form gives the MD5 of its buffer |
| DigestProof.CarryStep | src/digest.c:47-57 | a section that goes on in a chunk has bytes to skip there, and skipping them leaves the carry the next chunk needs |
| DigestProof.TurnInLonelyChunk | src/digest.c:40-129 | a turn begun at the start of a chunk touched by one section at most feeds the file but for the skipped bytes, ends at the next chunk and keeps the carry right, for any fill |
| DigestProof.RunIsRight | src/digest.c:40-129 | over any number of such chunks the cursor is at 4096 * i when chunk i begins, and every chunk is fed as expected |
| DigestLayout.FedWhenIsolated | src/digest.c:37-129 | if no two sections share a chunk and none starts on a boundary, every chunk fed is the file outside the skipped bytes and the fill on them |
| DigestLayout.FedInGoodLayout | src/digest.c:37-129 | in a good layout, for any fill, the bytes fed are the file outside the sections and the fill on them and past the end |
| DigestLayout.FedIsBlanked | src/digest.c:37-129 | with a zero fill they are the file with the sections blanked, extended with zeros to whole chunks |
| DigestLayout.SectionsDoNotCount | src/digest.c:9-21 | in a good layout files that agree outside the three sections feed the same bytes |
| DigestLayout.PrefixIsSkipped | src/digest.c:47-77 | the first bytes of a section, up to the length FitsTheGap allows, are all skipped |
| DigestLayout.WholeChunksNeverDrain | src/digest.c:49 | a section of two or more whole chunks makes no layout good, wherever it starts |
| DigestLayout.CarryConserves | src/digest.c:43-57 | skipped and carried bytes of a section always add up to its length, and its carry drains in ceil(overflow / 4096) chunks |
| DigestReads.FedByCells | src/digest.c:40-129 | for every section table and fill, every byte fed is the byte of the file at the position told by running the loop on positions, or the fill |
| DigestReads.FedTellsAll | src/digest.c:40-129 | for every section table, two files of one size with two fills feed the same bytes if and only if the files agree wherever the loop reads and the fills wherever it does not |
| DigestReads.FedTellsReadBytes | src/digest.c:40-129 | with one fill: if and only if the files agree wherever the loop reads |
| DigestReads.FedTellsFill | src/digest.c:37-41 | with one file: if and only if the fills agree wherever it reads nothing |
| DigestReads.FillIsUnseenExactly | src/digest.c:37-41 | what the buffer held never matters if and only if nothing fed is left unread |
| DigestReads.FirstByteIsUnread | src/digest.c:60-77 | what is fed at the first byte of an isolated section is what the buffer held |
| DigestReads.WriteIsUnseenExactly | src/digest.c:40-129 | writing into a range leaves what is fed as it was, whatever is written, if and only if none of the range is read |
| DigestReads.FedTellsUnskippedBytes | src/digest.c:40-129 | for isolated sections that is agreement on every byte that is not skipped |
| DigestReads.GapIsExact | src/digest.c:47-77 | the first n bytes of an isolated section are all unread by the loop if and only if they fit the gap; else one of them is read and fed |
| DigestBlanks.BlankedExactly | src/digest.c:22-129 | for every section table, fill and set of fixed bytes: all files with these bytes are blanked if and only if every cell is right for them |
| DigestExact.GoodLayoutIsCells | src/digest.c:40-129 | for sections in the file and apart, a layout is good if and only if every position fed is the one meant |
| DigestExact.GoodLayoutIsExact | src/digest.c:40-129 | for such sections, given apart from the file, and any fill: every file of the size is blanked if and only if the layout is good and the fill is zero where nothing is meant |
| DigestExact.BadLayoutShows | src/digest.c:40-129 | a layout that is not good has, for every fill, file contents whose fed bytes are not the blanked file |
| DigestExact.DrainedInWrongOrder | src/digest.c:49 | the last byte of a chunk the section fills is read, as only a remainder is skipped |
| DigestExact.FirstByteIsRead | src/digest.c:60 | a file byte is fed where a section is missed on a chunk boundary, or where one starts behind the tail of another |
| DigestExact.TwoStart | src/digest.c:60-117 | two sections that start in one chunk make a position fed that is not the one meant |
| DigestMasked.GoodLayoutReadsNoMasked | src/digest.c:40-129 | if no three sections meet in one chunk, a layout is good if and only if no byte of the sections is hashed |
| DigestMasked.CrowdReadsNoMasked | src/digest.c:60-117 | three that meet in one chunk can make a bad layout in which none is |
| DigestElf.ReadMaskedByteShows | src/digest.c:22-129 | a masked byte that is read has, for every fill, an ELF file with the same tables and sections that is not blanked |
| DigestElf.ElfIsExact | src/digest.c:22-129 | for every readable file and every fill, with the section table looked up in the file itself: all files with its header, table and names are blanked if and only if every cell is right for these bytes |
| DigestElf.ElfLayoutIsExact | src/digest.c:22-129 | if the three sections are clear of these bytes and do not all meet in one chunk, that is: if and only if the layout is good and the fill is zero where nothing is meant |
| DigestElf.ElfLayoutIsExactBehind | src/digest.c:22-129 | the same, crowded or not, if the sections lie behind header, table and names |
| PackagingWitness.BadLayoutHasElf | src/digest.c:22-129 | every bad layout behind the table is that of an ELF file, in either class, that is not blanked, whatever the fill |
| PackagingWitness.ThreeWaysToFail | src/digest.c:49-117 | such a file for a section on a chunk boundary, for two in one chunk, and for one drained in the wrong order |
| DigestStale.FedTellsReadBytesWhenKept | src/digest.c:41 | when the buffer keeps the chunk before and starts alike, two files feed the same bytes if and only if they agree wherever the loop reads |
| DigestStale.SkippedBytesDoNotCountWhenKept | src/digest.c:41 | then isolated sections' skipped bytes do not count |
| Digest.SkipSection | src/digest.c:60-77 | one section block: what it reads, where it leaves cursor, bytes left and carry |
| Digest.FillChunk | src/digest.c:43-123 | carry block, three section blocks and final read make up one turn of the specification |
| Digest.FeedChunk | src/digest.c:41-128 | the whole buffer of a turn is fed to MD5, the last one too; each update finds and leaves lo a multiple of 64, so the context's own buffer is empty |
| Digest.RunEnds | src/digest.c:35-40 | the loop makes exactly ceil(size / 4096) turns |
| Digest.DigestWithout | src/digest.c:22-136 | the digest is the MD5 of what the specification says is fed, for any fill |
| Digest.Type2DigestMd5 | src/digest.c:8-139 | the digest of a file is that of the sections looked up by name; it fails only on an unknown ELF class |
| Elf.Scan32 | src/elf.c:134-147 | the 32-bit loop finds the last section of the name and keeps the outputs if there is none |
| Elf.Scan64 | src/elf.c:148-161 | the 64-bit loop does the same with its own layout |
| Elf.GetSectionOffsetAndLength | src/elf.c:122-170 | with class byte 1 the last section of the name in the 32-bit layout, with 2 in the 64-bit layout, or the outputs as they were; any other class fails and leaves them |
| ElfLayout.FieldsOf32 | src/light_elf.h:45-90 | the sizes and field positions of the 32-bit lookup are those of the structs, summed field by field |
| ElfLayout.FieldsOf64 | src/light_elf.h:62-103 | and those of the 64-bit lookup |
| ElfLayout.Ehdr32HasNoGaps | src/light_elf.h:45-60 | every field of the 32-bit header lies on a multiple of its size, so that the compiler leaves no gaps |
| ElfLayout.Shdr32HasNoGaps | src/light_elf.h:79-90 | and every field of a 32-bit entry |
| ElfLayout.Ehdr64HasNoGaps | src/light_elf.h:62-77 | the same of the 64-bit header |
| ElfLayout.Shdr64HasNoGaps | src/light_elf.h:92-103 | and every field of a 64-bit entry |
| ElfFrame.LookupIsKept | src/elf.c:131-161 | changes outside header, table and names leave every lookup as it was, whatever the new size |
| ElfFrame.NothingNewIsCritical | src/elf.c:131-161 | a file that keeps those bytes has no others that lookups read |
| ElfEncode.LookupOfEncoded | src/light_elf.h:45-103 | encoding a table and looking a name up gives its last entry of that name, for both layouts |
| ElfEncode.EncodedClass | src/light_elf.h:112-116 | byte 4 of an encoded file is 1 for 32 bits and 2 for 64 |
| ElfEncode.ClassesAgree | src/elf.c:134-161 | both classes answer alike for the same table |
| Hexlify.HexlifyBytes | src/hexlify.c:5-18 | every strcat appends where the digits so far end; the result is a NUL behind 2n characters, of which 2i and 2i + 1 are the lower-case hexadecimal digits of byte i |
| Hexlify.HexIsHexText | src/hexlify.c:11-15 | the digits, character by character, from "0123456789abcdef" |
| Hexlify.HexRoundTrip | src/hexlify.c:11-15 | the string decodes back to the bytes |
| Hexlify.HexIsInjective | src/hexlify.c:11-15 | different bytes have different strings |
| Sign.ReadObject | src/appimagetool_sign.c:230-252 | the buffer after all reads, each from its front, and the total of their sizes |
| Sign.EmbedDataInElfSection | src/appimagetool_sign.c:178-296 | when it succeeds, that exactly the start of the section is overwritten; when it fails the file is as it was |
| Sign.OneReadEmbedsAll | src/appimagetool_sign.c:236-252 | an object read at once fills a buffer of its size with exactly its contents |
| Sign.OneReadIsExact | src/appimagetool_sign.c:236-252 | the buffer gets the object's contents, whatever they are, if and only if there is one read at most |
| Sign.CalculateSha256HexDigest | src/appimagetool_sign.c:87-158 | the chunked reads hash the whole file, and the result is its hash in hexadecimal, character by character |
| Sign.SignAppImage | src/appimagetool_sign.c:298-450 | the signature is made from the file as it came and embedded first, the key second; a failure keeps what was done |
| Packaging.WritesKeepLookups | src/appimagetool.c:1046-1120 | any sequence of writes clear of the tables leaves every later lookup where it was in the original file |
| PackagingRun.EmbedRuntime | src/appimagetool.c:931-939 | the runtime overwrites the front of the image |
| PackagingRun.EmbedUpdateInformation | src/appimagetool.c:1029-1071 | each refusal, that of a text with none of the three prefixes spelled out, or the text at the start of the runtime's .upd_info |
| PackagingRun.EmbedDigest | src/appimagetool.c:1073-1121 | each refusal, or the sixteen bytes at the start of the runtime's .digest_md5 |
| PackagingRun.SignDestination | src/appimagetool.c:1123-1127 | signing works on the sections of the runtime though the file has changed since |
| PackagingRun.Package | src/appimagetool.c:927-1127 | how the run ends and what it leaves on disk are told by the runtime's sections alone |
| PackagingProof.WhatWritesLeave | src/appimagetool.c:1059-1118 | writes apart from each other: every range holds its data, every other byte and the size stay |
| PackagingProof.ContentIsConserved | src/appimagetool.c:927-1127 | the finished file is runtime and payload but for the written ranges, those hold exactly what was written and never leave their sections, and a signature or key read at once is there byte for byte |
| PackagingProof.AssembledSize | src/appimagetool.c:927-939 | after the first step the file is the runtime followed by the payload |
| PackagingProof.SignedIsShipped | src/appimagetool_sign.c:316-446 | the signature is made from the hash of a file with which the finished one agrees outside signature and key sections |
| PackagingProof.HashedBytesAreKept | src/appimagetool.c:1073-1127 | for every safe run and fill, what is hashed of the finished file is what was hashed for the recorded digest if and only if no byte the loop reads has changed and the fill is that of the run where it reads nothing |
| PackagingProof.HashedBytesAreKeptWhenKept | src/appimagetool.c:1073-1127 | with a buffer that keeps the chunk before and starts alike, if and only if no byte the loop reads has changed |
| PackagingProof.RecomputedExactly | src/appimagetool.c:1098-1127 | if nothing is written where the loop reads, they are kept if and only if the memory agrees where it reads nothing |
| PackagingProof.RecordedDigestHolds | src/appimagetool.c:1073-1127 | for every safe run that writes nothing, from the digest on, where the loop reads, and every fill that is that of the run where nothing is read: computing the digest of the finished file again gives the sixteen bytes recorded in it |
| PackagingProof.RecordedDigestHoldsWhenKept | src/appimagetool.c:1098-1127 | the same when the chunk buffer keeps the chunk before |
| PackagingProof.SigningIsExact | src/appimagetool.c:1123-1127 | every signature and key of the given sizes leave what is hashed as it was if and only if no byte of their places is read |
| PackagingProof.WritesAreUnreadExactly | src/appimagetool.c:1098-1127 | every digest, signature and key do if and only if the condition of RecordedDigestHolds is met |
| PackagingLayout.ApartRunIsSafe | src/appimagetool.c:927-1127 | a successful run on a runtime whose sections lie in it, apart and clear of its tables, is a safe run |
| PackagingLayout.GapsAreExact | src/appimagetool.c:1098-1127 | if no two masked sections share a chunk, the condition is met if and only if what is written fits the gaps |
| PackagingLayout.OtherMemoryShows | src/digest.c:41 | in a run whose masked sections share no chunk, other memory changes what is hashed |
| PackagingLayout.RecordedDigestIsOfBlanked | src/appimagetool.c:1098-1127 | in a good layout with zero fill the recorded bytes are the MD5 of the finished file with its sections blanked |
| PackagingWitness.RuntimeHasSections | src/light_elf.h:45-103 | for any four sections that fit behind the table there is a safe runtime that has them, in either class |
| PackagingWitness.EncodedRuntimeIsGood | src/light_elf.h:45-103 | an encoded table whose sections lie behind it, isolated, makes a runtime the results apply to, in either class |
| PackagingWitness.EncodedRuntimeIsSafe | src/digest.c:11-20 | for a table behind which its sections lie, the lookups give the entries listed as ".upd_info", ".digest_md5", ".sha256_sig" and ".sig_key" |
| PackagingWitness.WhatPackageLeaves | src/appimagetool.c:927-1127 | on such a runtime and inputs that fit, the run succeeds and leaves the text, digest, signature and key in the sections listed under these names |
| PackagingWitness.SampleRunsAreGood | src/appimagetool.c:927-1127 | on such a runtime all runs with inputs that fit meet what is asked; its key section of 8192 bytes takes a key of 4096 and no more |
| PackagingWitness.OverlongKeyShows | src/appimagetool.c:1123-1127 | for a longer key there, another of that size changes what is hashed |
| PackagingWitness.SharedChunkShows | src/appimagetool.c:1123-1127 | with two sections in one chunk, so does another signature of the same size |
| ReplaceStr.EditedString | src/appimagetool.c:273-278 | moving the tail with its NUL and copying the replacement edits the C string at the occurrence |
| ReplaceStr.Replacestr | src/appimagetool.c:266-285 | whenever the rewriting ends, the line is what it ends in, within a buffer that holds the line and the result |
| ReplaceStr.SafeIsEnough | src/appimagetool.c:280-284 | for a safe pair the rewriting ends, at one left-to-right replace-all, with no occurrence left |
| ReplaceStr.SafeIsExact | src/appimagetool.c:266-285 | that is so for every line if and only if the pair is safe |
| ReplaceStr.InsideShows | src/appimagetool.c:280-284 | a line that keeps the search text after one pass when it can begin inside the replacement |
| ReplaceStr.BeforeShows | src/appimagetool.c:280-284 | a line that keeps it when it can begin before the replacement and reach into it |
| ReplaceStr.ResultIsReplaceAll | src/appimagetool.c:266-285 | for a safe pair the line replacestr leaves is the replace-all of the line it was given |
| ReplaceStr.WithoutOverlapIsSafe | src/appimagetool.c:266-285 | texts that do not contain each other and share no end and beginning are safe |
| ReplaceStr.CallersAreSafe | src/appimagetool.c:352-353 | the pairs of all callers are such texts |
| Arch.ExtractArch | src/appimagetool.c:322-346 | exactly the flag of the machine's architecture is added |
| Arch.FindArch | src/appimagetool.c:404-424 | for every tree and listing order the scan sets the flags of i686, x86_64, armhf and aarch64 exactly if it looks at a file below with 3, 62, 40 or 183, and then 0, at byte 18 |
| Arch.WhatIsFound | src/appimagetool.c:404-424 | no link is followed, a directory that cannot be opened has nothing, and of the files those that are executable or match count |
| Arch.FileIsFound | src/appimagetool.c:386-402 | a file in the directory that is executable or matches is looked at, and its bytes 18 and 19 decide |
| Arch.MachineBytesTell | src/appimagetool.c:390 | files that agree in these bytes give the same architectures |
| Arch.CountArchs | src/appimagetool.c:287-294 | the number of indices flagged |
| Arch.OneFlag | src/appimagetool.c:757-762 | the count is one exactly when a single architecture is flagged |

## Left out

- SkipSection: offsets, lengths and file sizes are unbounded numbers; the conversions between `unsigned long` and `ssize_t` for a section length of 2^63 or more are not modelled.
- GetSectionOffsetAndLength: the host is little-endian, as all four architectures the tool knows are, and `unsigned long` holds every offset; a file that is not `Readable` is outside the model.
- EmbedDataInElfSection: error returns of `gpgme_data_read` are not modelled, only reads that return bytes.
- Replacestr: string lengths of 2^31 and more, which the source keeps in `int`, are not modelled.
- Failures of opening, mapping, seeking, writing and allocating, and messages on the terminal.
- mksquashfs, zsyncmake, desktop-file-validate and the appstream tools; fetching the runtime.
- gpgme and gcrypt themselves, key selection, passphrases and resource release.
- Options, CI environment guessing, version, icon and desktop-file handling, `extract_arch_from_text`.
- `read_elf32`, `read_elf64` and the byte-swapping helpers, which nothing calls.
- `appimage_print_hex`, `appimage_print_binary`, `readFile`, `read_file_offset_length`.
- What a partial `fread` of the e_machine field leaves: the model takes the bytes there are.
- Anything about MD5 as a hash: that different bytes have different digests is not claimed.
