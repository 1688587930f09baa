# A model of ejudge-fuse

ejudge-fuse shows the contests of an ejudge server as a file system. Under its plumbing lie a few algorithms with hard
invariants; this project models them and proves what the rest of the program relies on.

- **Published snapshots** (`Snapshot`, `SnapshotSafety`, `ContestLog`, `ContestLogSafety`). Every cached object is
  published through a pointer, a guard counter, a reader counter and an update flag. One state machine covers them all:
  any number of threads, one atomic operation per step, sequential consistency. The contest log is built on top of it,
  with a mutex and an order of appends.
- **Inode hash** (`ProbeOrbit`, `InodeTable`, `InodeRemoval`, `InodeModel`, `InodeHash`). Open addressing with stride
  5 and table sizes that 5 does not divide, as a class over an array, proved against a finite map from digest to
  inode.
- **JSON** (`JsonTree`, `JsonNumber`, `JsonString`, `JsonText` are the specification; `JsonNumberLaws`, `JsonStringLaws`,
  `JsonTextLaws`, `JsonGrammar`, `JsonRoundTrip`, `JsonLiteral`, `JsonPrintLaws`, `JsonPrintedText`, `JsonMinifyMeaning`,
  `JsonMinifyDefined`, `JsonMinifyPieces` and `JsonMinifyPrinted` the laws; `JsonItems` the heap of items; `JsonParser`,
  `PowerOfTwo`, `JsonEscaper`, `PrintBuffer`, `JsonPrinter`, `JsonTwoPass`, `JsonMinify` and `JsonCycle` the code with
  its loops, items and buffers). A text is the characters in front of its terminator. Two printers, one with a growing
  buffer and one that measures, allocates and copies, are proved to write the same text.
- **Base64** (`Base64`, `Base64Laws`), on 32-bit vectors as in the source.
- **Writable files** (`FileContents`, `FileNode`, `FileNodes`, `Directory`, `SubmitQueue`, `NodeLifetime`,
  `NodeSafety`, `SubmitPipeline`, `SubmitSafety`, `SubmitOrder`, `SubmitProgress`, `SubmitRaces`, `TotalSize`, `TotalSafety`,
  `TotalProgress`, `TotalRaces`). Classes for one file, the table of files, a directory and the submit queue, with
  operations atomic; and three state machines for what happens when they are not: `NodeLifetime` interleaves single atomic operations and lock operations and is about
  freeing, `SubmitPipeline` interleaves locked sections and is about directories, links, open handles and submissions,
  `TotalSize` is about the total size and its quota. `NodeSafety`, `SubmitSafety` and `TotalSafety` say what holds over
  whole runs, `SubmitOrder` what becomes of released files, `SubmitProgress` and `TotalProgress` that nobody stands still,
  `SubmitRaces` and `TotalRaces` give runs in which something goes wrong.
- **Get-or-create** (`SortedIndex`, `DirectIndex`, `GetOrCreate`). The two array layouts as classes, and the
  interleaving of the read-locked search with the write-locked second search as a state machine.

Where a property that one would expect is false of the code, the code is kept and the exact condition is proved:

- An open with `O_TRUNC` sets the size to 0 and nothing else. Afterwards the total size is right if and only if the file was
  empty (`FileNodes.FileNodes.OpenTruncating`), the bytes behind the size are zero if and only if the file held only zeros
  (`FileNode.FileNode.OpenTruncating`), and `FileNode.StaleBytes` shows old bytes coming back.
- A removal reads the link and open counters before it takes the lock. A file with an open handle can be found if and only if
  no removal overtook an open of it (`SubmitSafety.OpenFilesAreFindable`); `SubmitRaces.OvertakenOpenIsLost` is such a run.
- A file whose remover finds it open is never removed from the table. A file without a name and without a remover is in the
  table if and only if its remover gave up (`SubmitSafety.InTableExactly`), which it does if and only if the file has an open
  handle at that moment or a release of it has failed (`SubmitSafety.GivesUpExactly`); it then stays for ever
  (`SubmitSafety.LeftBehindForGood`), and `SubmitRaces.UnlinkedWhileOpenStays` is such a run.
- The quota is checked some time before the total is raised. It is safe if and only if the total with all growths that were
  granted is within it (`TotalSafety.QuotaSafeExactly`), and so where no two growths overlap
  (`TotalSafety.QuotaWithoutOverlap`); `TotalRaces.QuotaOverrun` is a run in which they do.
- Where no file is removed while a thread works on it, the total at rest is right if and only if no file that was not empty was
  ever opened with `O_TRUNC` (`TotalSafety.TotalWithoutOverlap`, `TotalRaces.CutOffCounted`). In general it is right if and only
  if what such opens cut off and the changes that came too late for a removal cancel out (`TotalSafety.TotalAtRest`);
  `TotalRaces.RemovedFileCounted` is a run in which a removal overlaps and they do not.
- The early return of a removal keeps the caller's count: a reference counter is the number of holders if and only if no
  removal of the node returned early (`NodeSafety.CountersExactInRun`, `NodeSafety.EarlyReturnCounted`). A release that fails
  leaves the open counter too high: it is the number of open handles if and only if no release of the file failed
  (`SubmitSafety.OpensCounted`, `SubmitRaces.FailedReleaseCounted`).
- A creation at the node quota returns with the write lock held (`FileNodes.FileNodes.CreateNode`,
  `NodeSafety.QuotaKeepsTheLock`).
- An updater that has taken the update flag and finds no session leaves the flag set for ever; nothing else does
  (`SnapshotSafety.StuckExactly`, `SnapshotSafety.StuckForever`, `SnapshotSafety.StuckReached`).
- The parser tolerates a text that is one string without its closing quote; minifying runs past the terminator on exactly
  that text among those that parse (`JsonMinifyDefined.MinifyParsed`, `JsonMinifyDefined.UnclosedTextOverruns`).
- The parser reads more than section 2 of RFC 8259 allows: a zero in front of other digits, a sign without digits, no digits in
  front of a point, an empty exponent, any character behind a backslash, control characters inside literals and a literal that
  the end of the text closes (`JsonGrammar.ValueExactly`, `JsonNumberLaws.NumberOf`, `JsonStringLaws.ParsedLiterals`); and it reads past the
  terminator on some texts that end in a backslash, and on no others (`JsonGrammar.WildText`).
- Minifying takes `/*/` for a whole comment (`JsonMinifyPieces.MinifiedRow`).
- Doubling the capacity of a file overflows an int exactly for offsets above 2^30 (`FileNode.DoublingFits`). With a positive
  size quota of at most 2^30 all offsets stay below that with operations atomic (`FileNodes.FileNodes.Truncate`), and in every
  run in which no file is removed while a thread works on it (`TotalSafety.SizesWithinQuota`, `TotalSafety.DoublingStays`).
  Without that a total can fall below the size of a file, and then, and only then, the check lets that file pass the quota
  (`TotalSafety.GrantsFitExactly`); `TotalRaces.OversizedFile` is such a run.

## Model

| member | source | states |
|---|---|---|
| SnapshotSafety.SafeInEveryRun | src/contests_state.c:300-348 | In every interleaving of any number of readers and setters, with or without the update flag, no thread holds, has loaded and is about to count, drains or frees a snapshot that is already freed; a snapshot about to be freed is neither current nor held by anybody; every allocated snapshot is current or owned by exactly one setter; guard and reader counter are the numbers of threads they stand for |
| SnapshotSafety.ReadersSeeOneSnapshot | src/contests_state.c:300-322 | As long as a reader has hold of a snapshot, what it reads there stays the same and stays allocated |
| SnapshotSafety.ReaderSeesCurrent | src/contests_state.c:300-309 | Every reader gets the snapshot that was current at a moment inside its own read lock, with the content it had then, and keeps it; it gets none only where the slot was empty at that moment |
| SnapshotSafety.SetterPublishes | src/contests_state.c:330-333 | What a setter fetched is untouched until it is published, and then is exactly the current snapshot; the setter takes over the one before |
| SnapshotSafety.WaitsExactly | src/contests_state.c:333-346 | No thread is ever stopped, except that a setter waits for the guard exactly as long as some reader is under it, and for the old snapshot exactly as long as some reader is counted there |
| SnapshotSafety.UpdatersExcludeEachOther | src/contests_state.c:324-339 | Setters that take the update flag exclude one another from taking it until they clear it, although it is cleared before the old snapshot is drained |
| SnapshotSafety.StuckExactly | src/ejfuse.c:399-415 | Over whole runs, the flag is set with nobody left to clear it if and only if some thread that had taken it found no session and returned early; with a session whenever a setter looks that never happens |
| SnapshotSafety.StuckReached | src/ejfuse.c:405-409 | A run that gets there |
| SnapshotSafety.StuckForever | src/ejfuse.c:399-415 | Once that has happened the slot keeps its snapshot for the rest of the run |
| SnapshotSafety.HeldContentInRun | src/ejfuse.c:118-163 | In one step of the shared protocol, also where setters take no flag (top session), what a reader holds is neither freed nor changed |
| ContestLogSafety.LogAlwaysComplete | src/contests_state.c:384-420 | At every moment the log's size is its text's length, its text is a prefix of all appended texts in mutex order, and all of them once no append is between lock and publication; nothing is lost and no thread touches freed memory |
| ContestLogSafety.LogAppendOnly | src/contests_state.c:404-420 | The published log only grows over a run |
| ContestLogSafety.ReaderSees | src/contests_state.c:350-373 | What a reader sees, however long it keeps it, is the log that was current when it loaded the pointer |
| ContestLogSafety.ReaderHasLog | src/contests_state.c:350-358 | Every reader gets a log, namely the one that was current at a moment inside its own read lock |
| ContestLogSafety.LogWaitsExactly | src/contests_state.c:384-420 | Appends wait for the mutex, for readers under the guard and for readers of the old log, each exactly as long as there are any; readers never wait |
| ContestLogSafety.EarlierSnapshotIsPrefix | src/contests_state.c:350-420 | Of two snapshots taken by any readers the one taken earlier is a prefix of the later one |
| ProbeOrbit.ProbeInjective | src/inode_hash.c:29-57 | For every size that 5 does not divide the first `size` steps of a probe path are all different |
| ProbeOrbit.ProbeSurjective | src/inode_hash.c:89-100 | and reach every slot |
| InodeTable.HasEmptySlot | src/inode_hash.c:130-163 | A table that stands for fewer digests than it has slots has an empty slot (pigeonhole) |
| InodeTable.PathMeetsEmpty | src/inode_hash.c:89-100 | so every probe loop ends |
| InodeTable.StoppedMeansAbsent | src/inode_hash.c:80-103 | A search that stops at an empty slot is right: the digest is in no other slot |
| InodeTable.InsertRepresents | src/inode_hash.c:159-175 | Storing a digest in the first empty slot of its path adds exactly that digest to the map |
| InodeTable.HomeIsNumber | src/inode_hash.c:83-87 | A probe path starts at the first eight bytes of the digest, the least significant first, reduced to the size |
| InodeRemoval.CrossingPathEndsInRun | src/inode_hash.c:197-223 | A path that crosses the run of live slots behind the cleared slot ends inside that run |
| InodeRemoval.ClearedRepresents | src/inode_hash.c:208-223 | so clearing the run loses exactly the digests stored in it and leaves every other digest reachable |
| InodeRemoval.RestoredStep | src/inode_hash.c:224-240 | Putting back one saved entry restores exactly its digest with its old inode |
| InodeRemoval.ChainUnique | src/inode_hash.c:197-207 | The chain that is counted is the only one behind the digest |
| InodeRemoval.RestoredAll | src/inode_hash.c:224-240 | After the last one the map is the old one without the deleted digest |
| InodeHash.PrimesGood | src/inode_hash.c:41-57 | 5 divides no size in the table, and each is larger than the one before |
| InodeHash.InodeHash.constructor | src/inode_hash.c:59-68 | A new hash stands for the empty map and hands out numbers from 1 |
| InodeHash.InodeHash.Find | src/inode_hash.c:80-103 | The inode of the digest in the map, or the null pointer |
| InodeHash.InodeHash.Grow | src/inode_hash.c:130-163 | Re-insertion into the next size keeps the map and the counter; it fails exactly at the end of the table of sizes |
| InodeHash.InodeHash.Insert | src/inode_hash.c:105-177 | A known digest keeps its inode, a new one gets the next number, all others keep theirs, across growth; the only abort is the exhausted table of sizes |
| InodeHash.InodeHash.Delete | src/inode_hash.c:179-245 | Exactly this digest leaves the map, and the table stays probe-consistent; it aborts if and only if the chain behind the digest, of which there is exactly one, has more than a hundred entries, and never because of a duplicate |
| InodeHash.Place | src/inode_hash.c:137-152 | Re-insertion of an absent digest never meets that digest: the duplicate abort is unreachable |
| InodeHash.Rehash | src/inode_hash.c:131-156 | The larger array stands for the same map |
| InodeModel.AlwaysFresh | src/inode_hash.c:159-175 | Over any sequence of calls distinct live digests have distinct, nonzero inodes below the counter |
| InodeModel.KeepsInode | src/inode_hash.c:105-245 | A digest keeps its inode through whatever happens to others |
| InodeModel.NeverReused | src/inode_hash.c:159-175 | No inode number is ever used for two digests, nor again for one that was deleted in between |
| InodeModel.KnownExactly | src/inode_hash.c:80-245 | A digest is known exactly from its insertion until it is deleted |
| InodeModel.NumberedInOrder | src/inode_hash.c:159-175 | Numbers are handed out from 1 on without a gap: a new digest gets the number of new digests so far |
| Base64.Base64Encode | src/base64.c:55-102 | The buffer holds the encoded text, computed by adding the masked high part, and nothing behind it changes |
| Base64.LiftedGroups | src/base64.c:64-78 | Adding the masked high part three times leaves the four 6-bit groups of section 4 of RFC 4648 in four bytes |
| Base64.EncodeLength | src/base64.c:55-102 | The encoded length is 4*ceil(n/3) |
| Base64.Base64Decode | src/base64.c:157-206 | The buffer holds the decoded bytes and the flag is the error flag of the specification, although the accumulator is never reset between groups; a character behind `size` must be there exactly where the code looks at it |
| Base64Laws.RoundTrip | src/base64.c:55-206 | Decoding an encoded byte string of any length gives it back with the error flag clear |
| Base64Laws.SkippedCharactersDoNotMatter | src/base64.c:166-167 | Bytes that are neither letters of the alphabet nor padding change neither bytes nor flag, wherever they stand before the padding |
| Base64Laws.EncodeTable | src/base64.c:41-42 | The encoding table is the alphabet of section 4 of RFC 4648, letter by letter |
| Base64Laws.DecodeTable | src/base64.c:123-141 | The decoding table finds each letter's place in that alphabet, marks the padding, and marks every other byte as one to skip |
| Base64Laws.GroupsBack | src/base64.c:55-206 | Complete groups of letters, decoded and encoded again, are the same letters |
| Base64Laws.DecodeExactly | src/base64.c:157-206 | For every text: the bytes of the complete groups in front of the first padding character and of what is left over there, and exactly when the error flag is set |
| Base64Laws.PaddingBits | src/base64.c:80-100 | The last letter in front of the padding carries no bits of its own |
| JsonNumber.NumberRoundTrip | src/cJSON.c:97-116 | A printed int reads back as itself and to its end |
| JsonNumberLaws.NumberSpelled | src/cJSON.c:97-116 | A number written as sign, whole part, fraction and exponent is read to its end, as all its digits scaled by the exponent less the number of fraction digits |
| JsonNumberLaws.NumberOf | src/cJSON.c:97-116 | Whatever is read as a number is written like that, with the liberties of the code: a leading zero, no digits at all, an empty exponent |
| JsonNumberLaws.IntText | src/cJSON.c:147-163 | A printed int is a minus sign where it is negative, and its digits without a leading zero |
| JsonString.StringRoundTrip | src/cJSON.c:194-312 | Decoding the encoded form of a NUL-free string gives it back and stops behind the closing quote |
| JsonString.EscapeAllDecodes | src/cJSON.c:194-253 | The first pass over an escaped string ends exactly at its closing quote, and the second gives the string back |
| JsonStringLaws.HexTable | src/cJSON.c:179-190 | Hexadecimal digits are the characters of two literal tables, one for each case, with their places as values, and nothing else is one |
| JsonStringLaws.BasicUnit | src/cJSON.c:220-244 | Every code point of the basic plane but a surrogate, and but zero, given by its four digits in either case, decodes to its UTF-8 bytes |
| JsonStringLaws.PairUnit | src/cJSON.c:226-244 | Every code point beyond the basic plane, given by the digits of its surrogate pair, decodes to its UTF-8 bytes |
| JsonStringLaws.UnitPart | src/cJSON.c:207-248 | Nothing else decodes: a unit is a plain byte, one of the short escapes, or such an escape or pair |
| JsonStringLaws.LiteralParses | src/cJSON.c:194-253 | A literal parses to what its parts spell, one after the other, and to the position behind its closing quote |
| JsonStringLaws.ParsedLiterals | src/cJSON.c:194-253 | Nothing else parses, except that the terminator is taken for a closing quote |
| JsonStringLaws.EscapeTable | src/cJSON.c:289-308 | Seven characters are written as named escapes, other control characters with two lower-case digits, everything else as it is |
| JsonStringLaws.Utf8Bytes | src/cJSON.c:235-243 | First byte, number of bytes and following bytes of a code point are those of section 3 of RFC 3629, and stand for it |
| JsonRoundTrip.ParsePrinted | src/cJSON.c:361-664 | For every tree of null, booleans, int-range integers, NUL-free strings, arrays and objects, at any depth, formatted or not, standing anywhere in a text, parsing the printed text gives the same tree and consumes exactly that text |
| JsonRoundTrip.TextRoundTrip | src/cJSON.c:328-348 | The same for whole texts, with and without the check for the terminator |
| JsonRoundTrip.ItemsBack | src/cJSON.c:410-435 | The printed entries of an array parse to the entries |
| JsonRoundTrip.MembersBack | src/cJSON.c:518-551 | The printed members of an object parse to the members, in order |
| JsonGrammar.ValueExactly | src/cJSON.c:361-551 | The parser reads a value exactly where the grammar of section 2 of RFC 8259, with the liberties of the code, has one written, as exactly that tree and to exactly its end |
| JsonGrammar.TextExactly | src/cJSON.c:328-342 | A text is read exactly where it is white space and a value and, where the end is required, only white space after it |
| JsonGrammar.WildText | src/cJSON.c:199 | The parser runs past the terminator only on texts that end in a backslash |
| JsonTextLaws.SurroundedText | src/cJSON.c:325-342 | A printed tree with white space around it is read whatever follows, and with the end required exactly where nothing does |
| JsonTextLaws.SkipSpaceExactly | src/cJSON.c:325 | White space is every character from 1 to 32, and all of it is skipped |
| JsonParser.MeasureLiteral | src/cJSON.c:199 | The first pass finds the end of the literal and the size of the buffer |
| JsonParser.ReadString | src/cJSON.c:194-253 | Every write of the second pass stays inside the measured buffer; a successful decode leaves the string and a NUL there and stops exactly at the closing quote |
| JsonParser.WriteUtf8 | src/cJSON.c:235-243 | The bytes written from last to first are the UTF-8 sequence of the code point |
| JsonParser.DecodeUnicode | src/cJSON.c:220-244 | A \u escape or surrogate pair becomes one UTF-8 sequence, or is refused, as specified |
| JsonParser.ReadNumber | src/cJSON.c:97-116 | The loops compute the exact decimal that the digits spell |
| JsonParser.FillValue | src/cJSON.c:361-373 | The item is filled in place: it and the new items below it stand for the tree of the specification, with the same end position, or the same failure is reported |
| JsonParser.FillItems | src/cJSON.c:410-435 | The loop links one new child behind the other, and the chain stands for the list of the specification |
| JsonParser.FillMembers | src/cJSON.c:518-551 | The same for members, whose names move from the value field to the name field |
| JsonParser.LinkSibling | src/cJSON.c:426-428 | Linking a new item behind the last child leaves everything below the children as it was |
| JsonParser.ParseItem | src/cJSON.c:328-342 | The entry point, with and without the check for the terminator: new items that stand for the tree, or the failure of the specification |
| JsonItems.SegmentMore | src/cJSON.c:419-431 | A chain of children with one more at its end is a chain |
| JsonLiteral.Utf8RoundTrip | src/cJSON.c:235-243 | The written bytes stand for the code point (section 3 of RFC 3629) |
| JsonLiteral.SurrogatesCover | src/cJSON.c:226-233 | Every code point beyond the basic plane is the combination of a surrogate pair |
| JsonLiteral.UnitWithinScan | src/cJSON.c:199-249 | One turn of the second pass covers whole turns of the first, at least as many as it writes bytes, and does not pass the closing quote |
| JsonLiteral.DecodedFits | src/cJSON.c:199-250 | A decoded literal is never longer than the first pass counted |
| PowerOfTwo.Pow2GtIsLeast | src/cJSON.c:118 | `pow2gt` is the least power of two not below its argument, for every argument up to 2^32 |
| PowerOfTwo.SmearDoubles | src/cJSON.c:118 | Each shift-and-or doubles the run of ones at the top |
| PrintBuffer.GrownSize | src/cJSON.c:118-133 | For arguments from 1 to 2^30 the new size is enough and still an int |
| PrintBuffer.PrintBuffer.Ensure | src/cJSON.c:122-137 | Room for the request behind the offset, the old contents in front |
| PrintBuffer.PrintBuffer.Update | src/cJSON.c:139-145 | The end of the text that starts at the offset |
| PrintBuffer.PrintBuffer.PutString | src/cJSON.c:256-312 | The quoted, escaped text and its terminator stand behind what was there, inside the granted room |
| JsonEscaper.CountEscaped | src/cJSON.c:283 | The counting pass counts exactly what the writing pass writes |
| JsonEscaper.FillEscaped | src/cJSON.c:289-311 | The writing pass writes the quoted text and its terminator into the counted room |
| JsonEscaper.NeedsEscape | src/cJSON.c:269-281 | Where no character needs an escape the text is its own escaped form, so that the shortcut is right |
| JsonPrinter.PrintArray | src/cJSON.c:438-515 | Buffered printing of an array writes exactly the text of the tree |
| JsonPrinter.PrintObject | src/cJSON.c:554-664 | The same for objects, at any depth |
| JsonPrinter.PrintBuffered | src/cJSON.c:350-359 | Whatever the first size of the buffer, it ends up with exactly the text of the tree and a terminator, every write inside what was granted |
| JsonTwoPass.AllocArray | src/cJSON.c:438-515 | Unbuffered printing of an array writes the same text into a buffer of the added-up size |
| JsonTwoPass.AllocObject | src/cJSON.c:554-664 | The same for objects |
| JsonTwoPass.SpaceSuffices | src/cJSON.c:441-490 | The space added up for an array is enough for its text |
| JsonTwoPass.MembersSpaceSuffices | src/cJSON.c:557-634 | The space added up for an object is enough for its text |
| JsonTwoPass.PrintText | src/cJSON.c:347-348 | `cJSON_Print` and `cJSON_PrintUnformatted` produce the same text as buffered printing |
| JsonCycle.CopyUnbuffered | src/cJSON.c:328-664 | Printing the items of a tree without a buffer and parsing the text gives new items that stand for the same tree |
| JsonCycle.CopyBuffered | src/cJSON.c:328-664 | The same with the growing buffer, whatever its first size |
| JsonPrintLaws.PrintNulFree | src/cJSON.c:139-145 | Printed text holds no terminator, so that measuring it with `strlen` is right |
| JsonPrintLaws.IntFits | src/cJSON.c:158-163 | An int fits the 21 characters set aside for it |
| JsonPrintedText.ArrayText | src/cJSON.c:438-515 | The text of an array to the last character: its entries joined by a comma, and a space where the text is formatted |
| JsonPrintedText.ObjectText | src/cJSON.c:554-664 | The text of an object to the last character: a line for each member, indented by one tab more than the braces, or no white space at all |
| JsonMinify.Minify | src/cJSON.c:752-767 | In place, for every text with closed literals and comments, the buffer ends up with the text without white space and comments; literals are moved byte for byte |
| JsonMinify.MoveLiteral | src/cJSON.c:763 | A literal is moved verbatim from its opening to its closing quote |
| JsonMinifyPieces.MinifiedRow | src/cJSON.c:752-767 | A text that is a row of white space, comments, closed literals and other characters is minified to exactly the literals and other characters, in their order |
| JsonMinifyPieces.RowOf | src/cJSON.c:752-767 | Every text that is minified without running past its end is such a row |
| JsonMinifyPrinted.MinifyPrinted | src/cJSON.c:752-767 | Minifying printed text, formatted or not, gives the unformatted text |
| JsonMinifyMeaning.MinifyPreservesMeaning | src/cJSON.c:752-767 | Every text with closed literals that parses up to its terminator parses to the same tree after being minified, again up to the terminator |
| JsonMinifyDefined.MinifyParsed | src/cJSON.c:752-767 | Among all texts that parse up to their terminator, minifying stays inside the buffer if and only if the text is not a lone string without its closing quote; all others parse to the same tree afterwards |
| JsonMinifyDefined.UnclosedTextOverruns | src/cJSON.c:763 | Such a text: a quote and one letter parse up to the terminator, and minifying runs past it |
| JsonMinifyDefined.KeepsLiteral | src/cJSON.c:763 | A literal that parses is minified without running past the terminator exactly where it is closed |
| JsonMinifyMeaning.NumberTwin | src/cJSON.c:97-116 | A number's lexeme means the same wherever something that is not part of a number cuts it off |
| JsonMinifyMeaning.SpaceMin | src/cJSON.c:757-762 | Behind white space, as the parser skips it, original and minified text go on with the same character |
| FileContents.ReadAfterWrite | src/ops_cnts_prob_submit_comp_dir.c:423-511 | Reading back what was written gives it; elsewhere the old bytes remain, and a gap reads as zeros |
| FileContents.SliceWhole | src/ops_cnts_prob_submit_comp_dir.c:449-457 | A read yields the lesser of what was asked for and what is left, byte by byte the file from the offset on |
| FileContents.ShrinkThenGrow | src/ejfuse_file.c:464-495 | Shrinking and growing again reads back zeros |
| FileContents.WritesCommute | src/ops_cnts_prob_submit_comp_dir.c:465-511 | Writes that do not overlap can be exchanged |
| FileContents.WritesJoin | src/ops_cnts_prob_submit_comp_dir.c:465-511 | Consecutive writes are one write |
| FileNode.DoublingFits | src/ejfuse_file.c:452-454 | The doubling loop stays in the int range exactly for offsets up to 2^30 |
| FileNode.FileNode.Reserve | src/ejfuse_file.c:444-462 | The capacity reaches the offset, contents and zero tail stay; a bad offset is refused and changes nothing |
| FileNode.FileNode.Truncate | src/ejfuse_file.c:464-495 | The contents become exactly the shortened or zero-padded ones, the total changes by the change in size, and the result says exactly when the request is refused, with nothing changed |
| FileNode.FileNode.Write | src/ops_cnts_prob_submit_comp_dir.c:491-505 | The contents are exactly the overwritten ones, or unchanged where the write is refused, with the exact condition |
| FileNode.FileNode.RefusedExactly | src/ejfuse_file.c:470-487 | A growth is refused if and only if the file with its new size and all the others would exceed the quota |
| FileNode.FileNode.Read | src/ops_cnts_prob_submit_comp_dir.c:449-457 | Exactly the requested slice, clipped to the size, byte by byte |
| FileNode.FileNode.OpenTruncating | src/ops_cnts_prob_submit_comp_dir.c:259-263 | An open with `O_TRUNC` keeps the zero tail if and only if all bytes of the file were zero |
| FileNode.StaleBytes | src/ops_cnts_prob_submit_comp_dir.c:259-263 | A file with the byte 7, opened with `O_TRUNC` and grown to two bytes, reads 7, 0 and not 0, 0 |
| FileNodes.FileNodes.CreateNode | src/ejfuse_file.c:81-96 | A new file with the next number at the end of the table; at the quota none, and exactly then the write lock stays held |
| FileNodes.FileNodes.GetNode | src/ejfuse_file.c:98-121 | The file with the number if and only if there is one, with its counter raised by one and no other changed |
| FileNodes.FileNodes.MaybeRemove | src/ejfuse_file.c:151-192 | Early return with the count kept exactly while the file has a name or is open; otherwise it leaves the table with its size, and is freed exactly where the caller's was the last count |
| FileNodes.FileNodes.Truncate | src/ejfuse_file.c:464-495 | The total stays the sum of all sizes and within the quota; only this file changes |
| FileNodes.FileNodes.WriteFile | src/ops_cnts_prob_submit_comp_dir.c:465-511 | The write of an open file with all its checks: total and sum stay equal and within the quota, no other file changes, the count is given back |
| FileNodes.FileNodes.ReadFile | src/ops_cnts_prob_submit_comp_dir.c:423-463 | The read of an open file with all its checks, byte by byte what the file holds from the offset on; no count changes |
| FileNodes.FileNodes.OpenTruncating | src/ops_cnts_prob_submit_comp_dir.c:320-324 | After an open with `O_TRUNC` the total is the sum of the sizes if and only if the file was empty |
| FileNodes.SumUpdate | src/ejfuse_file.c:470-494 | Where one size changes the sum changes by as much |
| Directory.Directory.Open | src/ejfuse_file.c:287-353 | The exact result for existing, exclusive, missing and over-quota names; a created entry and its file with one link and no count appear together, nothing else changes, order by name stays strict |
| Directory.Directory.Get | src/ejfuse_file.c:237-264 | The entry of the name if and only if there is one |
| Directory.Directory.GetByFnode | src/ejfuse_file.c:266-285 | An entry with this number if and only if there is one |
| Directory.Directory.Unlink | src/ejfuse_file.c:355-391 | Exactly the entry of the name disappears |
| Directory.Directory.UnlinkByFnode | src/ejfuse_file.c:393-417 | Exactly one entry with this number disappears |
| Directory.CompareTransitive | src/ejfuse_file.c:251-259 | `strcmp` orders names transitively, on which the binary searches rest |
| Directory.CompareExactly | src/ejfuse_file.c:251-259 | A name comes before another if and only if it is a proper beginning of it or has the smaller character where they first differ |
| Directory.OrderedIsMap | src/ejfuse_file.c:237-264 | In a sorted directory a name has one entry |
| TotalSafety.TotalWithoutOverlap | src/ejfuse_file.c:159-191 | In every run in which no file is removed while a thread works on it, or has looked it up and is going to, whenever no thread is between a change of a size or of the table and the change of the total: the total is the sum of the sizes in the table plus what opens with `O_TRUNC` cut off, and so is right if and only if no file that was not empty was ever opened with `O_TRUNC` |
| TotalSafety.TotalAtRest | src/ejfuse_file.c:464-495 | In every interleaving of growing, shrinking, removing and opens with `O_TRUNC`, the total is then that sum if and only if the changes that files saw after a removal had read their size, and what opens with `O_TRUNC` cut off, cancel out |
| TotalRaces.CutOffCounted | src/ops_cnts_prob_submit_comp_dir.c:259-263 | A run without any removal, in which a file of 10 bytes is opened with `O_TRUNC`: nobody is at work, the one file is empty, and the total is 10 |
| TotalSize.AccountedStep | src/ejfuse_file.c:470-494 | Each step, also an open with `O_TRUNC`, keeps the account: the total is the sum of what each file is counted with, and that is its size less what a removal took, with what was cut off, less what the thread that holds its mutex has still to account for |
| TotalSafety.SizesWithinQuota | src/ejfuse_file.c:479-494 | In every run in which no file is removed while a thread works on it or is going to, no file is ever larger than the quota and no such size is granted |
| TotalSafety.DoublingStays | src/ejfuse_file.c:452-454 | so that, with a quota of at most 2^30, doubling the capacity for a granted size stays in the int range |
| TotalSafety.GrantsFitExactly | src/ejfuse_file.c:479-487 | For a file within the quota, the check admits no size beyond the quota if and only if the total is at least the size of the file |
| TotalRaces.OversizedFile | src/ejfuse_file.c:470-487 | A run with a quota of 10 in which a full file is removed while it is going to be shrunk, so that its size leaves the total twice, and the next file grows to 20 |
| TotalSafety.QuotaSafeExactly | src/ejfuse_file.c:479-494 | Without further grants the total can never exceed the quota, on any continuation, if and only if the total together with all growths that were granted and are not done is within it |
| TotalSafety.QuotaWithoutOverlap | src/ejfuse_file.c:479-487 | The quota holds, with what is still promised, where no two growths overlap, whatever shrinks or is removed meanwhile |
| TotalProgress.WaitsExactly | src/ejfuse_file.c:464-495 | A thread waits for a mutex exactly as long as somebody holds it, is refused exactly above the quota, and is stopped nowhere else |
| TotalProgress.NoDeadlock | src/ejfuse_file.c:464-495 | As long as some thread is at work, some thread that is can go on |
| TotalProgress.SizesExactly | src/ejfuse_file.c:470-494 | A size is changed by the holder of the file's mutex alone, to what was granted, to what it was lowered to, or to 0; a file is in the table from its creation until it is taken out |
| TotalRaces.QuotaOverrun | src/ejfuse_file.c:479-494 | A run in which two growths overlap and the total ends at twice the quota |
| TotalRaces.RemovedFileCounted | src/ejfuse_file.c:183 | A run in which a file is removed while a thread is going to grow it, after which no file is left, nobody is at work and the total is not zero |
| NodeSafety.PointersStayValid | src/ejfuse_file.c:98-192 | In every interleaving every pointer a thread may still use points to an allocated node |
| NodeSafety.CountersExactInRun | src/ejfuse_file.c:154-155 | Every reference counter is the number of holders plus the number of removals of the node that returned early; it is right if and only if none did |
| NodeSafety.FreedExactly | src/ejfuse_file.c:184-190 | A removal frees the node if and only if it is the only holder and no removal of the node ever returned early; otherwise the node is put aside and stays allocated |
| NodeSafety.EarlyReturnCounted | src/ejfuse_file.c:154-155 | A run after which nobody holds a node and its counter is 1 |
| NodeSafety.FreedUnheld | src/ejfuse_file.c:184-185 | A node is freed only when no other thread has any pointer to it and it is out of the table |
| NodeSafety.CountedInTable | src/ejfuse_file.c:102-119 | A lookup raises the counter only of a node that is in the table |
| NodeSafety.NeverBlockedOnMemory | src/ejfuse_file.c:81-192 | No thread ever meets a node that is gone: at every place the next action is enabled, except that a thread waits for the lock exactly as long as somebody is in its way, and that a creation at the quota stops for good |
| NodeSafety.NoDeadlock | src/ejfuse_file.c:81-192 | Unless some creation has met the quota, some thread at work can go on as long as there is one |
| NodeSafety.TableExactly | src/ejfuse_file.c:81-192 | A node is in the table from its creation until a removal takes it out, and allocated until its last holder frees it; a created node is new and counted once |
| NodeSafety.FoundExactly | src/ejfuse_file.c:98-192 | A lookup or removal finds the node exactly while it is in the table, and each counts up and down once |
| NodeSafety.FreedOnce | src/ejfuse_file.c:91-95 | A node that is gone stays gone: it is freed once and its number is not used again |
| NodeSafety.QuotaKeepsTheLock | src/ejfuse_file.c:85-95 | Once a creation has met the node quota, for the rest of the run no other thread is inside the lock, none can take it, and the table stays as it is |
| SubmitSafety.SubmittedOnce | src/submit_thread.c:197-231 | However often a file is released and whatever runs beside the submit thread, it is submitted at most once |
| SubmitOrder.QueueInOrder | src/submit_thread.c:99-257 | In every run, what the submit thread took, followed by what is queued, is what releases enqueued, in their order |
| SubmitOrder.EveryReleaseAccounted | src/submit_thread.c:99-231 | What the submit thread finished, what it has in hand and what is queued are, in this order, what releases enqueued; the submissions are what it finished without giving up |
| SubmitOrder.ReleasedFile | src/submit_thread.c:99-231 | Every file whose release got through is queued, in the submit thread's hands, submitted or given up |
| SubmitOrder.GivenUpOnly | src/submit_thread.c:117-207 | A file is given up only before its entry is found, or where it is no longer in the table |
| SubmitProgress.NeverStopped | src/ops_cnts_prob_submit_comp_dir.c:220-533 | No thread is ever stopped: at every place the next section can be entered, whatever the others do |
| SubmitProgress.StepsLead | src/ops_cnts_prob_submit_comp_dir.c:220-533 | Where each section leads and what it changes: an open finds its file exactly while it is in the table, a remover always finds its file with the last link and takes it out unless it is open or a release failed, a submission goes through exactly where entry and file are still there |
| SubmitSafety.EntriesKeepTheirFiles | src/ejfuse_file.c:393-417 | An entry disappears only by an unlink of that very name, or by the clean-up when that very file is among the submissions, even if the name was reused; an entry never changes its file |
| SubmitSafety.NoEntryOutlivesItsSubmission | src/submit_thread.c:217-231 | Once the clean-up is over no entry of a submitted file is left in any directory |
| SubmitSafety.DirectoriesAgreeWithTable | src/ejfuse_file.c:287-353 | No file has two entries in one directory or across directories, and every entry's file is in the table with exactly one link |
| SubmitSafety.RemovedEntryIsFound | src/ops_cnts_prob_submit_comp_dir.c:410-418 | Whoever removed an entry finds the file in the table: the error branch is unreachable |
| SubmitSafety.OpenFilesAreFindable | src/ops_cnts_prob_submit_comp_dir.c:220-273 | A file with an open handle is found by its number, unlinked or not, if and only if no removal took it out while somebody was opening it or had opened it since the removal looked |
| SubmitSafety.OpensCounted | src/ops_cnts_prob_submit_comp_dir.c:513-533 | The open counter is the number of open handles plus the number of failed releases of the file; it is right if and only if none failed |
| SubmitRaces.FailedReleaseCounted | src/ops_cnts_prob_submit_comp_dir.c:516-520 | A run after which no handle is open and the counter is 1 |
| SubmitSafety.AtomicFindable | src/ejfuse_file.c:151-192 | Where operations do not overlap every open file can be found |
| SubmitRaces.OvertakenOpenIsLost | src/ejfuse_file.c:154-157 | A run in which a removal overtakes an open: the file is open and cannot be found |
| SubmitSafety.InTableExactly | src/ejfuse_file.c:151-192 | In every run a file is in the table if and only if it has a link, or its remover has not decided, or its remover saw a positive open counter and gave up; the three exclude one another |
| SubmitSafety.GivesUpExactly | src/ejfuse_file.c:154-155 | No step but the look at the open counter makes a remover give up, and that one does if and only if the file has an open handle at that moment or a release of it has failed before |
| SubmitSafety.LeftBehindExactly | src/ejfuse_file.c:154-155 | The files in the table that have no name and no remover are exactly those whose remover gave up |
| SubmitSafety.LeftBehindForGood | src/ops_cnts_prob_submit_comp_dir.c:513-533 | They stay in the table for ever, because a release never removes |
| SubmitRaces.UnlinkedWhileOpenStays | src/ops_cnts_prob_submit_comp_dir.c:399-533 | A run (open, unlink, release) after which nobody is at work, no name and no handle is left, and the file is still in the table |
| SubmitQueue.SubmitQueue.Enqueue | src/submit_thread.c:99-115 | The item is added behind all others, and the list stays doubly linked |
| SubmitQueue.SubmitQueue.Dequeue | src/submit_thread.c:243-257 | The first item is taken out |
| SubmitQueue.FirstInFirstOut | src/submit_thread.c:99-257 | Over any run, what came out followed by what is left is what was there followed by what went in |
| SortedIndex.Index.Find | src/contests_state.c:224-240 | The object of the id if and only if there is one |
| SortedIndex.Index.FindOrCreate | src/contests_state.c:241-276 | The object that is there, or a new one; every other object stays under its id through growth and shifting, and ids stay strictly sorted |
| SortedIndex.Index.PutAt | src/contests_state.c:261-270 | Shifting by one place and storing inserts exactly the new object |
| DirectIndex.Table.GetProblem | src/contests_state.c:489-522 | The object of the id, created where missing; null exactly for ids outside 1 to 10000; every other slot keeps its object through growth |
| DirectIndex.Table.GetTest | src/contests_state.c:1215-1249 | The same for test numbers, with their own doubling |
| GetOrCreate.CallsAgree | src/contests_state.c:221-277 | In every interleaving, in the order in which calls take effect, two calls get the same object if and only if they ask for the same id, and a call returns what it got |
| GetOrCreate.ReturnsAgree | src/contests_state.c:221-277 | In particular for two calls that both missed under the read lock |
| GetOrCreate.ObjectsStay | src/contests_state.c:262-275 | An id keeps its object for the rest of the run |
| GetOrCreate.EffectOnce | src/contests_state.c:221-277 | A call takes effect exactly once between its start and its return |
| GetOrCreate.StandsStillForReaders | src/contests_state.c:224-240 | The array does not change while anybody searches it under the read lock |
| GetOrCreate.IndexIsLogged | src/contests_state.c:221-277 | An id is in the index if and only if a call for it took effect |
| GetOrCreate.SearchesExactly | src/contests_state.c:221-277 | A search finds its object exactly if it is there, under the read lock without ever taking the write lock; only a call that found none creates, and only its own id |
| GetOrCreate.WaitsExactly | src/contests_state.c:221-277 | A call can go on exactly when it does not wait for the lock: a reader for a writer, a writer for readers and writers |
| GetOrCreate.NoDeadlock | src/contests_state.c:221-277 | As long as some call is under way, some call can go on |
| GetOrCreate.StepsEnd | src/contests_state.c:221-277 | Every step brings its call nearer to the end, with the same id and object, and moves no other; a call ends after at most eight steps of its own |

## Left out

- C11 weak memory: atomic operations are steps of a sequentially consistent machine; the relaxed, acquire and release orders of the source are not modelled.
- Liveness: lock fairness and `nanosleep` are not modelled; that a thread goes on, or who it waits for, is proved state by state, not that it ever gets its turn.
- HTTP requests, URL building and the parsing of server answers: a fetched snapshot is arbitrary, a submission is an event.
- FUSE dispatch, attributes, access checks, path routing, INFO texts and the terminal: thin glue with one-branch facts.
- The error position that a failed parse reports is not modelled.
- Floating point in JSON: numbers are exact decimals; the multiplication by a power of ten, the overflow of the exponent's int and the printing of fractions, exponents and values outside the int range are not modelled.
- JSON items that share children, `cJSON_Delete`, references, the `StringIsConst` flag, failing allocations, null strings and hooks are not modelled; neither is what a failed parse leaves behind.
- Lengths that do not fit an int are left out of unbuffered printing; buffered printing asks for texts of at most 2^30 - 21 characters, the range in which `pow2gt` is right.
- JsonMinify.Minify: asks for closed literals and comments, because on others the source runs past the terminator.
- InodeHash.InodeHash.Insert: asks for a serial number below the largest int; the wrap-around of the counter is not modelled.
- InodeHash.InodeHash.Find: returns the inode number, not a pointer into the array, so it does not say how long such a pointer stays good.
- SHA-256: digests are opaque keys, and the slot a probe starts from is a function of the digest.
- FileNodes.FileNodes.CreateNode: the table is a sequence of files; the capacity of the pointer array and its doubling are not modelled, and neither are the times and permission bits of a file.
- FileNodes.FileNodes.Truncate: asks for a size quota from 1 to 2^30; the program passes one constant in that range, and without it the doubling of the capacity can overflow (`FileNode.DoublingFits`).
- Directory.Directory.Open: entries are values in a sequence, so their allocation and the capacity of the array are not modelled.
- TotalSafety.QuotaWithoutOverlap: takes a quota of at least 0, as the program passes it; the source reads a quota of 0 or less as none. The overflow check of the total is not modelled there.
- SubmitSafety.SubmittedOnce: covers one run of the program with one submit thread; what the server does with a submission is outside.
- `run_states_get`, `problem_submits_get` and `contest_list_find` search sorted arrays as `contests_state_get` does and would only add the same proofs again.
- The snapshot slots of problems, runs, tests and messages follow the same protocol as the contest info and are instances of `Snapshot`; copying of their fields is not modelled.
