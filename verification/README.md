# go-mtree in Dafny

A model of go-mtree's manifest pipeline and proofs about it.  A manifest is a text that lists a
directory tree with key-values for every file; go-mtree writes manifests from a file tree or from a
tar archive, prints and parses them, compares them, edits them, and restores what they record.

* `GoBytes`, `GoStrings`: Go strings as byte strings, the conversion to runes, and what is used of
  package strings.
* `Govis`, `GovisLaws`, `Escapes`: the vis(3) encoder and the recursive-descent decoder of names, and what every
  form of escape stands for.
* `Cksum`: the POSIX checksum register, long division over GF(2), and burst detection.
* `Paths`, `Entries`, `Keywords`: path cleaning, entries and their paths, key-value lists and `/set`
  factoring.
* `Manifest`, `Spec`, `SpecLaws`, `Printing`, `PrintingLaws`: a manifest as a list of statements read against an explicit stack of
  open directories; the parser with its pointer cursor; the printer; and which printed manifests read back.
* `Ordering`, `Walk`, `WalkLaws`: the walk of a file tree, its `/set` lines, and what the walk means.
* `Times`, `Compare`, `CompareLaws`, `CheckLaws`: time encodings, the two-level diff, and what comparing the
  walks of two trees finds.
* `CheckNames`, `CheckAgain`, `CheckOwners`, `CheckDigests`: checking a tree for the keywords its manifest uses.
* `Mutate`, `MutateLaws`: dropping entries from a manifest without breaking its nesting.
* `Deferred`, `Update`, `UpdateLaws`: the heap of deferred directory times and the two-phase restore.
* `TarTree`, `TarLaws`, `TarFlatten`, `TarPrint`, `TarNesting`: the linked tree grown from tar headers, and its
  linearisation with `/set` and `/unset` lines.
* `TarLinks`, `TarArchive`, `TarOrder`: hard links resolved in the linked tree, the manifest of the whole archive, and
  the order in which it lists what a directory holds.

Objects whose fields the program updates are classes (`UnvisParser`, `Creator`, `Scanner`,
`DirectoryHierarchy`, `PathUpdateHeap`, `Disk`, tar `Node` and `Tree`); their methods are proved against
functions of values, and the laws are proved about those functions.  Entries reached through the parent
and set pointers of a parsed or walked manifest are never written after they are appended, so there an
entry is a value that contains its parent and its set.

Parameters stand for what lies outside: the file tree is a datatype, keyword functions are arbitrary
functions from a file to key-values, the order in which a directory is read is arbitrary, the disk may
refuse any request and its clock is arbitrary, and a tar archive is its list of headers.

## What the laws assume

* Walks and archives print `type` truthfully for every file they list, and no keyword is produced
  twice with different values; a directory whose `type` is not printed cannot be entered again by the
  parser (`parse.go:83-95`).
* File names are single non-empty components other than `.` and `..`.
* No tar entry has a `nlink` of its own before links are counted, and hard links are files whose targets
  are not links themselves (`TarLinks.ChainsNeedOrder` shows what happens to chains).
* Key-values print as words without white space, which is that of Unicode, as Go cuts fields.
* For `CheckAgain`: every file has one owner and one group.

That a printed line must not end in a backslash, which the parser takes for a continuation
(`parse.go:66-75`), and that comment lines, which carry directory names undecoded (`walk.go:73-91`), must be
single lines is not assumed but proved to be the exact condition for a manifest to read back
(`PrintingLaws.PrintParseExactly`, `WalkLaws.CommentBreaks`).

Where the code does less than its documentation suggests, the code is followed:

* `ParseSpec` indexes past its fields where a statement starts with a hollow line: one that ends in backslashes
  and folds into white space (`parse.go:66-80`), be it the bytes of one character in two lines.  `Parse` answers
  `Err(IndexOutOfRange)` there and only there (`SpecLaws.FailsExactly`; `SpecLaws.HollowTexts` gives such texts).
* A key-value that ends in a backslash before trailing blanks is parsed, printed without the blanks, and
  then joined with the next line (`MutateLaws.TrailingBlankLost`).
* A tar header for `.` changes nothing: `Descend` has a value receiver, so the header fills in a copy
  (`TarLaws.RootHeaderLost`).
* An instant before the epoch with a fraction is restored wrongly (`Times.TimeRestored` gives the exact
  condition, `Times.BeforeEpochMisread` an instance).
* The comment at `update.go:135-138` has `.` popped last.  It need not be: `.` ties with a relative path of
  one character, and either can be popped first, depending on the order of all the pushes.  Descendants
  come first in every order exactly when the two do not meet (`Deferred.AnyPushOrder`).
* A check for the keywords a manifest uses asks for `uid` and `gid`, which the first `/set` line always has.
  When one of them was not asked for at first, it finds nothing in an unchanged tree exactly when every
  directory has the owner and group of the root, and every file what was not asked for of them
  (`CheckAgain.CheckAgainExactly`, `CheckOwners.OwnersByTree`): a later `/set` line drops what was not asked for.
* `sha512256` is answered under the name `sha512digest` (`keywordfunc.go:55-56`), so a check for the keywords
  used compares two different digests and finds a change where there is none (`CheckDigests.DigestsDiffer`,
  `CheckDigests.DigestWitness`).
* A `tar_time` of a directory is not put off like a `time`, so a link made anew in the directory afterwards moves it
  (`UpdateLaws.TimesRestored` gives the exact condition).
* A prefix to strip from a full path also takes away what they share when its last segment is another: `a/b` makes
  `x/c` of `a/x/c` (`Mutate.StripFullExactly`, `Mutate.StripsPartly`).
* A prefix to strip drops the entries on the way to it, and matches anything against the empty first
  segment of an absolute path (`Mutate.StripDropsAncestors`).
* `keyValDifference` answers the other list when there is nothing to subtract from, so a tar entry
  without keywords prints the whole `/set` line as its own; the keys in force are the same
  (`TarPrint.FactoredOverrides`).

## Model

| member | source | states |
|---|---|---|
| GovisLaws.PrefixLaw | pkg/govis/unvis.go:273-297 | For every flag set that keeps the slash or has the HTTP style, decoding an encoded string followed by any suffix gives the string and then the decoded suffix; an error in the suffix is the error of the whole. |
| GovisLaws.RoundTrip | pkg/govis/vis.go:172-183 | Encoding never fails on known flags, and decoding gives back every byte string, for these flag sets. |
| GovisLaws.Injective | pkg/govis/vis.go:172-183 | For these flag sets two names encode alike exactly when they are the same name. |
| GovisLaws.RoundTripsExactly | pkg/govis/vis.go:69-183 | Every byte string decodes back, and different ones encode differently, if and only if the flag set keeps the slash or has the HTTP style. |
| GovisLaws.NoSlashLosesBytes | pkg/govis/govis_test.go:45-49 | For every other flag set the byte 1 encodes like the text of its escape. |
| GovisLaws.ByteUndone | pkg/govis/vis.go:69-170 | Whatever form one byte takes, the first element the decoder reads is that byte and nothing more. |
| GovisLaws.PlainTextKept | pkg/govis/unvis.go:109-116 | Text without escapes decodes to itself. |
| GovisLaws.EncodedName | pkg/govis/vis.go:69-170 | With the default flags an encoded name has no white space and none of the bytes '#', '*', '?' and '[', so it survives being split into fields and does not look like a comment. |
| GovisLaws.EncodedDots | pkg/govis/vis.go:172-183 | Only "." and ".." encode to "." and "..". |
| Escapes.DefaultEncoding | pkg/govis/vis.go:69-139 | With the default flags graphical bytes other than '#', '*', '?', '[' and the backslash encode as themselves, the backslash is doubled, and every other byte is three octal digits of its number. |
| Escapes.HttpEncoding | pkg/govis/vis.go:71-74 | In the HTTP style everything but letters, digits and eleven signs is "%" and two upper-case hexadecimal digits. |
| Escapes.CStyleEncoding | pkg/govis/vis.go:98-130 | In the C style characters with a letter are written with it where they may not stand for themselves. |
| Escapes.ControlEncoding | pkg/govis/vis.go:146-166 | Without other styles control characters and bytes with the high bit are written with "^" and "M", and a space with the high bit in octal. |
| Escapes.HexRead | pkg/govis/unvis.go:151-177 | "\x", and "%" in the HTTP style, with two hexadecimal digits of either case reads as the byte of that number. |
| Escapes.OctalRead | pkg/govis/unvis.go:151-177 | A backslash with one, two or three octal digits, as many as there are, reads as the byte of that number. |
| Escapes.OctalTooLarge | pkg/govis/unvis.go:173-175 | Three octal digits above 377 are an error. |
| Escapes.LettersRead | pkg/govis/unvis.go:118-149 | What each letter and sign after a backslash stands for, among them "\E", "\$" and a newline; others are errors. |
| Escapes.ControlsRead | pkg/govis/unvis.go:179-219 | "\^c", "\M^c" and "\M-c" read as the control character of c, the same with the high bit, and c with the high bit. |
| Govis.Vis | pkg/govis/vis.go:172-183 | The loop over the bytes gives the encoding, or the error for unknown flags. |
| Govis.Unvis | pkg/govis/unvis.go:287-297 | The parser object gives the decoding its grammar defines, errors included. |
| Govis.UnvisParser.EscapeDigits | pkg/govis/unvis.go:151-177 | The digit loop stops, consumes, overflows and fails exactly where the grammar of numbers does, and appends its byte. |
| Govis.UnvisParser.EscapeSequence | pkg/govis/unvis.go:221-250 | One escape is read as the grammar says, with the position after it and the byte appended, or the error. |
| Govis.UnvisParser.Run | pkg/govis/unvis.go:273-285 | Elements are read to the end of the input or to the first error. |
| Cksum.Cksum | cksum.go:11-49 | The loops give the sum of the octets read and their count, also when reading fails part-way; SumIsPosix says which number the sum is. |
| Cksum.SumIsPosix | cksum.go:11-49 | The sum as a number is 0xFFFFFFFF minus that of r exactly when r is the remainder by the generator of the POSIX dividend: bit 7-i of octet k has degree coefficient 8k+i, then the octets of the length, as few as represent it and least significant first, then 32 zeros. |
| Cksum.OctetBitsAt | cksum.go:24 | The first coefficient of an octet is its most significant bit: coefficient i is its bit 7-i. |
| Cksum.NumberAt | cksum.go:13 | Coefficient i of the register is bit 31-i of the 32-bit number. |
| Cksum.ProductIsProduct | cksum.go:15-24 | The products of the division are convolutions over GF(2). |
| Cksum.DivisionUnique | cksum.go:15-24 | Quotient and remainder of a division over GF(2) are unique. |
| Cksum.GeneratorIsPosix | cksum.go:8 | The constant has a one at exactly the degrees of the generator in the POSIX cksum utility's definition. |
| Cksum.FeedIsDivide | cksum.go:15-24 | Feeding octets to the register is long division of their bits. |
| Cksum.BurstDetected | cksum.go:37-48 | Two messages of one length that differ only inside 32 consecutive bits have the same sum as a number exactly when they are the same. |
| Paths.CleanPathIs | entry.go:81-102 | CleanPath is the path's elements collapsed as below a root, rooted or not as it was. |
| Paths.CleanPathIdempotent | entry.go:81-102 | Cleaning twice is cleaning once. |
| Paths.CleanPathNeverUp | entry.go:71-76 | A cleaned path has no ".." element. |
| Paths.CleanPathConfined | entry.go:71-76 | Joining a cleaned path onto a root stays under the cleaned root exactly when the root is not empty or the path is relative. |
| Paths.BackAndForth | entry.go:81-102 | Cleaning drops empty elements and ".", and a name with the ".." after it, wherever in the path they stand. |
| Paths.UpFromTop | entry.go:81-102 | ".." goes nowhere from a root. |
| Entries.PathNeverUp | entry.go:104-120 | No entry's path climbs, whatever its names decode to. |
| Entries.PathAlone | entry.go:106-114 | The path of a full entry, or of one in no directory, is its decoded name, cleaned. |
| Entries.PathBelowParent | entry.go:115-119 | A relative entry's path is its parent's, then its own name's segments. |
| Entries.AllKeysMap | entry.go:153-160 | The loop gives the map of the merged list. |
| Entries.KeysMapIs | entry.go:143-160 | The keys in force are the /set line's map overridden by the entry's own. |
| Entries.LinePrinted | entry.go:124-141 | Name and key-values are separated by single spaces; entries below a directory begin four spaces in, but directories that say so, full paths and special lines at the margin; raw lines print as they are. |
| Keywords.MergeKeyValSet | keywords.go:208-229 | The two loops give the merged list, for lists with any repetitions. |
| Keywords.MergedIsOverride | keywords.go:208-229 | Read as maps, merging is overriding. |
| Keywords.HasKeyword | keywords.go:187-198 | The key-values found are those with the keyword's prefix, in order and with repetitions, and the last one for the keyword is kept. |
| Keywords.KeyvalSelector | keywords.go:151-161 | The loop selects the requested key-values in order. |
| Keywords.SelectedLookup | keywords.go:151-161 | Selecting restricts the map to the keywords with a requested prefix. |
| Keywords.PrefixIs | keywords.go:22-27 | The prefix of a keyword is what stands before its first dot. |
| Keywords.CanonicalIs | keywords.go:297-324 | Nine short names have the canonical ones listed, and every other name is its own. |
| Keywords.KeyValDifference | keywords.go:163-174 | What is left is what the other list does not hold; nothing minus a list is the list. |
| Keywords.FactoringKeeps | keywords.go:208-229 | Subtracting a consistent /set line and merging it back gives every key-value its produced value. |
| Manifest.ParentIsInnermost | parse.go:57-97 | The parent of an entry or of a ".." is the one innermost directory still open at its line, earlier in the manifest; there is none exactly at height zero. |
| Manifest.SetIsLatest | parse.go:52-56 | The set of an entry is the latest /set line before it that no /unset follows. |
| Manifest.ParentsBefore | entry.go:106-120 | Positions are indices and parents have smaller ones, so following parents ends. |
| Manifest.StackIsOpen | parse.go:57-97 | The stack holds exactly the directories still open, outermost first, each the parent of the next. |
| Manifest.TracksNext | parse.go:38-104 | The curDir and curSet pointers refine the stack and the set in force at every statement. |
| Spec.ParseSpec | parse.go:11-113 | The scanner loop answers the statements of the text, linked, for every input. |
| Spec.ParseLine | parse.go:18-110 | One turn of the loop reads one statement, skips a line, or fails where the code would index past the fields. |
| Spec.Scanner.Collapse | parse.go:66-75 | Folded lines are joined up to the first line without a backslash; past the end lines are empty. |
| SpecLaws.CrashIsHollow | parse.go:66-80 | Reading one statement indexes past its fields if and only if its line ends in backslashes and folds with those after it into white space. |
| SpecLaws.FailsExactly | parse.go:17-112 | Parsing fails if and only if such a line stands where a statement starts. |
| SpecLaws.HollowTexts | parse.go:78-80 | A backslash before an empty line, the same after a no-break space, a no-break space with its bytes in two lines, and two backslashes at the end of the text are such texts. |
| SpecLaws.ParsedFits | parse.go:78-108 | In parsed text names are cleaned, full paths have no parent and are nobody's, and every parent is a relative entry whose own last type says dir. |
| SpecLaws.HashLine | parse.go:24-33 | A line whose first character after blanks is "#" is a comment, or the signature, kept as it is; an empty line is a blank. |
| SpecLaws.WordsLine | parse.go:37-108 | A line of words is a special line only when a slash is its very first character, a ".." for that word, and otherwise a name, cleaned, with the key-values. |
| SpecLaws.FoldedLine | parse.go:66-75 | A line that ends in a backslash goes on in the next. |
| SpecLaws.LineEnds | parse.go:17 | Lines end at newlines and lose one carriage return. |
| GoStrings.RuneByRune | parse.go:65 | Cutting fields at the white space found byte by byte cuts them where decoding rune by rune does. |
| Printing.DirectoryHierarchy.WriteTo | hierarchy.go:15-27 | The entries are sorted in place and what is written is their lines, with the number of bytes. |
| Printing.SortByPosSorts | entry.go:12-16 | Sorting by position is an ordered permutation. |
| Printing.PrintParse | parse.go:17-112 | Entries that print some printable statements parse back to those statements, linked. |
| PrintingLaws.PrintParseExactly | parse.go:17-112 | Printed statements parse back to themselves, linked, if and only if none ends in a backslash or a carriage return, is more than a line, or has a name that looks like a comment or a "..". |
| PrintingLaws.FoldLoses | parse.go:66-75 | A line ending in a backslash takes the next line with it, or at the end of the text loses key-values. |
| Walk.Walk | walk.go:32-243 | The recursive walk over mutable state appends exactly the statements of the tree's trace, linked, or fails exactly when a keyword function does. |
| Walk.ReadOrderedDirNames | walk.go:307-325 | Whatever order the directory was read in, the names come out files first, each group ascending. |
| Walk.ChooseSet | walk.go:93-183 | The /set line a directory is given, if it needs one. |
| Walk.WalkTree | walk.go:260-303 | One subtree: callback, children, "..", with curDir restored and the set in force as the trace says. |
| Ordering.SortForgetsOrder | walk.go:322-324 | Sorting distinct names depends on their set only. |
| Ordering.LessIs | walk.go:322-323 | One name is before another when it ends where they first differ, or has the smaller byte there. |
| WalkLaws.KeysKept | walk.go:196-221 | Every key-value produced for a file is the one in force for its entry, whichever /set lines came before. |
| WalkLaws.KeysInForce | walk.go:93-221 | The keys in force for an entry are its set's overridden by those produced for its file, so none but those produced exactly when all of the set's were. |
| WalkLaws.WalkSetsFrom | walk.go:93-183 | A set holds nothing that was not asked for, but for the owner of the root. |
| WalkLaws.FilesFirst | walk.go:273-293 | The files of a directory are listed before its directories, all under the set in force when it was entered. |
| WalkLaws.TreeVisits | walk.go:57-64 | A subtree's visits are exactly the paths in it such that no exclude function answers true for the node or for any directory above it, file or directory, once each, with the node there. |
| WalkLaws.SiblingsInOrder | walk.go:273-325 | Of what one directory holds files are visited before directories, and each group ascending by byte values. |
| WalkLaws.SucceedsExactly | walk.go:196-221 | A walk succeeds exactly when, for every visited file, every function asked for answers, and for a directory those for uid and gid. |
| WalkLaws.DirectoryPrinted | walk.go:73-183 | A directory opens with a blank, a comment with its path, a /set line exactly if some owner is not in the set in force, which then holds exactly the requested of the four defaults and the owner, and its entry; it closes with "..". |
| CheckNames.ProducedIs | walk.go:196-215 | What is produced for a file is every non-empty key-value that a function asked for answers, and nothing else. |
| WalkLaws.WalkDescribesTree | walk.go:53-303 | The relative entries record, in order, exactly the files that no exclude function keeps out, themselves or by a directory above them: path, name, factored keywords and set. |
| WalkLaws.PrintedWalkParses | hierarchy.go:15-27 | Printing a walk and parsing it gives the same entries with the same parents and sets if and only if no printed line ends in a backslash and no comment is more than a line; only ".." entries gain their directory and line. |
| WalkLaws.CommentBreaks | walk.go:73-91 | The comment of a directory is more than a line exactly when its path has a newline or ends in a carriage return. |
| Times.TimesAgree | compare.go:228-239 | Converting the printed time of any instant gives its printed tar_time. |
| Times.PrintedTimes | keywordfunc.go:116-124 | Times print as seconds, a point and nine digits. |
| Times.TarSecondsRead | updatefuncs.go:110-117 | The second update reads in a printed tar_time is the one printed. |
| Times.TimeRestored | updatefuncs.go:151-161 | The printed time decodes to the exact instant if and only if it fits in 64 bits of nanoseconds and is not before the epoch with a fraction. |
| Times.BeforeEpochMisread | updatefuncs.go:151-161 | One instant before the epoch that is not restored. |
| Compare.CompareEntry | compare.go:243-327 | The loops give one delta for each keyword whose normalised values differ, or the conversion error; CompareLaws.DeltasExactly says which. |
| Compare.EntryDiffIsPatch | compare.go:243-327 | Applying an entry's deltas to the normalised old values gives the normalised new ones, with one delta a keyword and none without a difference. |
| Compare.DiffSwaps | compare.go:292-324 | Exchanging the manifests exchanges Missing with Extra and old with new in every delta. |
| Compare.NormalisedSwaps | compare.go:253-288 | The two time conversions exclude each other, so normalising commutes with exchanging. |
| Compare.CompareManifests | compare.go:330-426 | The answer has one delta for each path that is missing, extra or changed in a requested keyword, none other, or the error. |
| CompareLaws.CompareSelf | compare.go:447-449 | A manifest differs from itself nowhere. |
| CompareLaws.SameCoversUnion | compare.go:453-455 | With unchanged paths included, each path of either manifest is reported exactly once. |
| CompareLaws.CompareSwaps | compare.go:362-423 | Exchanging the manifests gives the same answer with Missing and Extra exchanged, and one fails exactly when the other does. |
| CompareLaws.ReportedExactly | compare.go:362-423 | A path is reported exactly when one manifest only has it, or a keyword asked for, by prefix and with time and tar_time standing for each other, has different values; it is Missing, Extra or Modified accordingly, with exactly the deltas of those keywords. |
| CompareLaws.DeltasExactly | compare.go:243-327 | The deltas of two entries: one for each keyword whose values in force differ, saying both, where a time is read as a tar_time as soon as either side has one. |
| CompareLaws.TimeAgainstTarTime | compare.go:253-288 | Where a printed time meets a printed tar_time, tar_time is reported exactly when the seconds differ, and time is not. |
| CompareLaws.TarTimesCompared | compare.go:253-288 | With a tar_time on both sides it is reported exactly when the values differ, and with one on either side time never is. |
| CompareLaws.ComparableExactly | compare.go:270-287 | Comparing fails exactly when one side has a time without a tar_time that cannot be converted while the other has a tar_time. |
| CompareLaws.EntryMapIs | compare.go:336-349 | The entries compared are the last ones for each path. |
| CheckLaws.CheckFindsNothing | compare.go:330-426 | Comparing the parsed printed walk of a tree with a later walk of the same tree finds nothing, whatever the header comments. |
| CheckLaws.ChangesFound | compare.go:330-426 | Comparing the printed and parsed walk of one tree with a walk of another reports a path exactly when its file is in one of them only, or a compared keyword in force for it differs. |
| CheckLaws.OnlyFilesFound | compare.go:330-426 | Nothing but paths of files is reported. |
| CheckNames.UsedKeywords | hierarchy.go:31-48 | The keywords listed are the canonical prefixes of the key-values of the entries and /set lines. |
| CheckNames.UsedIs | hierarchy.go:31-48 | A name is used exactly when an entry with a name or a /set line, and no other special line, has a key-value whose prefix has that canonical name. |
| CheckNames.NamesSuffice | keywords.go:297-324 | When every function asked for answers under its own name, as the one of its canonical name does, the names used are answered with what was produced before and the owner. |
| CheckAgain.FoundAgain | check.go:9-20 | A check of an unchanged tree finds nothing exactly when no compared keyword in force differs for any file between the two walks. |
| CheckAgain.CheckAgainExactly | check.go:9-20 | Where the names used are answered with what was produced before and the owner, checking an unchanged tree for them finds nothing if and only if the owner of every file was produced or is in force. |
| CheckAgain.OtherAnswerFound | check.go:9-20 | A file answered for with another value under a name used is found. |
| CheckOwners.OwnersByTree | walk.go:93-183 | The sets of a walk tell every owner if and only if uid and gid were both asked for, or every directory has those of the root and every file those of them that were not asked for. |
| CheckDigests.DigestsDiffer | keywordfunc.go:55-56 | After any walk for sha512256, the check for the keywords used finds a difference if one file has two different digests under sha512256 and sha512digest. |
| CheckDigests.DigestWitness | keywordfunc.go:55-56 | A tree of one file, walked for type and sha512256, on which the check for the keywords used finds a difference. |
| Mutate.StripPrefix | cmd/gomtree/cmd/mutate.go:150-184 | The loops over prefixes and segments give the visit's answer, for relative and full entries. |
| Mutate.StripDropsAncestors | cmd/gomtree/cmd/mutate.go:161-182 | A relative entry is dropped exactly when some prefix goes through its path; otherwise it is unchanged. |
| Mutate.StripFullExactly | cmd/gomtree/cmd/mutate.go:161-182 | What is left of a full path: what follows the segments it shares with the prefix, if these are all of the shorter or all but its last; else all of it. It is dropped when nothing is left. |
| Mutate.StripsPartly | cmd/gomtree/cmd/mutate.go:161-182 | A prefix that is not one of the path is stripped in part. |
| Mutate.SweepEntries | cmd/gomtree/cmd/mutate.go:78-108 | The loop keeps, drops and reparents as the sweep says, up to the first name that does not decode. |
| Mutate.MutateAction | cmd/gomtree/cmd/mutate.go:43-126 | Parsing, sweeping and printing in one. |
| MutateLaws.KeptExactly | cmd/gomtree/cmd/mutate.go:78-108 | Which entries are kept; a ".." is kept exactly when the directory it closes is. |
| MutateLaws.MutateKeepsNesting | cmd/gomtree/cmd/mutate.go:78-126 | For manifests without full paths, reading the output back gives the kept entries in order, unchanged, with the same /set in force, each below the nearest of its directories that was kept, if and only if every kept statement survives in its line. |
| MutateLaws.TrailingBlankLost | parse.go:66-80 | A manifest that mutate keeps whole and prints as one that reads otherwise. |
| Deferred.PathUpdateHeap.Push | update.go:143-145 | Appending and sifting up in the slice is the pushed queue. |
| Deferred.PathUpdateHeap.Pop | update.go:147-153 | Swapping, sifting down and cutting gives the first item and the popped queue. |
| Deferred.PushKeepsHeap | update.go:139-145 | Pushing keeps the heap order and adds one item. |
| Deferred.PopKeepsHeap | update.go:139-153 | Popping keeps the heap order and removes one item. |
| Deferred.DrainedSorts | update.go:111-113 | Draining gives every pushed item exactly once, longer paths first. |
| Deferred.DescendantsFirst | update.go:135-138 | A directory comes before something below it only if it is "." and the other path has one character. |
| Deferred.AnyPushOrder | update.go:135-138 | However a list of items is pushed, descendants are popped before their directories, if and only if "." and a relative path of one character are not both in it. |
| Deferred.OrderRelabels | update.go:139-153 | The queue looks only at lengths: replacing items by others of the same lengths replaces them where they are popped. |
| Deferred.DotBeforeChild | update.go:135-138 | Of "." and then "a", "." is popped first. |
| Update.LinkUpdate | updatefuncs.go:179-201 | It fails exactly when a request was refused or the change is impossible; otherwise the link has the decoded target, unchanged if it had it already, else made anew with nothing of the old one but the path, and its directory has the time. |
| Update.AttrUpdate | updatefuncs.go:30-102 | It fails exactly when a request was refused or the path is not there; otherwise the node has the value, or, for mode on a link, nothing changes. |
| Update.TimeUpdate | updatefuncs.go:145-177 | Without an error the file has the decoded time, and nothing else changed. |
| Update.TarTimeUpdate | updatefuncs.go:104-142 | Without an error the file has the printed second: nothing changed if it had it already, fraction included, and otherwise only its time, to the whole second. |
| Update.UpdateAll | update.go:23-128 | The calls made are the immediate ones in manifest order, then the queue; the failed ones are reported; there is none exactly when no request was refused and no call impossible, and then the disk is what the calls make of it. |
| UpdateLaws.AttrsRestored | update.go:63-107 | After an update without errors over distinct paths every selected uid, gid, mode and xattr, the last for its keyword, has its value on the disk if no later link of the entry was made anew, and is gone if one was; but for mode on a link. |
| UpdateLaws.AttrsKept | update.go:63-107 | An attribute that nothing selected for the path sets, and mode on a link, is what it was, or gone if a link of the entry was made anew. |
| UpdateLaws.LinkRestored | updatefuncs.go:179-201 | After such an update the last selected link of an entry is a link on the disk with the decoded target. |
| UpdateLaws.TimesRestored | update.go:79-107 | After such an update a time of anything but a directory, and a tar_time, is restored if neither its own link is made anew later nor, by a later entry, one directly below it; otherwise the time is when a link was made. |
| UpdateLaws.OthersKept | update.go:63-107 | A node no entry is for keeps everything but its time. |
| UpdateLaws.IsDirByMap | entry.go:163-173 | With one type in force an entry is a directory exactly when the key in force for "type" says dir. |
| UpdateLaws.CurSetIs | update.go:53-61 | The set the loop has is the last /set line with no /unset after it. |
| UpdateLaws.FailuresAre | update.go:92-104 | The calls reported are those that failed. |
| UpdateLaws.DirectoryTimesRestored | update.go:79-126 | After an update without errors over distinct paths every directory (its first type says dir) with a selected time has exactly that time, though links were replaced in it. |
| UpdateLaws.ScheduledDescendantsFirst | update.go:40-43 | In the schedule of any manifest a deferred directory precedes what is below it only in the case of "." and a one-character path. |
| TarTree.Node.Descend | entry.go:31-46 | The last child of the name, or for "." and "" a fresh copy of the node with all its fields. |
| TarTree.Tree.Find | entry.go:48-63 | A node is found exactly when the tree has the path: the node itself if the last element is a name, a copy of it if that is "." or nothing. |
| TarTree.Tree.EntryPath | entry.go:104-120 | Following parents gives the path of a node. |
| TarTree.Tree.LinkChild | tar.go:279-288 | Linking a node keeps every other node in its place and adds one path, first or last in its directory. |
| TarTree.Tree.PopulateTree | tar.go:235-295 | The linked tree refines the map from paths: what a header adds, at any depth, files first, directories last, and nothing for ".". |
| TarTree.DirOfText | tar.go:242-246 | The directory part of a cleaned path is the path without its last name. |
| TarLaws.BuiltIs | tar.go:226-295 | After any acceptable headers the nodes are the ancestors of their paths, each header's node carries its data, and every other node and the root is a placeholder. |
| TarLaws.OrderForgotten | tar.go:226-295 | The tree does not depend on the order of the headers, but for the order of names in a directory. |
| TarLaws.RootHeaderLost | entry.go:34-37 | A header for "." leaves the root as it was made. |
| TarLaws.BuildTree | tar.go:97-223 | The loop over the headers gives the tree of all of them. |
| TarOrder.BuiltOrdered | tar.go:243-285 | In every directory of the tree files stand before directories, of two files the one with the later header first, and directories in the order in which headers first mention them. |
| TarFlatten.ChooseSet | tar.go:318-356 | The /set or /unset line a directory needs, given the one in force. |
| TarFlatten.Flatten | tar.go:304-378 | The recursion over the linked nodes, which it changes, appends exactly the layout of the subtree, linked. |
| TarFlatten.FlattenAll | tar.go:435 | Header comments and the flattened tree. |
| TarPrint.TreeStops | tar.go:364-366 | A subtree is laid out with its own node first and every path below it exactly once, with its node's data. |
| TarNesting.TreePreorder | tar.go:364-366 | The order is a preorder: a directory comes before what is inside it, and all of that follows without a break. |
| TarPrint.FactoredOverrides | keywords.go:163-174 | What is factored out is said by the set, also when the node had no keywords. |
| TarPrint.TarKeysKept | tar.go:318-363 | The keys in force for a node are those of its set overridden by its own. |
| TarNesting.TarDescribesTree | tar.go:304-378 | The parsed manifest records exactly the nodes, in preorder, one relative entry each, under their paths; each entry is below that of its directory; every directory is closed by exactly one "..", every ".." closes one, and none is left open. |
| TarPrint.PrintedTarParses | tar.go:304-378 | Printing the flattened tree and parsing it gives the same entries with the same parents and sets if and only if no printed line ends in a backslash and no comment is more than a line. |
| TarLinks.CollectLink | tar.go:145-161 | A link is recorded under its target, which survives encoding, the key-value and decoding; without a target it fails where the code indexes past the list. |
| TarLinks.CollectLinks | tar.go:144-162 | The links are grouped by target. |
| TarLinks.CollectedAre | tar.go:157-161 | Each target has the names of exactly its links, in order. |
| TarLinks.LookIs | entry.go:48-63 | A path, also after "./", is looked up at its node, and with a slash at the end at a copy. |
| TarLinks.LinkEach | tar.go:396-406 | The loop over the links of one file, for links found, missing, or found as copies. |
| TarLinks.ResolveHardlinks | tar.go:382-411 | In whatever order the map is walked, the linked tree holds what resolving the targets one after the other gives. |
| TarLinks.HardlinksShare | tar.go:380-411 | A file and all its links get the file's keywords and the count of its names, and nothing else changes, when no target is a link and no file has two targets; without counting, a file may be named by two targets. |
| TarLinks.AnyOrder | tar.go:384 | Then the order of the map does not matter. |
| TarLinks.ChainsNeedOrder | tar.go:384-403 | With a target that is itself a link it does, among other targets apart from these: the two orders give the end of the chain different keywords. |
| TarLinks.SharedLinksNeedOrder | tar.go:384-403 | So it does for a link of two targets, which gets the keywords of the last. |
| TarLinks.SpellingsNeedOrder | tar.go:396-409 | So it does, when names are counted, for two targets that name one file. |
| TarArchive.Hierarchy | tar.go:427-437 | Hard links resolved, then header comments and the flattened tree. |
| TarArchive.LinksStayReadable | tar.go:396-409 | Resolving links leaves a tree whose manifest reads back. |
| TarArchive.CollectedKeysInForce | tar.go:304-378 | In the parsed manifest every key-value collected for a node is in force for its entry, whichever /set and /unset lines came before. |
| TarArchive.LinkedKeysAgree | tar_test.go:236-263 | In the parsed manifest a file and its hard links have the same key-values in force and the same number of names. |
| TarArchive.BuiltReadable | tar.go:226-295 | What told headers build is a tree whose manifest can be printed and read back. |
| TarArchive.ArchiveDescribed | tar.go:97-437 | End to end: the parsed manifest lists exactly the ancestors of the header paths, once each, under their paths; the entry of a header has its key-values in force, and any other type=dir. |
| TarOrder.ArchiveInOrder | tar.go:97-437 | In the manifest of an archive two entries of one directory stand in that order. |
| TarOrder.ArchiveSharesSet | tar.go:318-361 | In the manifest of an archive every file is under the set in force for its directory. |
| TarOrder.TarDirectoryPrinted | tar.go:308-377 | A directory opens with a blank, a comment with its path, a line that leaves in force the requested of the three defaults and what its header gives for the set, or nothing without a header, unless that is in force already, and its entry; it closes with the comment and "..". |

## Left out

- Reading the disk and the archive: file contents, hashes, owners, extended attributes, pipes and temporary files are behind the keyword-function parameters.
- TarLinks.ResolveHardlinks: keyword lists are values, so two lists that Go's append makes share memory are kept apart; that can differ only when names are counted and a target is a link or a second name of another.
- TarLinks.HardlinksShare: chains of links, whose outcome depends on the order of the map.
- UpdateLaws.AttrsRestored: entries with the same path are outside the law, as they are outside the others about updates.
- Update.Disk: paths name nodes directly; symbolic links in the middle of a path, permissions and the working directory are not modelled, and a tar_time is taken as seconds without the 64-bit limit on nanoseconds.
- Update.AttrUpdate: uid, gid, mode and xattr are set as the printed text; reading numbers and base64 is not modelled.
- Walk.Walk: answers no partial manifest when it fails, and reports only that a keyword function failed, not which.
- Spec.ParseSpec: the scanner's limit on line length and reading errors are not modelled.
- Times.ConvertToTarTime: blanks that the scanning format would skip inside a value are errors here.
- Printing.DirectoryHierarchy.WriteTo: the writer accepts everything.
- Mutate.StripFullExactly: names that encode to something else are outside the law, as several prefixes one after the other are.
- MutateLaws.MutateKeepsNesting: manifests with full-path entries are outside the law.
- TarLaws.BuildTree: archives with the same path twice are outside its contract, as are those PopulateTree leaves out.
- TarTree.Tree.PopulateTree: absolute names, names that climb, and paths that are both file and directory are outside its contract.
- The Prev, Next and curEnt links between walked entries, which nothing here reads.
- JSON output, error texts and the formats of gomtree validate.
- Exclude patterns, and path rules of systems other than Unix.
