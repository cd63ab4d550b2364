# GNU GLOBAL: models and proofs

GNU GLOBAL keeps an on-disk index of the tags of a source tree in step with the
tree, answers queries from a compact form of it, and turns the sources into
cross-linked HTML. This project models six parts of it in Dafny and proves what
each of them is for.

1. **The index and its incremental update** (`TagIndex`, `Incremental`, `UpdateRuns`,
   `UpdateExamples`, `TagRecords`, `Gtags`). GPATH is a pair of maps with an increasing next key, a tag file is a
   sequence of records, the parser is the list of symbols that a file holds, and a
   walk of the tree is a sequence of entries. `Gtags` has the databases as objects
   that the loops of `gtags` change in place; each of its methods is proved equal to
   a function of the state before it, and the theorems are about those functions.
   Equivalence of two databases is up to the numbering of files and the order of
   records: same paths, same types and, path by path, the same multiset of tags.
2. **The compact line numbers** (`Decimal`, `CompactFormat`, `CompactEncoder`), with the
   encoder, the unfolding decoder and the membership decoder, **the one-pass
   source reader** (`SourceReader`), and what a search prints of an index that the
   encoder wrote (`IndexSearch`).
3. **The scanner driver** (`Scanner`): match loop, back-up, refill, shift, growth and
   NUL bytes, for any tables and any division of the input into reads; and **the
   start conditions and the comment markup** of the C and yacc scanner (`Markup`).
4. **The byte-order conversion of btree pages** (`PageConversion`), and what it does to
   the numbers of a page (`PageNumbers`).
5. **Streams into trees, groups and tables**: the file index (`FileIndex`), the
   duplicate index and its cache records (`DupIndex`, `CStrings`), FILEMAP (`Filemap`).
6. **Cursors and rewriters**: the anchor table (`AnchorTable`), the macro replacement of
   `sed` (`ParentDirMacro`), and the percent encodings (`PercentEncoding`).

`dafny verify dfyconfig.toml` checks the whole project.

## Where a promise does not hold

These are properties that one would expect of the code and that are false of it. Each has
a lemma at a concrete input where it fails, and a lemma that says exactly when it holds.

- *An incremental update gives what a rebuild gives.* The update looks at the modification
  time of a file only (`gtags_mtime < statp.st_mtime`) and never at the type that GPATH has
  for it. `Incremental.UpdateMatchesRebuild`: exactly when no record of the database strays and
  every path whose entry differs is one that the update looks at again; the same after any
  run (`UpdateRuns.EveryRunOfAnyWalks`). Over runs in which sources are told by name and a
  write may carry any time, `UpdateRuns.EveryRun`: exactly when no known source in the walk
  has other tags than the index and a time no later than the stamp. It fails for an edit in the very second of the
  update (`UpdateExamples.SameSecondEdit`) and for a path that becomes a source or ceases
  to be one (`UpdateExamples.ClassChange`). What is missed once stays missed
  (`UpdateRuns.StaysMissed`).
- *After an update every tag record belongs to a source.* `Incremental.UpdatedNoStray`:
  exactly when no path that GPATH knows as no source is read again with tags in it;
  `UpdateExamples.ClassChangeStrays` is such a path.
- *A deleted file takes its tags with it.* The delete set holds the ids of sources only. A path
  that GPATH knows as no source goes from it when it leaves the walk, and the records under its
  id stay (`Incremental.AbandonsRecords`), over every later run
  (`UpdateRuns.EveryRunKeepsUnnamed`), after which no update gives what a rebuild gives
  (`UpdateRuns.NeverRebuiltAgain`); a query that meets such a record finds no path and dies
  (`libutil/gtagsop.c:961-962`). `UpdateExamples.ClassChangeAbandons`: the path of
  `ClassChangeStrays`, deleted. As long as no record strays, an update leaves no such record
  (`Incremental.UpdatedNoStray`).
- *`--single-update` gives what a rebuild gives.* `Incremental.SingleUpdateMatchesRebuild`:
  exactly when no record strays and nothing but that file differs. `UpdateExamples.SingleIsNotRebuild`: two files edited.
- *`--single-update` gives what the whole update gives.* `Incremental.SingleUpdateMatchesUpdate`:
  exactly when no record strays and the whole update would add, drop and change nothing but
  that file, and would not leave it behind. `UpdateExamples.SingleIsNotWhole`: the same two files.
- *A later update makes good what `--single-update` left out.* It renews the time of the tag
  files, so that an edit it left out may look old. `UpdateRuns.SingleKeepsSound`: exactly
  when no other known source is out of date with a time no later than the new stamp.
  `UpdateExamples.SingleHidesOther`: an edit that no later update sees.
- *Each line is shown with its own image.* The reader rewinds only when the key changes
  to an earlier line, but two records of one file may be filed under one key and overlap
  (methods that are extracted from their classes). `SourceReader.OnePassIsRight`: exactly
  when no record that the reader takes for a continuation goes back.
  `SourceReader.OverlapExample`: three methods of one file under one key. An index that has
  one name for each key in each file is always shown right (`IndexSearch.SearchIndex`).
- *The page of a source shows all of it.* A line is written by the action on its newline, and no
  action is run at the end of the file. `Markup.AllIsWritten`: exactly when the last token of
  the file ends a line. `Markup.LastLineIsLost`: a file of one character.
- *The previous link undoes the next link.* `AnchorTable.PrevLinkIs`: exactly when one
  definition begins on the line. `AnchorTable.SelfLinkExample`: a line with two definitions
  links to itself. `AnchorTable.PreviousReachFirst`: from the last definition the previous links
  come to the first one exactly when every definition line after the first has one definition.
- *An anchor shows the true number of the lines of its tag.* `DupIndex.CountIsTrue`: exactly
  when the lines of the tag are one run of the stream. `DupIndex.TwoRunsExample`: `A::f` with
  a line of `B::f`, which has the same key, between its two.
- *`decode_path` undoes the encoding of a path.* The decoder takes the digits a to f for 0 to
  5, and the encoder has a buffer of `MAXPATHLEN` bytes whose end it does not look for.
  `PercentEncoding.RoundTrip`: exactly when no character is encoded, or the length of the path
  and two for every encoded character are less than the size of the buffer, and the code of
  every encoded character has two decimal digits. `PercentEncoding.AsteriskIsLost` is a
  character for which it fails, `PercentEncoding.PercentsDoNotFit` a path with decimal digits
  only that does not fit when encoded.
  Blanks, tabs and percent signs, which GLOBAL itself asks to encode, are safe
  (`PercentEncoding.BlanksRoundTrip`).

## Model

| member | source | states |
|---|---|---|
| TagIndex.PutAllIs | libutil/gpathop.c:142-176 | putting paths keeps ids and paths in bijection, changes no entry, and gives new paths ids never used before |
| TagIndex.RemoveAllIs | libutil/gpathop.c:220-236 | deleting paths removes exactly them and keeps the next key, so that holes stay holes |
| TagIndex.DistinctIs | libutil/gtagsop.c:784-900 | the compact format keeps every name and line of the pool once |
| TagIndex.OfKeep | libutil/gtagsop.c:511-540 | deleting by a set of ids removes all records of these ids and no others |
| TagIndex.OfStamp | libutil/gtagsop.c:438-490 | records written for one file count for that file id only |
| Incremental.CreateDescribes | gtags/gtags.c:817-870 | a rebuild describes the tree: its paths, their types, and for every source the tags of its present contents |
| Incremental.PlanAt | gtags/gtags.c:572-633 | for every path, when it is in the add list, the other list, the delete list, the delete set: as new, modified, vanished, binary |
| Incremental.AddListOnce | gtags/gtags.c:572-603 | no path is added twice |
| Incremental.IndexAt | gtags/gtags.c:649-670 | the entry of every path after the deletions and additions, which id it keeps and when it gets a new one |
| Incremental.TagsUpdated | gtags/gtags.c:754-804 | since the delete set goes before the add list, an added file has exactly its present tags and no other file loses or gains any |
| Incremental.UpdatedNoStray | gtags/gtags.c:608-678 | after an update every tag record belongs to a file that GPATH has as a source, if and only if no path that it knows as no source is read again with tags in it |
| Incremental.UpdatedIndex | gtags/gtags.c:572-678 | after an update GPATH knows exactly the paths of the walk, except a known other file that is binary; what it knew keeps its entry, and what is new has the type of the walk |
| Incremental.UpdatedRecords | gtags/gtags.c:572-678 | after an update the tags of a path are those of its file if it was looked at, and the old ones otherwise |
| Incremental.UpdateMatchesRebuild | gtags/gtags.c:503-693 | for every tree and every database whose records carry ids that were handed out: the update is equivalent to the rebuild if and only if no record strays and every entry that differs is noticed |
| Incremental.StrayShows | gtags/gtags.c:594-633 | a stray record of any kind shows after the update: it is there still, or its path has been read as a source and is not known as one |
| Incremental.AbandonsRecords | gtags/gtags.c:622-630 | a path that is known as no source and leaves the walk goes from GPATH, and the records under its id stay, which then names no path |
| Incremental.UnnamedStays | gtags/gtags.c:608-633 | an id without a path gets none by an update, and its records stay |
| Incremental.NoticedSuffices | gtags/gtags.c:572-633 | if every difference is noticed the update describes the tree |
| Incremental.NoticedIsNeeded | gtags/gtags.c:594-602 | if one difference is not noticed the update does not describe the tree |
| Incremental.QuietUpdate | gtags/gtags.c:640-692 | with the same paths, the update returns 0 if and only if no source is newer than the tags, and then nothing is altered |
| Incremental.SingleUpdateMatchesRebuild | gtags/gtags.c:544-566 | updating one known source equals the rebuild if and only if no record strays and nothing else differs |
| Incremental.SingleUpdateMatchesUpdate | gtags/gtags.c:544-633 | updating one known source equals the whole update if and only if no record strays, and the whole update would touch nothing else and would not leave that file behind |
| Incremental.SingleUpdateIs | gtags/gtags.c:561-565 | updating one file renews its tags and leaves GPATH and every other file as it was |
| Incremental.SingleOfUnknown | gtags/gtags.c:548-556 | updating one path that is not known looks at the whole walk: it equals the rebuild if and only if no record strays and every difference is noticed, and a source of the walk is known afterwards |
| TagRecords.InfoIsRecorded | gtags/gtags.c:707-720 | a file is described by its records if and only if, for every name, line and image, GTAGS has it as often as the file has such a definition and GRTAGS as it has such a reference, in the compact format once if there is one |
| TagRecords.RebuiltRecords | gtags/gtags.c:817-870 | after a rebuild every source of the walk has exactly the records of its definitions in GTAGS and of its references in GRTAGS, and no other records are there |
| TagRecords.ReadRecords | gtags/gtags.c:754-804 | after an update every source that was read has exactly these records, whatever was recorded before |
| TagRecords.UnreadRecords | gtags/gtags.c:572-633 | and every path that stays and was not read has those that it had |
| TagRecords.SingleRecords | gtags/gtags.c:561-565 | the update of one known source gives it the records of its symbols |
| UpdateRuns.SyncIsRebuild | gtags/gtags.c:503-693 | from any database without stray records and with types by name, an update is equivalent to a rebuild if and only if no known source in the walk has other tags and a time no later than the stamp |
| Incremental.UpdateKeepsIds | gtags/gtags.c:658-669 | one update never gives a used id to another path |
| UpdateRuns.EveryRunKeepsIds | gtags/gtags.c:608-678 | over any run of writes with any times, deletions and updates of both kinds, an id that names a path now named the same path before, or had not been given out |
| UpdateRuns.EveryRunIsSane | gtags/gtags.c:503-693 | over any such run in which sources are told by name: no record strays, and every path keeps its type |
| UpdateRuns.EveryRun | gtags/gtags.c:503-693 | after any such run, an update gives what a rebuild gives if and only if no known source in the walk is missed |
| UpdateRuns.EveryRunOfAnyWalks | gtags/gtags.c:503-693 | after any run of writes, deletions and updates of both kinds, whatever their walks took for sources, an update gives what a rebuild gives if and only if no record strays and every difference is noticed |
| UpdateRuns.EveryRunKeepsUnnamed | gtags/gtags.c:608-678 | over any such run, an id without a path gets none, and its records stay |
| UpdateRuns.NeverRebuiltAgain | gtags/gtags.c:608-678 | if it has records, no later update gives what a rebuild gives |
| UpdateRuns.StepKeepsSound | gtags/gtags.c:503-693 | from a state in which nothing is missed, a step leads to such a state if and only if its change is one that shows |
| UpdateRuns.SingleKeepsSound | gtags/gtags.c:544-566 | an update of one source leaves nothing missed if and only if no other source is out of date with a time no later than the new stamp |
| UpdateRuns.SeenRunIsRebuilt | gtags/gtags.c:503-693 | after any run whose changes show, an update gives what a rebuild gives |
| UpdateRuns.FreshIsSound | gtags/gtags.c:817-870 | a rebuild is a sound start |
| UpdateRuns.StaysMissed | gtags/gtags.c:594-602 | a source that is missed keeps its old tags through every update that walks over it |
| UpdateRuns.LateEditIsMissed | gtags/gtags.c:597-601 | any known source whose tags change no later than the stamp keeps its old tags from then on, and no later update gives what a rebuild gives |
| UpdateRuns.SingleHides | gtags/gtags.c:671-676 | after an update of one source, any other that is out of date is missed |
| UpdateExamples.SameSecondEdit | gtags/gtags.c:597-601 | an edit in the second of the stamp: the update finds nothing to do, and a rebuild would differ |
| UpdateExamples.ClassChange | gtags/gtags.c:594-602 | a path that changes between source and other keeps the type that it had |
| UpdateExamples.ClassChangeStrays | gtags/gtags.c:594-602 | if it has become a source and is newer, its tags belong to a path that is no source |
| UpdateExamples.ClassChangeAbandons | gtags/gtags.c:622-630 | if it is then deleted, its tags stay, under an id that names no path |
| UpdateExamples.SingleIsNotWhole | gtags/gtags.c:561-565 | with two files edited, updating one does not give what the whole update gives |
| UpdateExamples.SingleIsNotRebuild | gtags/gtags.c:561-565 | nor what a rebuild gives |
| UpdateExamples.SingleHidesOther | gtags/gtags.c:671-676 | and after it no update gives what a rebuild gives |
| Gtags.PathIndex.Put | libutil/gpathop.c:142-176 | GPATH in place: a known path is left alone, a new one gets the next key |
| Gtags.PathIndex.Delete | libutil/gpathop.c:220-236 | both directions of the mapping are removed |
| Gtags.TagFile.PutUsing | libutil/gtagsop.c:438-490 | a record, or an entry of the pool in the compact format |
| Gtags.TagFile.Flush | libutil/gtagsop.c:497-504 | the pool becomes records of one file, each name and line once |
| Gtags.TagFile.Delete | libutil/gtagsop.c:511-540 | exactly the records of the deleted ids are removed |
| Gtags.Project.ParseSymbols | gtags/gtags.c:701-720 | definitions go to GTAGS, references to GRTAGS, in their order, and nothing else is written |
| Gtags.Project.PutSym | gtags/gtags.c:701-720 | a definition goes to GTAGS, a reference to GRTAGS, and nothing else is written |
| Gtags.Project.ReadFile | gtags/gtags.c:791-804 | one file of the add list |
| Gtags.Project.UpdateTags | gtags/gtags.c:730-809 | deletions first, then every added file, equal to the specification that the theorems are about |
| Gtags.Project.CreateTags | gtags/gtags.c:817-870 | the rebuild in place: every source has the records of its symbols and no others are there, and the tag files have its time |
| Gtags.Project.MakeLists | gtags/gtags.c:568-633 | the loops compute exactly the lists and sets of the specification |
| Gtags.Project.MakeDeleteList | gtags/gtags.c:608-633 | the loop over the ids, holes included, finds what has gone |
| Gtags.Project.UpdateGpath | gtags/gtags.c:649-670 | deletions before additions |
| Gtags.Project.Decide | gtags/gtags.c:544-634 | an unknown single file falls back to the whole walk; one that is no source is not updated |
| Gtags.Project.Incremental | gtags/gtags.c:503-693 | the whole of `gtags -i`: result, databases and stamp, and the files that were read have the records of their symbols |
| CompactEncoder.FlushPool | libutil/gtagsop.c:796-900 | for any sorted lines, the records are well formed and unfold to exactly the distinct positive lines in order, wherever they are split |
| CompactEncoder.DistinctOfIncreasing | libutil/gtagsop.c:838-876 | strictly increasing positive lines are stored as they are |
| CompactEncoder.AppendItem | libutil/gtagsop.c:844-868 | appending a difference or a run to a record adds exactly its lines |
| CompactEncoder.AddLine | libutil/gtagsop.c:838-876 | one turn of the encoder keeps what has been encoded and the run that is open |
| CompactEncoder.FoundIffStored | global/global.c:239-270 | membership in the stored records is membership in the lines |
| CompactFormat.Unfold | global/global.c:1388-1423 | the unfolding loop ends on every well-formed record and yields its lines in order |
| CompactFormat.Includes | global/global.c:239-270 | the membership decoder answers exactly whether the unfolding decoder would yield the line |
| CompactFormat.ReachesIsMembership | global/global.c:239-270 | the two readings of a record agree on every line |
| CompactFormat.FormatExample | libutil/gtagsop.c:844-868 | what `12,3-4,7` stands for |
| Decimal.ReadNumber | global/global.c:240-256 | the digit loop reads the number and stops after its digits |
| Decimal.NumeralAt | libutil/gtagsop.c:850-866 | a printed number between two texts is read back |
| SourceReader.Searcher.Search | global/global.c:1350-1423 | the loop over the records prints what the specification says, reopening, rewinding and reading forward in place |
| SourceReader.Searcher.Record | global/global.c:1353-1423 | one record: its lines with their images, and where the reader stands afterwards |
| SourceReader.OnePassIsRight | global/global.c:1354-1417 | every line is shown with its own line of the file if and only if no continuation goes back |
| SourceReader.ImagesAreTrue | global/global.c:1407-1422 | then every printed image is true; and when the lines of the files differ, only then |
| SourceReader.OverlapGoesWrong | global/global.c:1367-1374 | a third record under one key that starts before the second ended is shown with the image of another line |
| SourceReader.OverlapExample | libutil/gtagsop.c:801-824 | the records of three methods of one file under one key, whose file has 50 different lines: one image printed is not true |
| IndexSearch.RecordsInOrder | libutil/gtagsop.c:838-876 | if the lines of all records of a pool increase, those of each record do, and each record begins after the one before it ends |
| IndexSearch.OutputIsWanted | global/global.c:1350-1423 | if no continuation goes back, the search prints every line of every record, in order, with its own image |
| IndexSearch.IndexIsShown | global/global.c:1354-1417 | the records that flush_pool writes for any pools, where entries of one file differ in key and no key is a stored name, are in such an order, and the search of them prints the distinct lines of each pool |
| IndexSearch.SearchIndex | global/global.c:1350-1423 | the loop over these records prints every line of the pools once, with its own image, wherever the records were split |
| Scanner.Scanner.Lex | htags/c.c:866-916 | one call returns the longest match of the remaining input, or nothing at its end, and leaves the rest |
| Scanner.Scanner.ScanAll | htags/c.c:864-1333 | whatever the reads deliver, the texts of the tokens are the input, and each token is the longest match of what is left, from the start state of the condition that the actions before it left, at the beginning of a line if and only if the character before it is a newline |
| Scanner.EveryToken | htags/c.c:821-824 | the same of the tokenization of a whole input, token by token |
| Scanner.ExpectedIsLongest | htags/c.c:880-899 | the token that one call returns is accepted by its rule, and nothing longer is accepted by any |
| Scanner.NothingIsLost | htags/c.c:387-392 | the texts of the tokens put together are the input |
| Scanner.JamDecides | htags/c.c:883-899 | when the tables jam, the last accepting state recorded is that of the longest match |
| Scanner.BestIs | htags/c.c:883-888 | what the longest match is: accepted, and nothing longer is |
| Scanner.Scanner.Match | htags/c.c:880-899 | the match loop ends with the token decided, or on an end-of-buffer character |
| Scanner.Scanner.MatchStep | htags/c.c:881-897 | one turn of the loop keeps the record of the last accepting state |
| Scanner.Scanner.GetPreviousState | htags/c.c:1483-1508 | running again over what was scanned gives the same state and the same record |
| Scanner.Scanner.TryNulTrans | htags/c.c:1516-1537 | the transition on a NUL of the input, with the accepting state noted |
| Scanner.Scanner.RealNul | htags/c.c:1244-1279 | a NUL within the input is a character like any other |
| Scanner.Scanner.GetNextBuffer | htags/c.c:1349-1479 | the unfinished token is moved, the buffer grown if need be, and more is read, with nothing of the input lost |
| Scanner.Scanner.MakeRoom | htags/c.c:1385-1436 | there is room to read into, and the moved characters are kept |
| Scanner.Scanner.UsedUp | htags/c.c:1281-1330 | at the end of the buffer: go on, take the last match, or end |
| Scanner.Scanner.CutOff | htags/c.c:387-392 | cutting a token off with a NUL keeps the character that it overwrites |
| Markup.Converter.Convert | htags/lexcommon.h:72-131 | for any legal tokens and whatever earlier files have left: every token is written once and in order, shaded exactly if it is part of a comment; the finished lines are the source text up to the unfinished line, each with alternating, closed markup; the start condition is the one that the tokens decide; what earlier files pushed stays on the stack and is known to the caller, and a brace frame on this file's part of it means a positive brace level |
| Markup.Converter.Action | htags/c.c:918-1199 | each rule, with the user action before it |
| Markup.Converter.EndOfLineAction | htags/lexcommon.h:95-116 | a newline ends one-line frames, closes the markup and the line |
| Markup.Converter.BackslashNewlineAction | htags/lexcommon.h:118-131 | a continued line closes its markup but leaves the comment |
| Markup.Converter.UserAction | htags/lexcommon.h:81-93 | the first token of a line reopens the markup of a comment |
| Markup.Converter.PopState | htags/c.c:2025-2031 | yy_pop_state where this file has pushed something |
| Markup.Converter.EnterBrace | htags/c.c:1096-1111 | one start condition and a counter stand for a frame per opening brace |
| Markup.Converter.LeaveBrace | htags/c.c:1112-1116 | and for its end |
| Markup.NextFramesOk | htags/c.c:926-1136 | every rule keeps the frames well formed, and a rule that pops has a frame to pop |
| Markup.NewlineEndsLine | htags/lexcommon.h:95-111 | the next line starts in code or in a comment of many lines |
| Markup.CommentsAreRegions | htags/c.l:72-85 | the scanner is in a comment exactly between an opening token and the next token that closes its kind |
| Markup.ConditionIs | htags/c.c:926-1136 | the start condition is decided by the tokens alone: a string or literal from its opening token to the next that closes it or the next newline, a directive to the next newline outside a comment, a prologue, the depth of braces, and the section |
| Markup.CloserRestores | htags/c.c:926-1136 | every token that closes a frame brings back the frames from before the token that it matches: braces by their nesting, the others by the last opening token |
| Markup.ShadesAre | htags/lexcommon.h:72-131 | every token is written once, in order, with the markup of a comment if and only if it opens one or lies within one |
| Markup.TextIsKept | htags/lexcommon.h:72-131 | the finished lines and the unfinished one, without markup, are the source text |
| Markup.WrittenIs | htags/lexcommon.h:95-131 | the lines that are written are the source text up to where the unfinished line begins |
| Markup.AllIsWritten | htags/lexcommon.h:95-131 | the whole text is written if and only if the file is empty or its last token ends a line |
| Markup.LastLineIsLost | htags/src2html.c:703 | a file of one character and no newline, of which nothing is written |
| Markup.Converter.Move | htags/c.c:926-1136 | the start condition, stack and brace level after any rule stand for the frames after it, and the level is positive as long as a brace frame is there |
| Markup.SpreadBrace | htags/c.c:1108-1116 | counting a brace up or down is pushing or popping a frame |
| PageConversion.PgIn | libdb/bt_conv.c:57-123 | the page with exactly its words swapped, although each is found through words swapped before |
| PageConversion.PgOut | libdb/bt_conv.c:125-191 | the same in the other order |
| PageConversion.SameLayout | libdb/bt_conv.c:57-191 | a converted page has, read in the other byte order, the same words in the same places |
| PageConversion.RoundTrip | libdb/bt_conv.c:57-191 | each direction undoes the other on every byte, for internal, leaf, overflow and meta pages |
| PageNumbers.HeaderNumbers | libdb/bt_conv.c:76-81 | after a conversion the six numbers of the header, read in the other order, are what they were |
| PageNumbers.ItemNumbers | libdb/bt_conv.c:83-122 | and so are, for every item whose slot ends no later than the free space begins, its slot, and at that place its sizes, page numbers and references; its flags stay |
| PageNumbers.OtherBytes | libdb/bt_conv.c:57-191 | every other byte is as it was |
| PageNumbers.MetaNumbers | libdb/bt_conv.c:199-220 | the six numbers of the meta page, and its other bytes |
| PageNumbers.LaidOutIsOk | libdb/btree.h:83-127 | every page whose items lie on it, after their slots and clear of each other, can be converted |
| PageConversion.ReadAndWrite | libdb/mpool.c:245-246 | a page that is read and written back is as it was on disk |
| PageConversion.SwapMeta | libdb/bt_conv.c:199-220 | the six words of the meta page |
| PageConversion.SwapItemIn | libdb/bt_conv.c:83-98 | slot first, then the item it addresses |
| PageConversion.SwapItemOut | libdb/bt_conv.c:143-156 | item first, then its slot |
| PageConversion.SwapLeafReferences | libdb/bt_conv.c:107-119 | which words follow the flags of a leaf item |
| PageConversion.SwapTwice | libdb/db.h:169-205 | swapping the same words twice restores every byte |
| FileIndex.FileIndex.PrintDirectory | htags/fileindex.c:337-456 | a call consumes exactly the block under basedir, counts it, restores basedir, leaves at most one path pushed back, and appends the pages of the block with their rows closed |
| FileIndex.FileIndex.GetPath | htags/fileindex.c:53-65 | the next path of the stream, the pushed-back one first |
| FileIndex.FileIndex.UngetPath | htags/fileindex.c:70-74 | the path just read is read again |
| FileIndex.OnePage | htags/fileindex.c:347-361 | in a sorted stream no directory has two pages |
| FileIndex.EveryPage | htags/fileindex.c:387-415 | every directory that holds a path, at any depth, has a page |
| FileIndex.NeverAgain | htags/fileindex.c:220-228 | in a sorted stream a directory that has ended does not come again |
| FileIndex.PageHasPath | htags/fileindex.c:387-415 | every page is that of a directory with a path in the block |
| FileIndex.CountsAddUp | htags/fileindex.c:411-412 | the counts shown on a page add up to the paths under its directory |
| FileIndex.DirectoryCells | htags/fileindex.c:387-415 | in a sorted stream, the page of d has a cell for e if and only if e is d, a slash and one name and some path is under e: one cell, with the number of these paths |
| FileIndex.EveryPageIsLinked | htags/fileindex.c:400-412 | in any stream, every page but the top one is one that a cell leads to |
| FileIndex.ParentLinks | htags/fileindex.c:400-412 | and that cell is on a page of the directory above |
| FileIndex.FileIsListed | htags/fileindex.c:387-440 | each path of the stream is a cell of a page of its own directory, what precedes its last slash, and of no other page |
| FileIndex.OnItsOnlyPage | htags/fileindex.c:387-440 | in a sorted stream that is exactly one page |
| FileIndex.FileIndex.EndCell | htags/fileindex.c:443-444 | rows have the configured number of cells, and a full one is closed |
| DupIndex.DupIndex.MakeIndex | htags/dupindex.c:60-200 | the loop writes exactly the records and pages of the runs of the stream |
| DupIndex.LineAnchorIsFaithful | htags/src2html.c:400-417 | the anchor of a tag with one line is decoded to its file id and line |
| DupIndex.PageAnchorIsFaithful | htags/src2html.c:360-399 | any other is decoded to its page id and the true number of its lines, and that page lists exactly them |
| DupIndex.PagesDiffer | htags/dupindex.c:97-136 | different tags have different page ids |
| DupIndex.NoRecord | htags/src2html.c:348-355 | a tag that is not in the stream has no anchor |
| DupIndex.GroupOf | htags/dupindex.c:97-136 | in a grouped stream every line is in one group |
| DupIndex.RecordIsKept | htags/cache.c:75-85 | the record and the page of the last run of a tag stay as they were written |
| DupIndex.LastRunOf | htags/dupindex.c:97-136 | every tag of the stream has a last run |
| DupIndex.LastRunAnchor | htags/src2html.c:360-417 | the anchor of a tag with several runs is that of its last run |
| DupIndex.CountIsTrue | htags/src2html.c:360-399 | the number that an anchor shows is true if and only if the lines of its tag are one run |
| DupIndex.TwoRunsExample | htags/dupindex.c:97-136 | a stream of lines with one key, as records come, with two runs of a tag, whose anchor says one line |
| CStrings.TwoStrings | htags/cache.c:35-56 | the two C strings of a cache record are read back |
| Filemap.Split | htags-refkit/htags_path2url.c:135-172 | the in-place split of a printed text stays inside it, puts a NUL after every name and URL and changes nothing else |
| Filemap.Sort | htags-refkit/htags_path2url.c:173 | the index is put in the order of the names, with every line kept |
| Filemap.Load | htags-refkit/htags_path2url.c:125-179 | from a printed text: the divided buffer, and a sorted index of exactly its lines |
| Filemap.PrintLoadFind | htags-refkit/htags_path2url.c:215-271 | what was printed, loaded and searched: every printed path has its URL, as far as it fits, and no other path has one |
| Filemap.ReadBack | htags/fileindex.c:438-439 | every printed entry is read back from the split buffer |
| Filemap.Path2Url | htags-refkit/htags_path2url.c:256-271 | a printed path gives its URL cut to the size of the buffer, any other path gives none |
| Filemap.UrlNamesLine | htags-refkit/htags_path2url.c:267-270 | the URL of a line is that of the file, `#L` and the number, which is read back from it |
| Filemap.Search | htags-refkit/htags_path2url.c:256-266 | binary search in byte order finds a name if and only if it is there |
| Filemap.CountLines | htags-refkit/htags_path2url.c:143-146 | as many lines are counted as entries were printed |
| AnchorTable.AnchorTable.AskAll | htags/anchor.c:281-332 | for any queries in line order and any marking, each answer is that of a scan of the whole table |
| AnchorTable.AnchorTable.Get | htags/anchor.c:281-304 | a single query is answered like the scan, except exactly before the cursor |
| AnchorTable.AnchorTable.DefineLine | htags/anchor.c:311-332 | likewise |
| AnchorTable.AnchorTable.Load | htags/anchor.c:188-224 | FIRST and LAST are the first and last definition lines, and the cursor is reset |
| AnchorTable.AnchorTable.VisitAll | htags/anchor.c:249-272 | all anchors are visited, and if there is a definition the last one is remembered, whatever was remembered before |
| AnchorTable.AnchorTable.GetLinks | htags/anchor.c:337-383 | the links of a line start from the definition that the remembered one lets the code find, and leave it remembered; the links to the first and last definition, the top and the bottom never lead to where they are |
| AnchorTable.AnchorTable.LinksAfterVisit | htags/anchor.c:345-370 | after a visit the links are those of the chain |
| AnchorTable.AnchorTable.FollowNext | htags/anchor.c:188-383 | for any file, whatever was remembered of others: loaded, visited and asked for the links, the next links lead from the first definition through every definition line once, in order, and end |
| AnchorTable.AnchorTable.FollowPrevious | htags/anchor.c:188-383 | and the previous links lead from the last definition back line by line, as far as the lines that they start from have one definition each |
| AnchorTable.BackIs | htags/anchor.c:355-364 | k previous links lead k definition lines back, as long as the lines that they start from have one definition each |
| AnchorTable.PreviousReachFirst | htags/anchor.c:345-364 | from LAST the previous links come to FIRST if and only if every definition line after the first has one definition |
| AnchorTable.NextLinkIs | htags/anchor.c:355-370 | the next links visit every definition line once, in order, and end at the last, duplicates or not |
| AnchorTable.DefLinesAre | htags/anchor.c:208-217 | the lines of the chain are exactly those on which a definition begins |
| AnchorTable.ChainIsComplete | htags/anchor.c:355-370 | from FIRST, the next links come to a line if and only if a definition begins on it |
| AnchorTable.ChainInOrder | htags/anchor.c:355-370 | to each such line once and in order |
| AnchorTable.ChainEnds | htags/anchor.c:208-217 | and at last to LAST, where they end |
| AnchorTable.SelfLinkExample | htags/anchor.c:345-364 | a table with two definitions on a line, whose previous link leads to itself |
| AnchorTable.FirstAndLast | htags/anchor.c:208-217 | the chain begins at FIRST and ends at LAST |
| AnchorTable.PrevLinkIs | htags/anchor.c:355-364 | the previous link undoes the next link if and only if one definition begins on the line |
| ParentDirMacro.Sed | htags/common.c:284-316 | the one-pass rewriter equals left-to-right replacement of every occurrence that does not overlap one before it, for all inputs |
| ParentDirMacro.LoadText | htags/common.c:284-316 | the macro of the code, replaced by the parent directory of the place of the page |
| ParentDirMacro.ParentHoldsHtml | htags/common.c:288 | from every page, what the macro stands for leads to the directory that holds the HTML directory |
| ParentDirMacro.WholeOrNothing | htags/common.c:300-302 | comparing only as many characters as were collected decides the whole macro |
| ParentDirMacro.Step | htags/common.c:291-313 | one character keeps what is settled and what is pending, when an at sign decides, begins or spoils a macro |
| PercentEncoding.EncodeInto | global/global.c:1567-1588 | the longest prefix that fits is encoded, with a NUL after it, no escape is cut, nothing after that is touched, what the buffer holds is decoded to that prefix and has no blank or tab |
| PercentEncoding.EncodePath | libutil/pathconvert.c:159-174 | the encoding loop writes the encoded path and a NUL into the buffer, or would write behind it, exactly if the encoding does not leave room for the NUL |
| PercentEncoding.ConvertPath | libutil/pathconvert.c:149-176 | a path without a character to encode is returned as it is, any other encoded, if it fits |
| PercentEncoding.LengthIs | libutil/pathconvert.c:164-171 | an encoding is as long as its text, and two more for every encoded character |
| PercentEncoding.DecodePath | libutil/pathconvert.c:83-104 | the path decoder, with its give-up branch |
| PercentEncoding.RoundTrip | libutil/pathconvert.c:75-176 | a path is returned encoded and decoded to itself if and only if no character is encoded, or the length of the path and two for every encoded character leave room for a NUL in the buffer and every encoded character has a code of two decimal digits |
| PercentEncoding.BlanksRoundTrip | global/global.c:1573-1578 | a whole text that `encode` writes is decoded to itself |
| PercentEncoding.EscapeIs | libutil/pathconvert.c:161-168 | the hexadecimal digits of an escape, and the escape of a blank |
| PercentEncoding.CutRoundTrip | global/global.c:1567-1588 | and a text that was cut is decoded to the characters that were encoded |
| PercentEncoding.AsteriskIsLost | libutil/pathconvert.c:76-99 | an encoded asterisk comes back as a blank |
| PercentEncoding.PercentsDoNotFit | libutil/gparam.h:34-36 | a path of 400 percent signs, which have decimal digits, does not fit into 1024 bytes when encoded |

## Left out

- Process, file and terminal I/O, signals and option parsing: the tree is a map from paths
  to contents and times, the clock a parameter, the output of a child process a sequence.
- The parser: a file holds the list of its symbols; files of other parser versions are not modelled.
- The btree under the tag files: a tag file is a sequence of records, and equivalence does
  not speak of the order in which a query returns them.
- Gtags.Project.UpdateTags: does not model a project without GRTAGS, nor the extraction of methods from
  their classes, which changes keys and not the set of tags.
- Gtags.TagFile.Flush: does not write the records in the compact syntax; that is
  CompactEncoder.FlushPool, for the lines of one name.
- The walk of the tree (`find.c`): any sequence that lists each regular file once, with the
  blank that marks other files as a flag.
- IndexSearch.SearchIndex: does not model the sort of the records of a key by path and line; the entries may
  come in any order, each with its records together.
- Missing or shortened source files in `search`: the files are there and have the lines.
- Int overflow of line numbers and of the doubled scanner buffer: numbers are unbounded.
- The flex tables: any tables that satisfy what every generated table does; the rule action
  that reads ahead with `input` and `unput` (an include line) is a token of its own in Markup.
- The drivers of the assembler, C++, Java and PHP scanners, which repeat the C one.
- Guides, anchors and other HTML that a rule writes: a token writes its text.
- PageConversion.PgOut: does not say that the reference of big data on a leaf item with an inline
  key is the one that is swapped; the code takes it to be 4 bytes after the flags.
- FileIndex.FileIndex.PrintDirectory: does not model the skip of files that are no sources (a filter
  on the stream), the limit on path length, and the tree view.
- DupIndex.DupIndex.MakeIndex: does not model the parsing of the lines of the stream or the
  truncation of long ones; in dynamic mode an anchor names the tag and not the page id.
- Filemap.Split: does not model a FILEMAP that htags did not print, for which the code reports an
  illegal format.
- Filemap.Sort: is an insertion sort in the place of `qsort`, whose order of equal names is open.
- AnchorTable.AnchorTable.GetLinks: does not model the search from a definition remembered of an earlier
  file, for a line of a file that has no definition; src2html asks for no such links.
- PercentEncoding.EncodePath: does not model what a write behind the buffer does, nor bytes of 128 and
  above where `char` is signed.
- jQuery, gozilla, gtags-cscope, cflow, Windows branches and memory exhaustion.
