# Build tooling, verified

A Dafny model of the harder parts of a build system's Python tooling, with proofs of what those parts are for.
`dafny verify dfyconfig.toml` checks the whole project.

- **Download stubs** (`StubFiles`, `StubProtocol`, `StubRuns`, `StubTree`, `StubPass`). A remote action leaves
  a small stub in place of an output; a later call fetches the artifact under a file lock, with two renames.
  The protocol is a state machine over any number of processes that may die at any step: safety in every
  reachable state, no deadlock, and runs that show what can still go wrong. The files of one output are a
  class whose methods create, download, undownload and update, and whose runs are followed from any consistent
  start; one pass of the protocol is one of its downloads.
- **The outputs database** (`TabularFormat`, `TabularSearch`, `NinjaDictionary`, `NinjaOutputs`,
  `OutputsDatabases`). A map from GN labels to Ninja paths is stored as one sorted byte buffer. It is bisected
  by label and searched by path without being parsed. Both lookups are compared with plain dictionaries, and
  the reuse of a saved buffer is followed over runs of rewrites and loads.
- **Tracing differences** (`ActionDiff`). Two mutually recursive methods share one visited set. They walk from
  an output to the inputs that explain why it differs between two builds.
- **Dependency files** (`DepfileLexer`, `DepfileParser`), **text protos** (`TextProtoLexer`, `TextProto`,
  `TextProtoDict`, `TextProtoParse`), **GN labels** (`GnLabels`) and **command flags** (`Flags`): lexers,
  parsers and rewriters, proved against grammars and inverse printers.
- **ELF and DWARF** (`Bits`, `ElfFile`, `ElfStrip`, `ElfSections`, `ElfNotes`, `ElfSizes`, `DwarfLines`):
  packed headers, stripping, notes and build ids, page-rounded sizes, line-table file names.
- **Download profiles** (`DownloadProfile`): exact distribution of bytes over time intervals, in real
  arithmetic.

`Text` has the string operations the other modules share. Errors that the Python code raises are `Result`
values.

## Findings

Where a property does not hold, a lemma gives the exact condition under which it does, and often another gives
an input or a run for which it fails.

- A process that dies between the two renames of a download leaves no file at the path, and later calls then
  return 0 without one (`StubRuns.CrashLeavesNoFile` is such a run, `StubProtocol.ZeroMeansPresent` says that
  there is no other cause).
- A lock taken on descriptor 0 is not released (`StubProtocol.DescriptorZeroKeepsLock`); any other is
  (`StubProtocol.LockIsExplained`).
- Without extended attributes, an artifact that begins like a stub is taken for one, and is fetched again or
  raises an exception (`StubRuns.LookalikeIsNotFinal`, `StubRuns.FinalIffPlain`).
- A label listed without paths reads back from the table as having one empty path
  (`NinjaOutputs.LookupsAgree`); with two owners of a path, table and dictionary can name different ones
  (`NinjaOutputs.OwnersCanDiffer`; `NinjaOutputs.OwnersAgree` says when they do not).
- A JSON file rewritten within the timestamp of the saved table is not seen
  (`OutputsDatabases.RewriteIsSeen`).
- An output that no log has a digest for counts as matching, and one whose digests differ although its action
  did the same on the same inputs is passed over without a word (`ActionDiff.LocalOutputsMatch`,
  `ActionDiff.SilentIff`).
- A download that takes no time is a division by zero, and one that ends before it starts loses its bytes
  (`DownloadProfile.DistributeOverIntervals`, `DownloadProfile.ConservedIff`).
- The position after DWARF include directories is counted in characters, not bytes
  (`DwarfLines.FileTableIsFoundIff`).
- Writable code is counted as code and again as data (`ElfSizes.WritableCodeCountsTwice`,
  `ElfSizes.SizesAddUp`); an alignment of zero makes a segment vanish from the sizes
  (`ElfSizes.ZeroAlignmentVanishes`, `ElfSizes.SpanHoldsSegmentIff`).
- A text proto map in a map raises an exception (`TextProtoParse.NestedMapFails`,
  `TextProtoParse.ConvertsIff`).
- A label with a toolchain may have "//" inside its target, which is refused once the toolchain is gone
  (`GnLabels.QualifyTwiceIff`, `GnLabels.DoubleSlashSlipsThrough`).
- A toolchain option that names the default toolchain by its label, or a toolchain with "//" inside, makes
  labels that are not canonical; the second kind is refused when it is read again
  (`GnLabels.OptionsThatSpoil`, `GnLabels.LabelsAreCanonicalIff`).
- Fusing drops a flag at the end of a command, and joins a bare flag with whatever follows
  (`Flags.FuseUndoesExpandIff`).

## Model

| member | source | states |
|---|---|---|
| StubProtocol.StepKeepsInv | release/rbe/remote_action.py:773-825 | every step of every process, of the locked download, keeps the protocol invariant: the artifact is recoverable, the lock has one live holder, and each process knows only what is still true |
| StubProtocol.RunKeepsInv | release/rbe/remote_action.py:887-941 | the invariant holds in every state of every run, for any number of processes that start, interleave, fail or die at any point |
| StubProtocol.AlwaysRecoverable | release/rbe/remote_action.py:773-825 | in every reachable state the path is the stub, or the path is the artifact, or the backup is the stub; at most one process is inside the lock; no call ended in an exception |
| StubProtocol.OnlyHolderWrites | release/rbe/remote_action.py:887-941 | a step that changes path, backup or temporary file is taken by the live owner of the lock, who still owns it afterwards |
| StubProtocol.OutputIsFinal | release/rbe/remote_action.py:909-941 | once the artifact is in place it stays, whatever happens later: no second fetch, no file changed, and every call that finishes returns 0 |
| StubProtocol.ZeroMeansPresent | release/rbe/remote_action.py:797-825 | where a call has returned 0, the artifact is in place if and only if no process is, or died, between the two renames; otherwise the path is missing and the backup holds the stub |
| StubProtocol.DescriptorZeroKeepsLock | release/rbe/cl_utils.py:753-780 | a lock taken on file descriptor 0 is never released while its owner lives, and nobody else gets in: the release tests the descriptor for truth |
| StubProtocol.LockIsExplained | release/rbe/cl_utils.py:753-780 | in every reachable state a held lock has a live owner, who is inside it or left it behind on descriptor 0 |
| StubProtocol.HolderCanFinish | release/rbe/remote_action.py:909-941 | from every such state the process inside the lock can finish alone, in at most nine steps, and release the lock; with the artifact in place if it has not given up and storage has the blob |
| StubProtocol.WaiterCanEnter | release/rbe/cl_utils.py:753-780 | no deadlock: in every reachable state a waiting process can get the lock once the one inside has finished, unless it was left behind on descriptor 0 |
| StubProtocol.RealFilesAreGood | release/rbe/remote_action.py:834-839 | the assumptions of the protocol lemmas hold for a written stub and its artifact if and only if the artifact cannot be taken for a stub |
| StubRuns.CrashLeavesNoFile | release/rbe/remote_action.py:797-941 | for every stored artifact there is a run in which one process dies between the renames and a second one then returns 0, with no file at the path |
| StubRuns.LookalikeIsNotFinal | release/rbe/remote_action.py:834-839 | for every stored artifact that is taken for a stub there is a run that puts it in place and later fetches again, changes the path or raises |
| StubRuns.FinalIffPlain | release/rbe/remote_action.py:834-941 | on every run the artifact, once in place, is final (same path, same fetches, no exception) if and only if it cannot be taken for a stub |
| StubPass.PassIsDownload | release/rbe/remote_action.py:773-825 | one locked pass, alone, takes the files of the output exactly to what a download, a failed download or a broken-off one makes of them, whatever they were before; a death leaves the old files, the interrupted ones or the new ones |
| StubFiles.ReadUndoesWrite | release/rbe/remote_action.py:706-771 | reading a written stub gives back the same record if and only if every field fits on a line: no line break, no trailing white space |
| StubFiles.ReadIsClean | release/rbe/remote_action.py:748-771 | whatever text is read, a stub that is accepted has fields that fit on a line |
| StubFiles.FilesAreToldApart | release/rbe/remote_action.py:834-839 | a written stub is recognised and reads back; an artifact is recognised as a stub if and only if it is not plain |
| StubTree.OutputTree.Create | release/rbe/remote_action.py:723-746 | the path becomes the stub of the record, the backup is untouched, and one write happens |
| StubTree.OutputTree.Download | release/rbe/remote_action.py:773-941 | the new files are the download of the old ones; it raises exactly on an unreadable stub and returns non-zero exactly when a stub could not be fetched |
| StubTree.OutputTree.Undownload | release/rbe/remote_action.py:842-856 | the new files are the undownload of the old ones; it reports true exactly when a stub backup was moved back |
| StubTree.OutputTree.UpdateStub | release/rbe/remote_action.py:1711-1784 | from consistent files the path then denotes exactly the digest of the record; in preserve mode an output that already denotes it is not written at all |
| StubTree.ShortcutIsRight | release/rbe/remote_action.py:1764-1775 | the digest read off the backup stub is the digest that hashing the output would give |
| StubTree.NewStubDenotes | release/rbe/remote_action.py:706-746 | a stub made from a record denotes the digest of that record |
| StubTree.UpdateIsRight | release/rbe/remote_action.py:1711-1784 | for consistent files, updating keeps them consistent, makes the path denote the digest, and leaves alone an output that already did |
| StubTree.StepKeepsConsistent | release/rbe/remote_action.py:706-941 | each operation, an interrupted download too, keeps the files consistent: a stub reads back, and an artifact beside its stub has the digest the stub names |
| StubTree.RunKeepsConsistent | release/rbe/remote_action.py:706-941 | files stay consistent over every run of creates, downloads, interrupted downloads, undownloads and updates |
| StubTree.UpdateAfterAnyRun | release/rbe/remote_action.py:1711-1784 | after every such run, an update leaves the path denoting exactly the new digest, and the shortcut through the backup agrees with the hash |
| StubTree.UndownloadRestores | release/rbe/remote_action.py:842-856 | undownloading undoes a download that changed anything, and also one that broke off between the two renames |
| StubTree.UpdateOverForeignBytes | release/rbe/remote_action.py:1711-1784 | when bytes from elsewhere stand beside a stub backup, a preserving update is right if and only if the backup does not name the wanted digest or the bytes have it |
| TabularFormat.SortByLabelSorts | release/api/gn_ninja_outputs.py:195-204 | the table rows are the given entries, permuted into strictly increasing label order |
| TabularFormat.ContentIsTable | release/api/gn_ninja_outputs.py:195-204 | the text of the table is its rows, each with a newline, at the computed offsets |
| TabularFormat.TableHitsMatch | release/api/gn_ninja_outputs.py:342-386 | the rows in which the raw search finds the value between tabs are exactly the rows that list it as a path, in order |
| NinjaDictionary.NinjaOutputsJSON.LoadFromJson | release/api/gn_ninja_outputs.py:139-157 | the dictionary holds the entries, and the path map gives each path its last listed owner |
| NinjaDictionary.NinjaOutputsJSON.ComputePathMap | release/api/gn_ninja_outputs.py:153-157 | the path map gives every listed path the label listed last for it, and nothing else |
| NinjaDictionary.NinjaOutputsJSON.GnLabelToPaths | release/api/gn_ninja_outputs.py:165-166 | the paths of the entry with this label, and the empty list when no entry has it |
| NinjaDictionary.NinjaOutputsJSON.PathToGnLabel | release/api/gn_ninja_outputs.py:168-169 | of the entries that list the path, the label of the last; empty when none does |
| NinjaDictionary.LastOwnerOwns | release/api/gn_ninja_outputs.py:153-169 | the path map names a label that does list the path, and none when no entry does |
| NinjaOutputs.NinjaOutputsTabular.LoadFromJson | release/api/gn_ninja_outputs.py:195-204 | the content is a table whose rows are exactly the entries, in strictly increasing label order, so that the searches apply to it |
| NinjaOutputs.NinjaOutputsTabular.LoadFromFile | release/api/gn_ninja_outputs.py:206-212 | accepts exactly the files that saving some content makes, and then has that content; any other file changes nothing |
| NinjaOutputs.NinjaOutputsTabular.SaveToFile | release/api/gn_ninja_outputs.py:214-217 | the saved file is the one that belongs to the content |
| NinjaOutputs.SaveAndLoad | release/api/gn_ninja_outputs.py:206-217 | saving a table and loading the file is accepted, and restores the content |
| TabularSearch.ProbeStart | release/api/gn_ninja_outputs.py:316-340 | wherever the middle byte falls, the probe starts at the start of a whole row between the bounds |
| TabularSearch.ProbeEnd | release/api/gn_ninja_outputs.py:316-340 | the probed row ends at its own newline, inside the bounds and the buffer |
| NinjaOutputs.NinjaOutputsTabular.Probe | release/api/gn_ninja_outputs.py:316-340 | one round of the bisection reads exactly one whole row between the bounds, with its key |
| NinjaOutputs.NinjaOutputsTabular.FindRowStartingWith | release/api/gn_ninja_outputs.py:316-340 | bisection over the raw bytes ends, with its bounds on row boundaries, and returns the row with the key, or nothing when there is none |
| NinjaOutputs.NinjaOutputsTabular.GnLabelToPaths | release/api/gn_ninja_outputs.py:219-227 | the lookup equals dictionary lookup, empty list for unknown labels included, except that a label listed without paths gives one empty path |
| NinjaOutputs.LookupsAgree | release/api/gn_ninja_outputs.py:219-227 | table and dictionary agree on a label if and only if it is not listed with an empty path list |
| TabularSearch.SkipIsSafe | release/api/gn_ninja_outputs.py:342-386 | no match begins inside a false hit, so skipping the length of the value never misses one |
| TabularSearch.OccurrenceStopsShort | release/api/gn_ninja_outputs.py:342-386 | the byte after an occurrence is always inside the buffer |
| NinjaOutputs.NinjaOutputsTabular.FindRowsContainingValue | release/api/gn_ninja_outputs.py:342-386 | the reverse search returns exactly the rows that have the value as a whole path column, in order and once each |
| TabularSearch.FirstMatchIsLeast | release/api/gn_ninja_outputs.py:229-236 | the first matching row is the owner with the least label, and there is one exactly when the path is listed |
| NinjaOutputs.NinjaOutputsTabular.PathToGnLabel | release/api/gn_ninja_outputs.py:229-236 | the label returned owns the path and is the least such label; empty for an unknown path |
| NinjaOutputs.OwnersAgree | release/api/gn_ninja_outputs.py:229-236 | table and dictionary name the same owner if and only if the last listed owner is the least one; always when a path has one owner |
| NinjaOutputs.OwnersCanDiffer | release/api/gn_ninja_outputs.py:153-157 | two owners of one path: the dictionary names one, the table the other |
| OutputsDatabases.OutputsDatabase.Load | release/api/client.py:146-185 | succeeds exactly when the JSON file exists; reuses or rewrites the saved table by the timestamp rule; from a trustworthy directory the database is a fresh conversion of the JSON |
| OutputsDatabases.RunKeepsTrust | release/api/client.py:146-185 | over every run of rewrites and loads with increasing timestamps, a saved table that would be reused equals a fresh conversion |
| OutputsDatabases.LoadAndQuery | release/api/client.py:146-185 | after any such run, a load and both queries answer from the current JSON: the paths listed for a label, unless listed as empty, and the owner of a path with the least label, empty when there is none |
| OutputsDatabases.RewriteIsSeen | release/api/client.py:146-185 | a rewrite of the JSON file is seen by the next load if and only if its timestamp is later than that of the table or it changes nothing |
| ActionDiff.ActionDiffer.TraceArtifactFrom | release/rbe/action_diff.py:125-217 | from any visited set, the walk adds exactly what the path reaches through paths not yet visited, each once, and yields the root causes found there |
| ActionDiff.ActionDiffer.TraceActionsFrom | release/rbe/action_diff.py:240-333 | the same for a pair of actions: it compares command, platform and input set, and goes on through the differing inputs that are outputs |
| ActionDiff.ActionDiffer.TraceInputs | release/rbe/action_diff.py:306-333 | the loop over the differing inputs visits every one of them that lies in the working directory and reports the others |
| ActionDiff.ActionDiffer.TraceArtifact | release/rbe/action_diff.py:109-123 | fully consumed, the trace terminates on every pair of logs, cyclic ones and ones without digests too, has visited exactly the paths the output reaches, each once, and yields exactly the root causes of those paths |
| ActionDiff.SilentIff | release/rbe/action_diff.py:125-217 | the trace passes over an output without a cause or an edge if and only if both logs have it and either its digests agree, a missing one counting as empty, or both actions are known and have the same command, platform and inputs |
| ActionDiff.LocalOutputsMatch | release/rbe/action_diff.py:160-200 | an output without a digest in either log, as after a local action, counts as matching: no cause, and nothing is reached from it |
| ActionDiff.ActionDiffer.TraceActions | release/rbe/action_diff.py:219-238 | the same, started from a pair of actions; nothing when the left action is unknown |
| ActionDiff.ClosedHoldsReachable | release/rbe/action_diff.py:125-217 | a set closed under the edges of the trace holds everything reachable from its members |
| ActionDiff.WalkedThen | release/rbe/action_diff.py:240-333 | two parts of a walk, one after the other, are one walk from both sets of roots |
| ActionDiff.WalkedUp | release/rbe/action_diff.py:125-217 | a path and the walk through its children are the walk from the path |
| DepfileLexer.LexLine | release/rbe/depfile.py:47-108 | the loop that holds a backslash back computes the longest-match token list, or an error on an unknown escape |
| DepfileLexer.UnlexUndoesLex | release/rbe/depfile.py:128-130 | the texts of the tokens of a line, put together, are the line |
| DepfileLexer.LexIsMunched | release/rbe/depfile.py:47-108 | lexed tokens are maximal: none could have taken in what follows it |
| DepfileLexer.MunchedLexes | release/rbe/depfile.py:47-130 | every list of maximal tokens, printed and lexed, comes back |
| DepfileLexer.MapKeepsMunched | release/rbe/depfile.py:117-125 | rewriting paths to paths keeps tokens maximal |
| DepfileLexer.LineStaysLine | release/rbe/depfile.py:133-137 | rewriting the paths of a line leaves it one line |
| DepfileLexer.TransformRewritesTokens | release/rbe/depfile.py:133-137 | every lexable text is its tokens put together; the transformed text lexes to the same tokens with only the path texts rewritten |
| DepfileLexer.TransformComposes | release/rbe/depfile.py:133-137 | transforming by f and then by g is transforming once by their composition, on every text, errors included |
| DepfileParser.ConsumeLineContinuations | release/rbe/depfile.py:140-153 | the stateful filter computes the list without continuations and the newlines after them |
| DepfileParser.ParseOneDep | release/rbe/depfile.py:188-247 | the state machine over the shared iterator parses one dependency, nothing at the end, or a syntax error, and leaves the rest |
| DepfileParser.ParseFilteredTokens | release/rbe/depfile.py:250-255 | the driver loop parses until a call finds nothing |
| DepfileParser.DriveIsParse | release/rbe/depfile.py:188-247 | the state machine equals the grammar: paths, a colon, paths, a newline |
| DepfileParser.ParseIffSpells | release/rbe/depfile.py:250-255 | a token list parses to these dependencies if and only if it spells them: each path token in exactly one of them, in order |
| DepfileParser.LinesLexLikeText | release/rbe/depfile.py:111-114 | lexing a file line by line is lexing its text as a whole |
| DepfileParser.FileParsesExactly | release/rbe/depfile.py:258-279 | a file parses to these dependencies if and only if it lexes and its significant tokens spell them |
| DepfileParser.AnyLayoutParses | release/rbe/depfile.py:258-279 | dependencies laid out with any spacing, comments, continued lines and blank lines parse back to themselves |
| DepfileParser.PrintedParses | release/rbe/depfile.py:258-279 | printing any dependencies and parsing the file gives them back |
| DownloadProfile.DistributeOverIntervals | release/rbe/reproxy_logs.py:41-68 | consecutive intervals, each with its overlap with the event as duty cycle and bytes in proportion; overlaps sum to the duration and bytes to the total; an event of no duration is a division by zero, a backward one yields nothing |
| DownloadProfile.Walk | release/rbe/reproxy_logs.py:57-68 | the cursor loop covers from the floor of the start to the ceiling of the end without gap |
| DownloadProfile.PartsAreShares | release/rbe/reproxy_logs.py:41-68 | what an event adds to any interval is its exact share of it, zero outside |
| DownloadProfile.AddParts | release/rbe/reproxy_logs.py:84-91 | the two arrays gain, in place, exactly the parts at their indices; the sum grows by the bytes of the parts |
| DownloadProfile.DistributeBytesDownloadedOverTime | release/rbe/reproxy_logs.py:71-92 | every interval holds the sum of the shares of all events, no index leaves the arrays, and the total is the bytes of the events that run forward; an error exactly when some event takes no time |
| DownloadProfile.ConservedIff | release/rbe/reproxy_logs.py:71-92 | all bytes are distributed if and only if the events that run backward have none |
| DownloadProfile.MinMaxEventTimes | release/rbe/reproxy_logs.py:193-213 | the pair is the exact minimum of the starts and maximum of the ends over all records, or nothing when there are none |
| DownloadProfile.DownloadIsLogged | release/rbe/reproxy_logs.py:215-243 | every download event is a logged span, shifted by the start |
| DownloadProfile.Profile | release/rbe/reproxy_logs.py:245-271 | over any log, every interval from the least start to the greatest end holds exactly the sum of the shares of the downloads in it, and all intervals together the bytes of those that run forward; no index is out of range |
| DwarfLines.DecodeUleb | release/images/elfinfo.py:720-731 | the shift-and-or loop computes the base-128 value of the digits up to the first without a continuation bit, or to the limit; it fails exactly when it would read past the end of the file |
| DwarfLines.OneDigit | release/images/elfinfo.py:720-731 | one round of shift and or is one digit of the base-128 sum |
| DwarfLines.ReadSpelled | release/images/elfinfo.py:720-731 | reading a ULEB128 number (section 7.6 of DWARF 4) gives its value and moves past it |
| DwarfLines.GenFilePaths | release/images/elfinfo.py:708-736 | for every start and limit the loop reads the entries up to an empty name or the limit, dropping the two fake names, and fails where a number or a terminator is missing |
| DwarfLines.TableIsRead | release/images/elfinfo.py:708-736 | every encoded file table (section 6.2.4 of DWARF 4) is read back: names and directory indices, in order |
| DwarfLines.DirsAreRead | release/images/elfinfo.py:484-494 | every encoded list of directory names is read back |
| DwarfLines.FileTableIsFoundIff | release/images/elfinfo.py:702-705 | the position after the directories is the start of the file table if and only if no directory name has a multi-byte character |
| DwarfLines.UnitIsRead | release/images/elfinfo.py:702-736 | directories and file table of one unit are read back together |
| ElfFile.UnpackUndoesPack | release/images/elfinfo.py:89-233 | unpacking undoes packing for all fields in range, in both byte orders |
| ElfFile.PackUndoesUnpack | release/images/elfinfo.py:89-233 | packing undoes unpacking for all bytes |
| ElfFile.PackUpdate | release/images/elfinfo.py:89-233 | changing one field changes no byte of the others |
| ElfFile.FileHeaderSize | release/images/elfinfo.py:93-126 | the file header has 64 or 52 bytes |
| ElfFile.ProgramHeaderSize | release/images/elfinfo.py:127-148 | a program header has 56 or 32 bytes |
| ElfFile.PhdrTableIsRead | release/images/elfinfo.py:266-268 | any table of program headers, written anywhere in a file, is read back |
| ElfStrip.UsualLayoutIsRead | release/images/elfinfo.py:266-268 | a file header and program headers laid out in the usual way are read back |
| ElfStrip.UsualLayoutIsWellFormed | release/images/elfinfo.py:387-436 | such a file, with a loaded segment that reaches past the headers, meets all that the stripping lemmas ask for |
| ElfStrip.LoadEnd | release/images/elfinfo.py:393-397 | the maximum end of the loaded segments in the file, if there is one |
| ElfStrip.StripKeepsHeaders | release/images/elfinfo.py:387-436 | the stripped file has no sections, and the same program headers as the original |
| ElfStrip.StripKeepsBytes | release/images/elfinfo.py:387-436 | every loaded byte is kept, apart from the three zeroed header fields |
| ElfStrip.StripIsIdempotent | release/images/elfinfo.py:387-436 | stripping a stripped file gives the same file |
| ElfStrip.OldFileMatches | release/images/elfinfo.py:408-418 | the chunk-by-chunk comparison is equality of contents |
| ElfStrip.StrippedFile.Write | release/images/elfinfo.py:387-436 | the file then has the stripped contents; true is returned if and only if it changed; on an error nothing is written |
| ElfSections.AllHarmless | release/images/elfinfo.py:469-480 | true exactly when every section but the first is read and is no left-over; false or an error otherwise, with the section to show for it |
| ElfSections.GetStripped | release/images/elfinfo.py:579-584 | the test for a stripped file is true exactly when no section left in it is an unloaded symbol table or debugging information |
| ElfSections.StrippedReportsStripped | release/images/elfinfo.py:579-584 | a stripped file passes the test for stripped files |
| ElfNotes.GenSegmentNotes | release/images/elfinfo.py:446-467 | the cursor loop over a segment returns its notes in order, or an error where a header leaves the file; each round advances by a header at least |
| ElfNotes.GenNotes | release/images/elfinfo.py:446-467 | the notes of all the note segments, in order |
| ElfNotes.AnyPaddingWorks | release/images/elfinfo.py:446-467 | every note can be laid out with any padding bytes to four-byte boundaries |
| ElfNotes.NotesAreRead | release/images/elfinfo.py:446-467 | any list of notes, laid out anywhere in a file (Note Section of the System V gABI), is read back |
| ElfNotes.GetBuildId | release/images/elfinfo.py:502-509 | the build id is the text of the last non-empty GNU build-id note, and none exactly when there is no such note |
| ElfNotes.HexTellsApart | release/images/elfinfo.py:76-79 | two build ids have the same text only if they have the same bytes |
| ElfNotes.StripKeepsNotes | release/images/elfinfo.py:387-509 | a stripped file has the notes, and so the build id, of the original |
| ElfSizes.RoundsToMultiples | release/images/elfinfo.py:586-611 | the masks round to the nearest multiples of a power-of-two alignment, below and above |
| ElfSizes.SizesAddUp | release/images/elfinfo.py:586-654 | code, read-only data, data and bss, with the gaps and the uncounted parts, make up the memory size, except that writable code counts twice; an error exactly when nothing is loaded |
| ElfSizes.DataAndBssAreSpans | release/images/elfinfo.py:599-654 | data and bss together are the whole rounded spans of the writable segments |
| ElfSizes.SizesAreWithinMemory | release/images/elfinfo.py:586-654 | for ascending segments without writable code, the four sizes together are at most the memory size |
| ElfSizes.WritableCodeCountsTwice | release/images/elfinfo.py:613-648 | one writable, executable segment makes the sizes exceed the memory size |
| ElfSizes.ZeroAlignmentVanishes | release/images/elfinfo.py:599-611 | a segment with alignment zero has size zero in every count |
| ElfSizes.SpanHoldsSegmentIff | release/images/elfinfo.py:586-611 | for alignments that are zero or a power of two, the pages counted for a segment hold all of it if and only if the alignment is not zero or the segment ends at address zero |
| TextProtoLexer.LexLine | release/rbe/textpb.py:41-90 | the loop computes the tokens by the first rule that matches, or an error |
| TextProtoLexer.UnlexUndoesLex | release/rbe/textpb.py:41-90 | the texts of the tokens, put together, are the line |
| TextProtoLexer.LexUndoesUnlexIff | release/rbe/textpb.py:41-90 | tokens put together lex to themselves if and only if each is proper and ends where the next begins: an unquoted value before white space, with no later quotation mark that makes a string of it, and blanks before something else |
| TextProtoLexer.SpacedIsApart | release/rbe/textpb.py:41-90 | every list of printable tokens can be printed with single blanks |
| TextProto.ReadIffSpells | release/rbe/textpb.py:125-181 | tokens are read to the end if and only if they spell a message, and then as that message |
| TextProto.ReadIsBalanced | release/rbe/textpb.py:125-181 | unbalanced blocks are always rejected |
| TextProtoDict.CollectGroups | release/rbe/textpb.py:137-179 | grouping keeps every value under its name, once and in order |
| TextProtoDict.MapIsLosslessIff | release/rbe/textpb.py:110-122 | the map holds every pair, in order, if and only if no key is repeated |
| TextProtoDict.MapKeepsPairs | release/rbe/textpb.py:110-122 | a list of key-value blocks becomes the map with exactly those pairs, in order, if and only if the keys are distinct |
| TextProtoDict.StripUndoesQuoteIff | release/rbe/textpb.py:120-120 | the key in the map is the quoted text if and only if that text has no quotation mark at its ends |
| TextProtoDict.LastPairWins | release/rbe/textpb.py:110-122 | a repeated key keeps its last value |
| TextProtoParse.FieldsAreGrouped | release/rbe/textpb.py:125-181 | a parsed message has, under each name, the parsed values written under that name in order, at every depth: a list, or a map when all of them are key-value pairs |
| TextProtoParse.ConvertsIff | release/rbe/textpb.py:110-181 | conversion succeeds if and only if no map, at any depth, has a block as a key or a map as a value |
| TextProtoParse.NestedMapFails | release/rbe/textpb.py:110-122 | a map in a map raises, whatever its keys and delimiters |
| TextProtoParse.ParseBlock | release/rbe/textpb.py:125-181 | the recursive parser over the shared iterator reads one block, converts it, and leaves the rest; it fails exactly when one of the two does |
| TextProtoParse.Parse | release/rbe/textpb.py:184-204 | lines parse if and only if they spell a message that converts, and then to its conversion |
| TextProtoParse.AnyLayoutIsRead | release/rbe/textpb.py:184-204 | a message laid out in lines in any way, with any white space between tokens, is read back |
| GnLabels.QualifiedTarget | release/api/gn_labels.py:47-55 | qualifying a target adds its name once, and no slash or parenthesis that was not there |
| GnLabels.QualifyTwiceIff | release/api/gn_labels.py:87-100 | qualifying is idempotent if and only if the target has no "//" past the start or a toolchain stays on; otherwise the second time fails |
| GnLabels.DoubleSlashSlipsThrough | release/api/gn_labels.py:30-44 | a label with an empty toolchain qualifies once and is refused the second time |
| GnLabels.CanonicalParts | release/api/gn_labels.py:87-100 | a canonical label has a named target and a settled toolchain that is not the default |
| GnLabels.BuildArgsToLabels | release/api/gn_labels.py:120-148 | the loop computes the labels of the arguments, each under the toolchain in force, or the first error |
| GnLabels.BuildArgsRoundTripIff | release/api/gn_labels.py:102-148 | the build arguments of a canonical label name exactly that label, through short names, aliases and explicit toolchains, if and only if its target has no "//" past the start |
| GnLabels.QualifiedRoundTripIff | release/api/gn_labels.py:76-148 | a label that qualifies survives the trip through build arguments if and only if its target has no "//" past the start |
| GnLabels.LabelsAreCanonicalIff | release/api/gn_labels.py:120-148 | all labels made from a list of arguments are canonical if and only if, at each one, a toolchain taken over from an option is not the default one and has no "//" past the start, its own toolchain is not the default one or its target has no "//" past the start, and a Ninja path belongs to a canonical label |
| GnLabels.ToolchainOptionIff | release/api/gn_labels.py:120-148 | a label after a toolchain option is canonical if and only if that toolchain is not the default one and has no "//" past the start |
| GnLabels.OptionsThatSpoil | release/api/gn_labels.py:120-148 | the default toolchain given by its label, and a toolchain with "//" in it, make every label after them not canonical; the alias of the default toolchain does not |
| Flags.ExpandFusedFlags | release/rbe/cl_utils.py:292-321 | each token is split at the first listed flag that it starts with and exceeds |
| Flags.FuseExpandedFlags | release/rbe/cl_utils.py:324-349 | each flag is joined with the token after it; a flag at the end is dropped |
| Flags.FuseUndoesExpandIff | release/rbe/cl_utils.py:292-349 | fusing undoes expanding if and only if no token is a bare flag that expansion leaves whole |
| Flags.Sift | release/rbe/cl_utils.py:606-649 | the loop returns the forwarded texts and the tokens left over, in order |
| Flags.SiftMerges | release/rbe/cl_utils.py:606-649 | with any renaming, the renamed command is the forwarded tokens and the rest merged, both in order |
| Flags.FateOfNamed | release/rbe/cl_utils.py:606-649 | with unchanged names, a token is forwarded exactly when it is a known flag or the value of one |
| Flags.SiftSeparates | release/rbe/cl_utils.py:606-649 | with unchanged names, the command is the forwarded tokens and the rest merged, both in order |
| Flags.SiftInTwoStages | release/rbe/cl_utils.py:606-649 | sifting with new names is sifting with unchanged names and then renaming what was sifted out |
| Flags.SiftingAgainFindsNothing | release/rbe/cl_utils.py:606-649 | sifting what was left forwards nothing and changes nothing |

## Left out

- Subprocess calls, asyncio, argument parsing, printing, log messages and network clients.
- The remote action's own run, local and remote comparison, and error diagnosis.
- Stub outputs that are directories, file modes and modification times; the fetch itself is a parameter that
  gives the bytes of a digest or fails.
- StubFiles.ReadIsClean: paths are texts; the code makes a `Path` of one, which drops a last "/.", so that a
  path such as "a /." is read as one that ends in a blank.
- StubProtocol.RunKeepsInv: a download stops with the process that started it; a child process that outlives a
  killed caller and goes on writing the temporary file is not modelled.
- Calls of the unlocked download, and outputs written by others, except where
  `StubTree.UpdateOverForeignBytes` speaks of them.
- NinjaOutputs.NinjaOutputsTabular.GnLabelToPaths, LoadFromJson, PathToGnLabel: entries are ASCII without tabs
  or newlines and with distinct labels, as the file format demands; other characters are stored in one
  encoding and asked for in another.
- NinjaOutputs.NinjaOutputsTabular.PathToGnLabel: the path is not empty and has no tab or newline; on the
  empty path the search does not advance, and the loop does not end.
- The closest-match suggestions for misspelled labels.
- ActionDiff.ActionDiffer.TraceArtifact: the tool that shows an action is a total function of its digest; the
  generators are modelled as run to their end, so laziness is not seen.
- The command-line flags for response files and their comments.
- DownloadProfile.DistributeOverIntervals: floating-point rounding is not modelled, the arithmetic is exact;
  the interval is positive.
- DwarfLines.TableIsRead: names are bytes; decoding them as UTF-8, which can raise, is not modelled. The unit
  headers before the directories are not part of this model.
- ElfNotes.GetBuildId: note names are bytes; decoding them as UTF-8, which can raise, is not modelled.
- ElfStrip.StripKeepsHeaders: asks that the program headers follow the file header and lie in the loaded part,
  by their own size; the code checks the latter by the size that the header field names.
- Dynamic sections, sonames, interpreters and relocation counts; section names are bytes, not decoded.
- ElfSizes.SizesAreWithinMemory: asks for power-of-two alignments, ascending segments and no more bytes in the
  file than in memory; SizesAddUp asks for none of these.
- TextProtoLexer.SpacedIsApart: an unquoted value that begins with a quotation mark is not printable, since a
  later quotation mark could close it; LexUndoesUnlexIff says when it can stand.
- TextProtoParse.Parse: lexing is not interleaved with parsing, so of two errors the other one may be
  reported.
- GnLabels.QualifyTwiceIff, BuildArgsRoundTripIff, QualifiedRoundTripIff, LabelsAreCanonicalIff,
  ToolchainOptionIff, OptionsThatSpoil: the CPU names that toolchain aliases are made of have no "(" and no
  "//".
- Flags.FuseUndoesExpandIff, SiftInTwoStages: the empty string is not a flag.
- Metadata generators, archivers, document builders and trace converters: they would add only easy members.
