# tuf core, modelled in Dafny

tuf is a tool for moving Terraform blocks between files and workspaces. This project models four parts of it and proves properties about them.

- **Run capper** (`pkg/file/contents.go`). `DeleteOverNOccurrences` caps a run of back-to-back copies of a byte pattern near an anchor position at N copies. It works on a buffer in place.
- **Address descriptor** (`pkg/parser/blockdescription.go`). It parses a dotted address such as `module.NAME` or `TYPE.NAME` into a module or resource description. It matches block headers, names the destination file and gives the address back.
- **Move pipeline** (`pkg/parser/moveblock.go`). `MoveOptions.validate` checks the options. `MoveHclBlock` searches the source files for the first matching block and copies its bytes into the destination file, with newlines around them. It then cuts the block out of its source file and tidies the newlines left behind.
- **Workspace fingerprints** (`pkg/state/workspace.go`, `pkg/state/workspacemgr.go`, `pkg/file/integrity.go`, `pkg/file/dirinfo.go`). A workspace records the digest of every Terraform file of a directory. Validation recomputes the digests and reports every difference. The manager adds workspaces and validates all of them.

## Files

| file | module | what it holds |
|---|---|---|
| `wrappers.dfy` | `Wrappers` | `Option` and `Result` |
| `filesystem.dfy` | `FileSystem` | the file system as a value, plus `path.Join`, `filepath.Base` and `filepath.Abs` |
| `contents.dfy` | `Contents` | the run capper |
| `blockdescriptions.dfy` | `BlockDescriptions` | the address descriptor |
| `moveblock.dfy` | `MoveBlock` | the move pipeline and the `MoveOptions` class |
| `dirinfo.dfy` | `TerraformFiles` | the Terraform file listing |
| `integrity.dfy` | `Integrity` | the digest map |
| `workspaces.dfy` | `Workspaces` | workspace validation and the `WorkspaceMgr` class |

## How the model is set up

**The file system is a value.** `Fs` holds regular files (path to bytes) and directory listings (path to entries, in listing order). Every read is a function of this value, and every write returns a new one. Bytes are `bv8`.

**Foreign code becomes parameters.** These parts of the program are outside the model, so each one is passed in:
- the HCL parser: a function from bytes to blocks with byte ranges;
- the MD5 digest: a function from bytes to a 32-character string;
- the working directory;
- the fresh uuid.

**Specification functions and methods.** The program's loops become methods, and each method is proved equal to a specification function:
- `DeleteOverNOccurrences` equals `CapRun`. It works in place on an array, as Go's `append` does on the slice it was given.
- `MoveOptions.Validate` equals `Validation`.
- `FindBlock` equals `Locate`.
- `DeleteRange` equals `Deletion`.
- `GenerateMd5ForFiles` equals `Md5s`.
- `GetAllTerraformFilesInDirectory` equals `TerraformFilesIn`.
- `ValidateWorkspace` equals `Validation`.
- `WorkspaceMgr.Validate` equals `Failures`.

The lemmas state the properties of these specification functions.

**Parameters for the Findings.** At six places the code departs from its own tests or from what it evidently intends (see "## Findings"). At each of those places the model takes a parameter that chooses the code as written or the intended behaviour:
- `MoveBlock.Revision` covers the four places in the move pipeline.
- `Workspaces.Layout` covers the listing extension and the digest key rule.

Two claims made about the program do not hold for its code, and the model follows the code:
- The capping is described as idempotent. It is not, for a fixed anchor: see `Contents.CapRunNotIdempotent`.
- The copy is described as appending to the destination. It does not: see the Findings row for pkg/parser/moveblock.go:145-155 and `MoveBlock.CopyOverwritesDestination`.

## Model

| member | source | states |
|---|---|---|
| FileSystem.Abs | pkg/state/workspacemgr.go:37-40 | the absolute form of a path is absolute, and an absolute path is kept as is |
| FileSystem.OpenCreate | pkg/parser/moveblock.go:145-148 | opening for write succeeds exactly for a non-empty path that names no directory and either is a file or has an existing parent directory; a new name in a missing directory fails as not existing; an opened file yields its bytes, or none for a file it creates |
| FileSystem.BaseOfJoin | pkg/state/workspacemgr.go:57 | the base name of a directory joined with an entry name is that entry name |
| Contents.Probe | pkg/file/contents.go:43-61 | the probe yields the highest position at or below the anchor, within the pattern's length, where a copy starts; positions it passes hold no copy |
| Contents.RunEnd | pkg/file/contents.go:83-96 | the run scan stops inside the content, at a position where no copy starts |
| Contents.RunIsRepeat | pkg/file/contents.go:83-96 | the stretch the run scan passes over is exactly RunCount back-to-back copies of the pattern |
| Contents.RunStart | pkg/file/contents.go:63-67 | stepping back reaches a position with a copy and no copy just before it, and the run ends where the run from the hit ends |
| Contents.KeepEnd | pkg/file/contents.go:69-81 | stepping over kept copies stays within the run and ends inside the content |
| Contents.KeepEndIsRepeat | pkg/file/contents.go:69-81 | the kept stretch is min(k, n) copies of an n-copy run, and the other copies follow it |
| Contents.CapRun | pkg/file/contents.go:36-99 | the result never grows; it is the content unchanged when the anchor is past the end, or the pattern is longer than the content or empty |
| Contents.CapRunCutsOneSpan | pkg/file/contents.go:98 | the result is the content with one span cut out, everything else kept in order |
| Contents.CapRunWithoutMatch | pkg/file/contents.go:43-61 | the content is unchanged when no probe position within the pattern's length of the anchor holds a copy |
| Contents.CapRunFindsMaximalRun | pkg/file/contents.go:43-96 | the run worked on contains the probe hit, which lies within the pattern's length of the anchor; it is maximal, with no copy just before or just after it |
| Contents.CapRunReplacesRun | pkg/file/contents.go:36-99 | a run of n copies is replaced by min(occurrences, n) copies, and everything before and after the run is unchanged |
| Contents.CapRunNeverPads | pkg/file/contents.go:70-81 | a run holding no more copies than occurrences is left exactly as it is |
| Contents.CapRunDeletesWholeCopies | pkg/file/contents.go:84-98 | the deleted span is whole copies of the pattern, up to a position that holds no copy |
| Contents.CapRunKeepsLast | pkg/file/contents.go:69-98 | keeping at least one copy, the capper never changes the last element |
| Contents.CapRunKeepsOthers | pkg/file/contents.go:84-98 | every element that is not in the pattern keeps its number of occurrences |
| Contents.TrimsTrailingRun | pkg/parser/moveblock.go:106 | anchored at the last element with one copy kept, a trailing run of a one-element pattern shrinks to one element, and content not ending in that element is left alone |
| Contents.DeleteOverNOccurrences | pkg/file/contents.go:36-99 | the buffer prefix it returns is the CapRun of the old content; bytes past the returned length are as the buffer held them |
| Contents.FindWindow | pkg/file/contents.go:37-96 | the span the loops find is the one whose removal gives CapRun |
| Contents.CapRunFromLoops | pkg/file/contents.go:63-98 | the probe hit, run start, keep end and run end together give CapRun's result |
| Contents.ProbeBack | pkg/file/contents.go:44-61 | the first loop computes Probe |
| Contents.BacktrackRun | pkg/file/contents.go:63-67 | the second loop computes RunStart |
| Contents.SkipCopies | pkg/file/contents.go:69-81 | the third loop computes KeepEnd, and it gives up only where keeping deletes nothing |
| Contents.ExtendRun | pkg/file/contents.go:83-96 | the fourth loop computes RunEnd |
| Contents.Splice | pkg/file/contents.go:98 | the append moves the tail down in place; the prefix is the content with the span cut out, and the rest of the buffer is unchanged |
| Contents.FileEndsWith | pkg/file/contents.go:11-33 | never true when the file is shorter than the suffix |
| Contents.FileEndsWithSuffix | pkg/file/contents.go:11-33 | true exactly when the file's bytes end with the given bytes |
| Contents.CapRunKeepsTwo | pkg/file/contents_test.go:122-130 | "aaaa", "a", 0, 2 gives "aa" |
| Contents.CapRunKeepsOneInside | pkg/file/contents_test.go:132-140 | "bcaxyzxyzxyzdd", "xyz", 5, 1 gives "bcaxyzdd" |
| Contents.CapRunDeletesWholeRun | pkg/file/contents_test.go:172-180 | "ababab", "ab", 0, 0 gives "" |
| Contents.CapRunOverlappingPattern | pkg/file/contents_test.go:182-190 | "aaaa", "aaa", 3, 0 gives "a" |
| Contents.CapRunReachesBack | pkg/file/contents_test.go:192-200 | "ababababab", "ab", 9, 1 gives "ab" |
| Contents.CapRunAnchorAtRunEnd | pkg/file/contents_test.go:202-210 | "abcxyzxyz", "xyz", 5, 0 gives "abc" |
| Contents.CapRunNotIdempotent | pkg/file/contents.go:36-99 | capping twice at one anchor can delete more than capping once |
| Contents.FileEndsWithExamples | pkg/file/contents_test.go:24-72 | the five cases of the suffix test, including an empty file |
| BlockDescriptions.Split | pkg/parser/blockdescription.go:81 | splitting on dots gives one piece more than there are dots, and no piece holds a dot |
| BlockDescriptions.JoinSplit | pkg/parser/blockdescription.go:81 | joining the pieces with dots gives the address back |
| BlockDescriptions.NewModule | pkg/parser/blockdescription.go:80-91 | only "module.NAME" with a dot-free NAME is accepted; an address without exactly one dot is refused for its part count |
| BlockDescriptions.NewResource | pkg/parser/blockdescription.go:93-101 | exactly the addresses with one dot are accepted, as TYPE.NAME, empty pieces included |
| BlockDescriptions.New | pkg/parser/blockdescription.go:104-126 | New succeeds exactly for addresses with one dot, and an address without a dot has too few parts |
| BlockDescriptions.NewAcceptsExactly | pkg/parser/blockdescription.go:104-126 | New yields a description exactly when the description is well formed and its address is the one given |
| BlockDescriptions.AddressOfNew | pkg/parser/blockdescription.go:53-77 | address() inverts New |
| BlockDescriptions.NewOfAddress | pkg/parser/blockdescription.go:104-126 | New inverts address() exactly on well-formed descriptions |
| BlockDescriptions.NewRefusal | pkg/parser/blockdescription.go:113-123 | with two or more dots, New refuses with the part-count error of the kind the first piece names |
| BlockDescriptions.NewRefusesThreeParts | pkg/parser/blockdescription_test.go:40-50 | three dotted pieces are refused whatever the first piece is |
| BlockDescriptions.Matches | pkg/parser/blockdescription.go:36-69 | a block matches exactly when its type keyword and its labels are those of the description |
| BlockDescriptions.MatchesOneDescription | pkg/parser/blockdescription.go:36-69 | two descriptions that match one block are the same description |
| BlockDescriptions.DestinationFileName | pkg/parser/blockdescription.go:49-73 | every destination file name ends in ".tuf.tf" |
| BlockDescriptions.DestinationsShared | pkg/parser/blockdescription.go:49-73 | two blocks share a destination file exactly when they are the same module or both resources |
| MoveBlock.Resolve | pkg/parser/moveblock.go:46-73 | the checks pass exactly when one of each pair is set and the description is given or New accepts the address; New's error is passed on; a resolved address round-trips |
| MoveBlock.Validation | pkg/parser/moveblock.go:44-91 | validate succeeds exactly when the checks pass and the source is a file or a listable directory; it changes only the description and the file list; the list is [FromFile] or the regular entries in listing order |
| MoveBlock.SourceNamesMembers | pkg/parser/moveblock.go:83-87 | a name is listed exactly when a regular entry of the directory gives it |
| MoveBlock.AsWrittenNamesAreBare | pkg/parser/moveblock.go:85 | as written, no listed name holds a separator |
| MoveBlock.IntendedSourcesAreFiles | pkg/parser/moveblock.go:79-87 | with entries joined to their directory, every listed name is a regular file |
| MoveBlock.ValidatedOptionsAreComplete | pkg/parser/moveblock.go:44-91 | after a successful validate there is one source, one destination and a description whose address is the address given |
| MoveBlock.MoveOptions.constructor | pkg/parser/moveblock.go:25-41 | a MoveOptions literal holds the given fields and an empty file list |
| MoveBlock.MoveOptions.Validate | pkg/parser/moveblock.go:44-91 | the error and the updated fields are those of Validation on the old fields |
| MoveBlock.ListSources | pkg/parser/moveblock.go:83-87 | the directory listing loop keeps exactly the regular files, in listing order, as SourceNames gives them |
| MoveBlock.Parse | pkg/parser/moveblock.go:170-173 | parsing succeeds exactly when the file exists and the parser accepts it; any failure names the file |
| MoveBlock.FirstMatch | pkg/parser/moveblock.go:178-179 | the index found is the first block in document order that matches |
| MoveBlock.Locate | pkg/parser/moveblock.go:169-195 | a hit is a matching block of a listed file that exists, and its range lies inside that file |
| MoveBlock.LocateFindsFirst | pkg/parser/moveblock.go:169-191 | first match wins: the hit is the first matching block of its file, and every earlier file parsed and held none |
| MoveBlock.LocateStopsAtParseFailure | pkg/parser/moveblock.go:170-173 | a parse failure ends the search at the first file that fails, after files that parsed without a match |
| MoveBlock.LocateFindsNothing | pkg/parser/moveblock.go:169-195 | nothing is found exactly when every file parses and none holds a matching block |
| MoveBlock.FindBlock | pkg/parser/moveblock.go:169-195 | the nested search loop computes Locate |
| MoveBlock.FindInFile | pkg/parser/moveblock.go:178-179 | the search over one file's blocks returns the first block the description matches, or none |
| MoveBlock.RelocationNeverInvalid | pkg/parser/moveblock.go:169-195 | with consistent options and a sound parser, moving a block never fails for invalid options |
| MoveBlock.Prettify | pkg/parser/moveblock.go:119-133 | one separator always follows the copy, and one precedes it exactly when the destination is non-empty and does not end in one; appended, the copy starts a line of its own |
| MoveBlock.Written | pkg/parser/moveblock.go:145-155 | as written the bytes replace the destination's prefix, and the rest of the file is kept; intended, they are appended |
| MoveBlock.CopyRange | pkg/parser/moveblock.go:136-161 | copying fails exactly for an unreadable source or an unopenable destination; otherwise only the destination changes, it holds the written prettified copy, and no file shrinks |
| MoveBlock.Deletion | pkg/parser/moveblock.go:94-115 | only the source file changes; it holds the cut content with the newline run at the cut capped at two and the trailing run at one |
| MoveBlock.DeleteRange | pkg/parser/moveblock.go:94-115 | the in-place cut and the two capping passes compute Deletion |
| MoveBlock.CutAndTidy | pkg/parser/moveblock.go:99-106 | the cut and both capping passes compute Tidy of the content with the block's bytes removed |
| MoveBlock.CapBytes | pkg/parser/moveblock.go:103-106 | one capping pass over a byte slice computes CapRun with the newline pattern |
| MoveBlock.TidyEnding | pkg/parser/moveblock.go:103-106 | the tidied source keeps its last byte and never ends in two newlines |
| MoveBlock.TidyRemovesOnlyPattern | pkg/parser/moveblock.go:99-106 | tidying removes newlines only; every other byte keeps its count |
| MoveBlock.Destination | pkg/parser/moveblock.go:182 | as written the copy goes to ToFile; intended, a destination directory yields the description's file name inside it |
| MoveBlock.Relocation | pkg/parser/moveblock.go:169-195 | a failed search, copy or delete leaves the file system unchanged; a move keeps it consistent and its directories unchanged |
| MoveBlock.MoveOutcome | pkg/parser/moveblock.go:164-196 | a failed move changes nothing, and a move keeps the file system consistent |
| MoveBlock.MoveHclBlock | pkg/parser/moveblock.go:164-196 | the options become the validated options, and the file system and the error are MoveOutcome's |
| MoveBlock.ValidationFailureReadsAsNotFound | pkg/parser/moveblock.go:165 | as written, a failed validation of fresh options reports that no block was found |
| MoveBlock.IntendedReportsValidationFailure | pkg/parser/moveblock.go:165 | intended, the move fails with a validation error exactly when validation fails with it |
| MoveBlock.MissingDestinationDirectoryFails | pkg/parser/moveblock.go:145-148 | a found block whose destination is a new file in a missing directory is not moved: the move fails at the open, and no file is written |
| MoveBlock.DirectoryDestinationFailsAsWritten | pkg/parser/moveblock.go:182 | as written, a move to a destination directory that finds its block fails to open the destination "" |
| MoveBlock.IntendedMoveRelocatesBlock | pkg/parser/moveblock.go:178-190 | intended, when the destination is a file other than the block's source and can be opened (an existing file, or a new name in an existing directory), a found block is appended to the destination on a line of its own and cut out of its tidied source; no other file changes |
| MoveBlock.IntendedMoveWithinFile | pkg/parser/moveblock.go:178-190 | intended, when the destination is the block's own source file, the copy is appended to that file and the original range is cut out: the file holds the rest of its content, then the block on a line of its own, tidied; no other file changes |
| MoveBlock.RelocatesWithinFile | pkg/parser/moveblock.go:180-186 | a relocation into the block's own source file appends the prettified copy, then cuts the original range, which still holds the block |
| MoveBlock.AppendToOwnFile | pkg/parser/moveblock.go:136-160 | copying a range of a file into that same file appends the prettified copy to it |
| MoveBlock.BareNamesMissTheFiles | pkg/parser/moveblock.go:85 | with /src holding main.tf, the search opens "main.tf" and fails as written, and opens "/src/main.tf" as intended |
| MoveBlock.CopyOverwritesDestination | pkg/parser/moveblock.go:145-155 | moving "A" into "x\n" leaves "A\n" as written, and "x\nA\n" when appending |
| TerraformFiles.Ext | pkg/file/dirinfo.go:28 | the extension is empty or starts with a dot, and it is a suffix of the path holding no separator |
| TerraformFiles.TerraformFilesIn | pkg/file/dirinfo.go:13-34 | the listing fails exactly when the path is not a directory, with the not-a-directory error for a file |
| TerraformFiles.GetAllTerraformFilesInDirectory | pkg/file/dirinfo.go:13-34 | the stat, the listing and the filter loop compute TerraformFilesIn |
| TerraformFiles.SelectedFrom | pkg/file/dirinfo.go:27-31 | each listed path is a qualifying entry joined to the directory |
| TerraformFiles.SelectedKeeps | pkg/file/dirinfo.go:27-31 | each qualifying entry is listed under its joined path |
| TerraformFiles.SelectedMembers | pkg/file/dirinfo.go:27-31 | a path is listed exactly when a qualifying entry joins to it |
| TerraformFiles.ListedPathsAreFiles | pkg/file/dirinfo.go:29 | in a consistent file system every listed path is a regular file |
| TerraformFiles.NoneQualifyAsWritten | pkg/file/dirinfo.go:28 | no entry has the extension "tf" |
| TerraformFiles.NothingQualifiesAsWritten | pkg/file/dirinfo.go:10-28 | as written, every successful listing is empty |
| TerraformFiles.ExtOfTf | pkg/file/dirinfo.go:28 | the extension of "STEM.tf" is ".tf" |
| TerraformFiles.IntendedListsTerraformFiles | pkg/file/dirinfo_test.go:29-38 | with the ".tf" extension every regular STEM.tf entry is listed under its joined path |
| Integrity.HashOne | pkg/file/integrity.go:17-39 | one path fails exactly when it is missing or a directory, and otherwise it maps to the digest of its content |
| Integrity.GenerateMd5ForFiles | pkg/file/integrity.go:13-43 | the loop computes Md5s |
| Integrity.FailureSticks | pkg/file/integrity.go:16-40 | once a path fails, the call's result is that failure |
| Integrity.Md5sFailsOnFirst | pkg/file/integrity.go:16-40 | the call fails exactly when some path cannot be hashed, with the error of the first such path |
| Integrity.KeysOf | pkg/file/integrity.go:39 | there are no more keys than paths |
| Integrity.Md5sKeys | pkg/file/integrity.go:16-40 | on success no path failed, the keys are those of the paths, and the map has at most one entry per path |
| Integrity.Md5sValues | pkg/file/integrity.go:39 | each key holds the digest of the last path with that key, so a later path with the same base name overwrites an earlier one |
| Integrity.Md5sByPath | pkg/file/integrity_test.go:113-118 | under full-path keys every path maps to the digest of its own content |
| Integrity.BaseKeysHaveNoSeparator | pkg/file/integrity.go:39 | no base-name key holds a separator, except "/" |
| Integrity.PathKeysAreListed | pkg/file/integrity.go:39 | full-path keys are listed paths |
| Integrity.Md5sAfterWrite | pkg/file/integrity.go:16-40 | under full-path keys, rewriting one file changes its own entry to the digest of the new bytes and no other entry |
| Integrity.Md5sDependsOnContent | pkg/file/integrity.go:13-43 | the result depends only on what the listed paths hold |
| Workspaces.LiveDigests | pkg/state/workspace.go:137-152 | the listing fails exactly when the absolute path is not a directory |
| Workspaces.Md5ForTerraformFiles | pkg/state/workspace.go:137-152 | the absolute path, the listing and the digests, with each error passed on, compute LiveDigests |
| Workspaces.ValidateWorkspace | pkg/state/workspace.go:93-113 | the comparison loop and the count check compute Validation |
| Workspaces.CompareFiles | pkg/state/workspace.go:100-107 | the comparison loop reports each recorded file whose digest differs, in order, as FileMismatches |
| Workspaces.FileMismatchesMembers | pkg/state/workspace.go:100-107 | a file's error is reported exactly when the live digest under its joined path differs, a missing key reading as "" |
| Workspaces.FileMismatchesEmpty | pkg/state/workspace.go:100-107 | there is no per-file error exactly when no stored file is flagged |
| Workspaces.ComparisonCountLast | pkg/state/workspace.go:108-110 | the count error is reported exactly when the counts differ, and it comes last |
| Workspaces.ValidationPasses | pkg/state/workspace.go:93-113 | validation passes exactly when the digests are computed, no file is flagged and the counts agree; a digest failure is returned before any comparison |
| Workspaces.AddOutcome | pkg/state/workspacemgr.go:34-53 | the add succeeds exactly for a directory whose live digests compute, and records those digests; the stat error is reported exactly for a missing path, the not-a-directory error exactly for a file |
| Workspaces.FilesFor | pkg/state/workspacemgr.go:55-60 | one recorded file per digest-map key |
| Workspaces.WorkspaceMgr.constructor | pkg/state/workspacemgr.go:82-87 | a new manager has no workspaces and the default Terraform metadata |
| Workspaces.WorkspaceMgr.AddWorkspace | pkg/state/workspacemgr.go:34-65 | on failure nothing changes; on success exactly one workspace is appended, with the absolute path, the uuid and one file per digest-map entry, named by base name |
| Workspaces.WorkspaceMgr.Validate | pkg/state/workspacemgr.go:68-79 | every workspace is validated in order, and each failure is reported under its uuid |
| Workspaces.FailuresEmpty | pkg/state/workspacemgr.go:68-79 | the manager reports nothing exactly when every workspace validates |
| Workspaces.FailuresReportEach | pkg/state/workspacemgr.go:68-79 | each failing workspace is reported, with its uuid and its own error |
| Workspaces.AsWrittenRecordsNothing | pkg/state/workspacemgr.go:50-60 | as written, an added workspace records no files |
| Workspaces.JoinedIsNoBaseKey | pkg/state/workspace.go:101 | a path joined under an absolute directory is never a base-name key |
| Workspaces.BaseKeysFlagEveryFile | pkg/state/workspace.go:100-107 | with base-name keys, every stored file with a non-empty digest is flagged |
| Workspaces.BaseKeysFlagFreshWorkspace | pkg/state/workspace.go:101 | with base-name keys, a workspace just recorded, validated against the unchanged directory, reports an error for each of its files |
| Workspaces.AllFlaggedReported | pkg/state/workspace.go:100-107 | when every file is flagged, each file gets its own error |
| Workspaces.AddThenValidateIsClean | pkg/state/workspacemgr.go:34-65 | with the intended layout, a workspace just recorded validates cleanly against the unchanged directory |
| Workspaces.DriftIsReported | pkg/state/workspace.go:93-113 | with the intended layout, rewriting one recorded file so that its digest changes makes validation report exactly one error, naming that file with its stored and its new digest, and no count error |
| Workspaces.DigestsAfterWrite | pkg/state/workspace.go:137-152 | after one recorded file is rewritten, the live digests are the recorded ones with that file's entry replaced by the digest of its new bytes |
| Workspaces.OneChangedKey | pkg/state/workspace.go:100-110 | against the recorded map with one digest replaced, the comparison is one error for that file alone |
| Workspaces.FlaggedOnlyAt | pkg/state/workspace.go:101-102 | only the file whose digest was replaced is flagged |
| Workspaces.OnlyOneFlagged | pkg/state/workspace.go:100-107 | when exactly one stored file is flagged, the per-file errors are that file's error alone |
| Workspaces.RecordedUnderJoinedPaths | pkg/state/workspacemgr.go:54-60 | with the intended layout, each recorded key is the directory joined with the base name it stores |

## Left out

- File-system I/O is a value. Permission bits, write failures and `io.Writer.Write` errors are not modelled.
- FileSystem.OpenCreate: a file it creates is not added to its parent directory's listing. No operation of the model lists a directory after a move, so nothing reads the missing entry.
- Relative paths are map keys as given. They are not resolved against the working directory, except by `filepath.Abs` in the workspace code. So "main.tf" and "/src/main.tf" are two unrelated files even when the program runs from /src, and aliasing between a relative source name and an absolute destination is not modelled.
- `os.ReadDir` returns entries sorted by name. The model takes the listing order a directory holds as given.
- Paths are not cleaned: `path.Join` and `filepath.Abs` do not resolve "." or "..". The error `filepath.Abs` returns when the working directory cannot be read is not modelled.
- HCL parsing (`hclparse`, moveblock.go:167-177) is a parameter. The failed `hclsyntax.Body` cast at moveblock.go:174-177 is not modelled, because the HCL parser always yields that body type.
- In `prettifyCopySelection`, the stat and read errors of `FileIsEmpty` and `FileEndsWith` cannot happen: `copyRange` has just opened or created the file. `FileIsEmpty` (pkg/file/stats.go:6-13) is the test that the destination's bytes are empty.
- In `MoveHclBlock`, the delete after a successful copy cannot fail in the model: the source was just read, and copying removes no file.
- MoveBlock.MoveOptions.Validate: options that list files but hold no description are excluded (`Valid`). The package's own code never builds such options. With them, the Go code dereferences a nil pointer.
- The `BlockDescription` pointer of `MoveOptions` is an `Option` value, so aliasing between options is not modelled.
- `deleteRange` passes the literal 2 (moveblock.go:103). It equals `BUFFER_CHAR_MAX`, which is the constant the model uses.
- Error messages are datatype constructors. The text and wrapping of Go's errors, and `errors.Join`, are not modelled.
- MD5 and hex encoding are a digest parameter. uuid generation is a parameter that must be non-empty.
- zap logging (moveblock.go:181, 198-204) and the debug `Printf` calls are left out.
- `String()` methods, `WriteToDisk`, YAML serialisation, `pkg/state/store.go` and the CLI glue are left out: they are persistence and presentation, not the logic modelled here.
- pkg/state/workspace.go:26-90 and 116-134 hold an older revision of `WorkspaceMgr`. The model uses the newer one from workspacemgr.go, with `Workspace.Validate` and `md5ForTerraformFiles` from workspace.go.
- Workspaces.WorkspaceMgr.AddWorkspace: the order of the recorded files follows Go's map iteration, which is unspecified. The contract says only that some enumeration of the keys, each once, gives the files.
- Integrity.GenerateMd5ForFiles: "empty input gives an empty map" is not a lemma of its own. It follows from `Md5sFailsOnFirst` (no path fails) and `Md5sKeys` (no keys).

## Findings

| source | as written | input that shows it | evidently intended | confidence | as-written member | corrected member |
|---|---|---|---|---|---|---|
| pkg/parser/moveblock.go:165 | `MoveHclBlock` discards the error `validate` returns | options with neither source set: the file list stays empty and the call reports that no block was found | return the validation error | not executed | MoveBlock.ValidationFailureReadsAsNotFound | MoveBlock.IntendedReportsValidationFailure |
| pkg/parser/moveblock.go:182 | the copy always goes to `ToFile`, although `validate` accepts a destination directory alone | ToDirectory "/dst", ToFile "", with a matching block found: opening "" fails | write to the description's destination file name inside ToDirectory | not executed | MoveBlock.DirectoryDestinationFailsAsWritten | MoveBlock.IntendedMoveRelocatesBlock |
| pkg/parser/moveblock.go:85 | directory entries are listed by bare name | FromDirectory "/src" holding main.tf, run from a working directory other than /src that holds no main.tf: the search opens "main.tf" and fails to parse | join each name with FromDirectory | not executed | MoveBlock.BareNamesMissTheFiles | MoveBlock.IntendedSourcesAreFiles |
| pkg/parser/moveblock.go:145-155 | the destination is opened without `O_APPEND`, so the copy is written at offset 0 | moving "A" into a file holding "x\n" leaves "A\n" | append: "x\nA\n" | not executed | MoveBlock.CopyOverwritesDestination | MoveBlock.IntendedMoveRelocatesBlock |
| pkg/file/dirinfo.go:10 | `filepath.Ext` returns ".tf", but the constant it is compared with is "tf" | a directory holding main.tf lists nothing | compare with ".tf", as the unit tests expect | not executed | TerraformFiles.NothingQualifiesAsWritten | TerraformFiles.IntendedListsTerraformFiles |
| pkg/file/integrity.go:39 | digests are keyed by base name, but `Workspace.Validate` looks them up by joined path (workspace.go:101) | a workspace recorded for a directory holding main.tf, validated unchanged, reports main.tf as changed | key by full path, as the unit test expects | not executed | Workspaces.BaseKeysFlagFreshWorkspace | Workspaces.AddThenValidateIsClean |

The sixth finding shows only once the fifth is fixed. As written, no file is listed, so a workspace records no files and always validates cleanly (`Workspaces.AsWrittenRecordsNothing`).
