# sys-wasm generators: a Dafny model

`wasm/mksyscall.go` and `wasm/mkunix.go` are two small code generators. They
copy a fixed list of Linux/arm64 Go source files and turn each one into a
js/wasm file. For every listed file, in order, a generator does five things:

- It renames the file: strip the extension, turn every `linux` into `js` and
  every `arm64` into `wasm`, and append `__js` when the original name has no
  `linux`.
- It reads the file. It finds the first `//go:build` line, splitting on
  `\n` (`findLineByPrefix`).
- It builds a new build line from substring tests on the old one. The tests
  cover a platform token, `arm64` and a fixed allow-list of special tags.
- It replaces the first occurrence of the old line's text with the new line.
- `mkunix` only: it replaces the first `"syscall"` import path with
  `"golang.org/x/sys/wasm/syscall"`.

The generator then writes `<newname>.go`, logs the name, and stops at the
first read or write that fails.

The two generators differ only in data:

| | `mksyscall` | `mkunix` |
|---|---|---|
| tokens that bring `js` | `linux`, `unix` | `linux` |
| specials | `!asan`, `!msan`, `!386`, `!arm` | `!race`, `gc` |
| fallback | empty tag list becomes `js` | none |
| reads from | `<goroot>/src/syscall` | `../unix` |
| writes to | `./syscall` | `../unix` |
| import rewrite | no | yes |

The modules follow the structure of the program:

- `GoStrings` (`gostrings.dfy`): the Go library functions the generators
  call, over sequences: `strings.ReplaceAll`, `bytes.Replace(.., 1)`,
  `strings.TrimSuffix`, `filepath.Ext` (last-dot rule), `bytes.Split` on one
  byte, `strings.Join`, and the `string`/`[]byte` conversions. It also holds
  their general lemmas.
- `LineSearch` (`lines.dfy`): `findLineByPrefix`, as a loop, with its
  specification function.
- `Names` (`names.dfy`): the output-name rule and its properties.
- `BuildTags` (`tags.dfy`): the tag choice. A `TagRule` value holds what
  tells the two generators apart; the append loops are methods.
- `FileRewrite` (`rewrite.dfy`): what happens to one file's bytes.
- `Driver` (`driver.dfy`): the main loop over a modelled filesystem. The
  filesystem is a class holding a map from path to bytes. The loop is
  specified by the function `Run`.
- `Mksyscall` (`mksyscall.dfy`) and `Mkunix` (`mkunix.dfy`): each
  generator's rule, directories and file list, and the properties specific
  to it.

The functions that compute what the source computes, and the lines they
model:

- `Names.NewName`: the rename block, wasm/mksyscall.go:63-70 and
  wasm/mkunix.go:64-71.
- `GoStrings.ReplaceAll`, `TrimSuffix`, `Ext`: `strings.ReplaceAll`,
  `strings.TrimSuffix` and `filepath.Ext` in those blocks.
  `GoStrings.Contains`: `strings.Contains`, for the marker test
  (wasm/mksyscall.go:66, wasm/mkunix.go:67) and every tag test
  (wasm/mksyscall.go:78, 81, 86; wasm/mkunix.go:79, 82, 87).
  `GoStrings.HasPrefix`: `bytes.HasPrefix` in `findLineByPrefix`,
  wasm/mksyscall.go:109 and wasm/mkunix.go:110.
  `GoStrings.ReplaceFirst` with `IndexOf`: `bytes.Replace(.., 1)`,
  wasm/mksyscall.go:95 and wasm/mkunix.go:92 and 96. `GoStrings.Split` and
  `Join`: `bytes.Split` in `findLineByPrefix` and `strings.Join` in the
  build line.
- `LineSearch.FirstWithPrefix` and `FindLine`: `findLineByPrefix`,
  wasm/mksyscall.go:104-115 and wasm/mkunix.go:105-116.
- `BuildTags.Matched`, `Present`, `Tags` and `NewBuildLine`: the tag choice
  and the new line, wasm/mksyscall.go:77-94 and wasm/mkunix.go:78-91.
- `FileRewrite.RewriteLine`: the build-line step, wasm/mksyscall.go:75-96.
  `FileRewrite.RewriteImport`: wasm/mkunix.go:96. `FileRewrite.Transform`:
  both steps in order.
- `Driver.Step` and `Run`: one iteration and the whole loop,
  wasm/mksyscall.go:62-101 and wasm/mkunix.go:63-102. `Driver.JobOf`
  packs what the loop of a generator uses: its two directories, `NewName`
  and `Transform`.
- `Mksyscall.SyscallSrcFiles` and `Mkunix.UnixSrcFiles`: the lists,
  wasm/mksyscall.go:19-49 and wasm/mkunix.go:18-57.

The lemmas in the table below state the properties of these functions.

Representation:

- Go strings are `string`. File contents are `seq<byte>`.
- `string(b)` and `[]byte(s)` map each byte to one char below 256.
- Paths are built as `dir + "/" + name`, the way the write paths are
  formatted.

## Model

| member | source | states |
|---|---|---|
| GoStrings.HasPrefix | wasm/mksyscall.go:109 | `bytes.HasPrefix` holds exactly when the prefix is no longer than the input and equals its first elements |
| GoStrings.Contains | wasm/mksyscall.go:66 | `strings.Contains` holds exactly when the pattern occurs at some index (the same test at wasm/mksyscall.go:78-86 and wasm/mkunix.go:67-87) |
| GoStrings.IndexOf | wasm/mksyscall.go:95 | the index of the earliest occurrence of the pattern, or -1 exactly when there is none; no occurrence starts before it |
| GoStrings.TrimSuffix | wasm/mksyscall.go:63 | with the suffix present the result plus the suffix is the input, otherwise the input is returned |
| GoStrings.Ext | wasm/mksyscall.go:63 | the last-dot rule both ways: the result is a suffix of the path; a non-empty one starts with '.' and holds no further '.' or '/'; an empty one means every '.' of the path is followed by a '/' |
| GoStrings.ExtGo | wasm/mksyscall.go:63 | the extension of `x.go` is `.go`, and trimming it gives back `x` |
| GoStrings.ReplaceAllAbsent | wasm/mksyscall.go:64-65 | `ReplaceAll` without an occurrence of the pattern returns its input |
| GoStrings.ReplaceAllOnce | wasm/mksyscall.go:64-65 | a leading part in which no occurrence starts is copied, and the occurrence right after it is replaced (left-to-right scanning) |
| GoStrings.ReplaceAllRemoves | wasm/mksyscall.go:64-65 | when no suffix of the replacement overlaps the pattern (either way round) and the replacement's first element is not in the pattern's tail, no occurrence of the pattern survives |
| GoStrings.ReplaceAllInserts | wasm/mksyscall.go:64-65 | when the pattern occurs, the result contains the replacement |
| GoStrings.ReplaceAllKeepsAbsent | wasm/mksyscall.go:64-65 | for a non-empty replacement, a non-empty sequence absent from the input that shares no element with the replacement stays absent |
| GoStrings.ReplaceAllKeepsForeign | wasm/mksyscall.go:64-65 | a sequence sharing no element with the pattern that occurs in the input still occurs in the result |
| GoStrings.ReplaceAllAvoids | wasm/mksyscall.go:64-65 | an element in neither the input nor the replacement is not in the result |
| GoStrings.ReplaceAllSingle | wasm/mksyscall.go:64-65 | when `pat` occurs in `a + pat + b` only at `|a|`, ReplaceAll gives `a + rep + b` |
| GoStrings.OnlyOccurrence | wasm/mksyscall.go:64-65 | an occurrence that is the only one leaves none starting before it and none after it |
| GoStrings.OccurrenceAtMark | wasm/mksyscall.go:64-65 | an element found once in the pattern and nowhere around it pins the pattern's only occurrence |
| GoStrings.ForeignSwap | wasm/mksyscall.go:64-65 | replacing a middle part by a non-empty one sharing no element with `p` creates no occurrence of `p` |
| GoStrings.PrependForeign | wasm/mksyscall.go:64-65 | prepending elements foreign to `p` creates no occurrence of `p` |
| GoStrings.ReplaceAllInverse | wasm/mksyscall.go:64-65 | replacing back undoes ReplaceAll when the replacement's first element is not in the input |
| GoStrings.ReplaceFirstSpec | wasm/mksyscall.go:95 | `ReplaceFirst`, that is `bytes.Replace(s, pat, rep, 1)`, returns `s` when `pat` is absent, and otherwise splices `rep` over the earliest occurrence, keeping every byte before and after it |
| GoStrings.ReplaceFirstAfter | wasm/mkunix.go:96 | when no occurrence starts in a leading part, ReplaceFirst replaces the occurrence right after that part |
| GoStrings.Split | wasm/mksyscall.go:106 | `bytes.Split` on one byte gives at least one segment, and no segment holds the separator |
| GoStrings.JoinSplit | wasm/mksyscall.go:106 | `Join` of the `Split` segments with the separator gives back the input exactly: no `\r` stripping, and a trailing `\n` gives an empty last segment |
| GoStrings.JoinOccurs | wasm/mksyscall.go:106-110 | segment k occurs in the input at its offset (the lengths of the earlier segments plus their separators) |
| GoStrings.ReplaceFirstSegment | wasm/mksyscall.go:95 | replacing a segment's text, when no earlier occurrence of it exists, splices exactly at that segment's offset |
| GoStrings.StringOf | wasm/mksyscall.go:110 | `string(b)` keeps the length and every byte value |
| GoStrings.BytesOf | wasm/mksyscall.go:95 | `[]byte(s)` keeps the length and every char value |
| LineSearch.FirstWithPrefix | wasm/mksyscall.go:108-114 | the index of the first line with the prefix, or -1; the line found has the prefix and no earlier line does |
| LineSearch.FindLineByPrefix | wasm/mksyscall.go:104-115 | the search loop with early return computes the same as `FindLine` (wasm/mkunix.go holds the same function) |
| LineSearch.FindLineSpec | wasm/mksyscall.go:104-115 | found: the line is the text of the first segment starting with the prefix, starts with the prefix, holds no `\n` and occurs in the data; not found: `""` and no segment has the prefix |
| Names.NoOriginToken | wasm/mksyscall.go:63-70 | `NewName` never gives a name that contains `linux` or `arm64` |
| Names.TargetTokens | wasm/mksyscall.go:64-70 | under `NewName`, a stem with `linux` gives a name with `js`, a stem with `arm64` gives one with `wasm`, and a name without `linux` ends with `__js` |
| Names.NewNameOfGoFile | wasm/mksyscall.go:63-70 | for `stem.go`, the rule is the two ReplaceAlls on the stem, plus `__js` when the file name has no `linux` |
| Names.NameWithoutTokens | wasm/mksyscall.go:63-70 | a stem holding neither `linux` nor `arm64` keeps its text and gains the marker |
| Names.NameWithPlatform | wasm/mksyscall.go:63-70 | a name whose stem holds exactly one `linux` (every occurrence is at that one index) and no `arm64` has `js` in its place and no marker |
| Names.ArchAfterPlatform | wasm/mksyscall.go:65 | once `linux` has become `js`, the only `arm64` becomes `wasm` |
| Names.NameWithPlatformAndArch | wasm/mksyscall.go:63-70 | a name whose stem holds exactly one `linux` and, after it, exactly one `arm64` gets `js` and `wasm` in their places and no marker |
| Names.Stem | wasm/mksyscall.go:63 | the stem plus `.go` is the name |
| Names.RestoreRenamed | wasm/mksyscall.go:64-65 | on a stem without 'j' or 'w', the two replacements are undone by the reverse replacements in reverse order |
| Names.RenamedNoDouble | wasm/mksyscall.go:64-65 | the replacements create no `__` |
| Names.MarkerDouble | wasm/mksyscall.go:66-70 | the marker brings a `__` |
| Names.NewNameInjective | wasm/mksyscall.go:66-70 | `NewName` gives distinct simple names distinct new names, the conflict avoidance the marker is there for |
| Names.MarkerExactly | wasm/mksyscall.go:66-70 | on a simple name, the new name holds `__` exactly when the original holds no `linux` |
| Names.PlatformInStem | wasm/mksyscall.go:66 | `linux` in `stem.go` lies in the stem |
| Names.NewNameHasJ | wasm/mksyscall.go:63-70 | every new name of a `.go` file holds a 'j' |
| Names.NoSlashInNewName | wasm/mksyscall.go:63-70 | `NewName` writes no '/': a name without one gets a new name without one |
| Names.NewNameNotSource | wasm/mkunix.go:64-71 | for a `g` ending in `.go`, `NewName(g)` plus `.go` is never a name without 'j' |
| BuildTags.PresentEmpty | wasm/mksyscall.go:85-89 | `Present` chooses no special exactly when the line contains none |
| BuildTags.PresentConcat | wasm/mksyscall.go:85-89 | the specials chosen from a concatenated list are those of each part, in order |
| BuildTags.PresentSingle | wasm/mksyscall.go:86-88 | one special is chosen exactly when the line contains it |
| BuildTags.MatchedEmpty | wasm/mksyscall.go:78-90 | nothing matched exactly when no platform token, no `arm64` and no special occurs in the line |
| BuildTags.Tags | wasm/mksyscall.go:90-93 | with a fallback the tag list is never empty; without one it is exactly what matched |
| BuildTags.AppendPresent | wasm/mksyscall.go:85-89 | the loop over the specials appends exactly the chosen ones, in the allow-list's order (the same loop in wasm/mkunix.go, with its own allow-list) |
| BuildTags.CollectTags | wasm/mksyscall.go:77-93 | the appends build exactly the tag list `Tags`, the fallback included when the rule has one (wasm/mkunix.go's rule has none) |
| BuildTags.PresentMembers | wasm/mksyscall.go:85-89 | a string is among the chosen specials exactly when it is listed and the line contains it |
| BuildTags.PresentInOrder | wasm/mksyscall.go:85-89 | the chosen specials are a subsequence of the allow-list |
| BuildTags.SubsequenceConcat | wasm/mksyscall.go:78-89 | subsequences concatenate, which orders the three groups of tags |
| BuildTags.TagsMembers | wasm/mksyscall.go:78-93 | membership in `Tags`: `js` for a platform token or as the fallback, `wasm` for `arm64`, a special for itself |
| BuildTags.TagsInOrder | wasm/mksyscall.go:78-93 | for every line, the tags from `Tags` are a subsequence of `js`, `wasm` and the allow-list, the fallback `js` included |
| BuildTags.MatchedInOrder | wasm/mksyscall.go:78-89 | the tags from `Matched` keep the order `js`, `wasm`, allow-list |
| BuildTags.FallbackInOrder | wasm/mksyscall.go:90-93 | the fallback list `["js"]` is in that order too |
| BuildTags.NewLineIsBuildLine | wasm/mksyscall.go:94 | the new line starts with `//go:build` |
| BuildTags.NothingMatched | wasm/mksyscall.go:90-94 | when `Matched` is empty, `NewBuildLine` is `//go:build js` with the fallback and `//go:build ` without it |
| BuildTags.NewBuildLineBytes | wasm/mksyscall.go:94-95 | the new line converts to bytes |
| FileRewrite.RewriteLineSpec | wasm/mksyscall.go:75-96 | `RewriteLine`: without a line found by `FindLine` the data is unchanged; otherwise the new line is spliced over the earliest occurrence of the found line's text, keeping every byte before and after |
| FileRewrite.LineInPlace | wasm/mksyscall.go:75-96 | when the line's text does not occur earlier, the splice is at the found line's own position, so exactly that line is swapped |
| FileRewrite.BuildLineKept | wasm/mksyscall.go:94-95 | where a build line was found, the rewritten file contains the new line, which starts with `//go:build` again |
| FileRewrite.RewriteImportSpec | wasm/mkunix.go:96 | `RewriteImport`: without `"syscall"` the data is unchanged; otherwise its earliest occurrence becomes `"golang.org/x/sys/wasm/syscall"`, which the result then contains |
| Driver.FileSystem.constructor | wasm/mksyscall.go:71 | the filesystem starts with the given files and unwritable paths |
| Driver.FileSystem.ReadFile | wasm/mksyscall.go:71-74 | the read succeeds exactly when the path exists, and then returns its contents |
| Driver.FileSystem.WriteFile | wasm/mksyscall.go:97-99 | the write succeeds exactly when the path is writable; it then creates or replaces that one file; otherwise nothing changes |
| Driver.Generate | wasm/mksyscall.go:62-101 | the loop of either generator leaves the filesystem, the logged names and the outcome that `Run` specifies |
| Driver.TransformFile | wasm/mkunix.go:76-96 | the loop body between the read and the write computes `Transform`: the build-line rewrite, then, for wasm/mkunix.go, the import rewrite whether or not a build line was found |
| Driver.RunStopped | wasm/mksyscall.go:72-74 | fail-fast in `Run`: once a prefix of the list has failed, the rest of the list changes nothing, so no later file is read or written |
| Driver.RunProgress | wasm/mksyscall.go:62-101 | in `Run`, the logged names are the new names of a prefix of the list, in order; a failure names the source or target path of the next file |
| Driver.RunWritesOnlyTargets | wasm/mksyscall.go:97-99 | `Run` writes only the targets of listed files; every other path keeps its contents, and no file disappears |
| Driver.RunSucceeds | wasm/mksyscall.go:62-101 | for `Run`, with every source present, every target writable, targets pairwise distinct and no target a source, the run completes and each target holds the transform of its source |
| Driver.RunFailsOnMissing | wasm/mksyscall.go:71-74 | a listed source that is missing, and that no earlier target writes, ends `Run` in `Fatal` at that file or an earlier one, with at most the earlier names logged and nothing after it done |
| Driver.MissingStops | wasm/mksyscall.go:71-74 | the step for such a source fails at its read, or the run had already failed |
| Driver.RunFailsOnUnwritable | wasm/mksyscall.go:97-99 | a listed target that cannot be written ends `Run` in `Fatal` at that file (its read or its write) or an earlier one, with nothing after it done |
| Driver.UnwritableStops | wasm/mksyscall.go:97-99 | the step for such a target fails at its read or write, or the run had already failed |
| Driver.StepCompletes | wasm/mksyscall.go:71-100 | one more `Step` that reads an untouched source and writes a fresh target extends a completed run by that file |
| Driver.TargetNames | wasm/mksyscall.go:97 | two targets are the same path only for the same new name |
| Driver.TargetsDistinct | wasm/mksyscall.go:66-70 | distinct simple names have distinct targets, so no write overwrites another |
| Driver.TargetsInPlace | wasm/mkunix.go:72 | in one shared directory, no target of a simple name is the source of another |
| Driver.PathsApart | wasm/mkunix.go:98 | in one directory, distinct file names give distinct paths |
| Driver.TargetsBelowSources | wasm/mksyscall.go:71-97 | when the source directory is longer than the target directory and no new name holds a '/', no target is a source |
| Driver.SlashApart | wasm/mksyscall.go:71-97 | `d2/n.go` differs from `d1/f` when `d1` is longer than `d2` and `n` holds no '/' |
| Mksyscall.GenerateSyscall | wasm/mksyscall.go:62-101 | `main` after GOROOT is known: the run over `syscallSrcFiles` from `<goroot>/src/syscall` into `./syscall` |
| Mksyscall.SyscallNamesSimple | wasm/mksyscall.go:19-49 | every name of `SyscallSrcFiles` is a `.go` file without 'j', 'w' or `__` |
| Mksyscall.SyscallNamesDistinct | wasm/mksyscall.go:19-49 | no name is listed twice |
| Mksyscall.SyscallNamesNoSlash | wasm/mksyscall.go:19-49 | no listed name holds a '/' |
| Mksyscall.SyscallNewNamesNoSlash | wasm/mksyscall.go:19-49 | no new name of the list holds a '/' |
| Mksyscall.SyscallNewNamesDistinct | wasm/mksyscall.go:19-49 | the new names of the list are pairwise distinct |
| Mksyscall.SyscallPaths | wasm/mksyscall.go:71-97 | sources are `<goroot>/src/syscall/<name>` and targets `./syscall/<newname>.go` |
| Mksyscall.SyscallRunSucceeds | wasm/mksyscall.go:55-101 | for every GOROOT, with every source readable and every target writable, `Run` completes, logs every new name in list order, and each target holds the `Transform` of its source |
| Mksyscall.RenameLinuxArm64 | wasm/mksyscall.go:63-65 | `syscall_linux_arm64.go` becomes `syscall_js_wasm` |
| Mksyscall.RenameLinuxAccept4 | wasm/mksyscall.go:63-65 | `syscall_linux_accept4.go` becomes `syscall_js_accept4` |
| Mksyscall.RenameMarked | wasm/mksyscall.go:66-70 | `asan0.go` becomes `asan0__js` |
| Mksyscall.SyscallTags | wasm/mksyscall.go:78-93 | `js` for `linux` or `unix` or as the fallback, `wasm` for `arm64`, each of the four specials for itself, and nothing else |
| Mksyscall.SyscallTagsOrder | wasm/mksyscall.go:78-93 | for every line, the tags are a subsequence of `js, wasm, !asan, !msan, !386, !arm` |
| Mksyscall.SyscallFallback | wasm/mksyscall.go:90-94 | a line with none of the tokens becomes exactly `//go:build js` |
| Mksyscall.NotArm64Line | wasm/mksyscall.go:78-94 | substring matching: any line holding `linux` and `!arm64` gets tags starting `js`, `wasm` and ending `!arm`; with no other special, the line is exactly `//go:build js && wasm && !arm` |
| Mksyscall.NotArm64Tags | wasm/mksyscall.go:78-89 | such a line chooses `js`, `wasm`, then whichever of `!asan`, `!msan`, `!386` it holds, then `!arm` |
| Mksyscall.NotArm64Shape | wasm/mksyscall.go:90-93 | with something matched there is no fallback, so those tags start `js`, `wasm` and end `!arm` |
| Mksyscall.NotArm64Join | wasm/mksyscall.go:94 | with no other special present, so that the tags are exactly `js`, `wasm`, `!arm`, they join into `//go:build js && wasm && !arm` |
| Mksyscall.SyscallPresent | wasm/mksyscall.go:85-89 | the specials chosen, one substring test each, in the order `!asan`, `!msan`, `!386`, `!arm` |
| Mksyscall.SyscallWithoutBuildLine | wasm/mksyscall.go:75-97 | a file without a build line is written unchanged |
| Mkunix.GenerateUnix | wasm/mkunix.go:63-102 | `main`: the run over `unixSrcFiles`, reading and writing `../unix` |
| Mkunix.UnixNamesSimple | wasm/mkunix.go:18-57 | every name of `UnixSrcFiles` is a `.go` file without 'j', 'w' or `__` |
| Mkunix.UnixNamesDistinct | wasm/mkunix.go:18-57 | no name is listed twice |
| Mkunix.UnixNewNamesDistinct | wasm/mkunix.go:18-57 | the new names of the list are pairwise distinct |
| Mkunix.UnixNewNamesNotListed | wasm/mkunix.go:18-57 | no new name plus `.go` is a listed name, so no source in the shared directory is overwritten |
| Mkunix.UnixPaths | wasm/mkunix.go:72-98 | sources are `../unix/<name>` and targets `../unix/<newname>.go` |
| Mkunix.UnixRunSucceeds | wasm/mkunix.go:63-102 | with every source readable and every target writable, the run completes, logs every new name in list order, and each target holds the transform of its source as it was before the run |
| Mkunix.RenamePagesize | wasm/mkunix.go:64-71 | `NewName` turns `pagesize_unix.go` into `pagesize_unix__js`, the name of the generated unix/pagesize_unix__js.go |
| Mkunix.RenameZptrace | wasm/mkunix.go:64-71 | `zptrace_armnn_linux.go` becomes `zptrace_armnn_js` |
| Mkunix.UnixTags | wasm/mkunix.go:79-90 | `js` only for `linux` (`unix` alone does not bring it), `wasm` for `arm64`, `!race` and `gc` for themselves, and nothing else |
| Mkunix.GccgoBringsGc | wasm/mkunix.go:86-90 | a line mentioning `gccgo` also gets `gc` |
| Mkunix.UnixTagsOrder | wasm/mkunix.go:79-90 | the tags are a subsequence of `js, wasm, !race, gc` |
| Mkunix.UnixNoFallback | wasm/mkunix.go:91 | a line with none of the tokens becomes `//go:build ` with an empty expression |
| Mkunix.UnixPresent | wasm/mkunix.go:86-90 | the specials chosen, `!race` then `gc`, one substring test each |
| Mkunix.LinuxNotRaceLine | wasm/mkunix.go:79-91 | `linux && !race` gives `//go:build js && !race` |
| Mkunix.LinuxArm64Line | wasm/mkunix.go:79-91 | `linux && arm64` gives `//go:build js && wasm` |
| Mkunix.UnixWithoutBuildLine | wasm/mkunix.go:92-96 | `Transform` of a file without a build line is `RewriteImport` alone: the import redirect is the only change |

## Left out

- The `go env GOROOT` subprocess and its `strings.TrimSpace`
  (wasm/mksyscall.go:55-60). The trimmed GOROOT is a parameter of
  `Mksyscall.Mksyscall`. The `log.Fatal` when the command fails is not
  modelled.
- `runtime.Caller` and `os.Chdir`: they only set the working directory that
  the relative paths are read against.
- Real file I/O, the 0644 permission bits, and the text logged by
  `log.Println`. The filesystem is a map that also holds a set of
  unwritable paths. The log is the `wrote` list, and `log.Fatal` is the
  `Fatal` outcome carrying the failing path. Partial writes and other
  I/O errors are not modelled.
- `filepath.Join`'s path cleaning: source paths are `dir + "/" + name`,
  which is what the join gives for the bare names listed under a clean
  GOROOT, as `go env GOROOT` prints it. For an unclean one (such as `/`)
  the join cleans the path and the model's key differs.
- `strings.ReplaceAll` with an empty pattern: the generators never pass one.
- UTF-8: bytes and chars correspond one to one below 256, and names and
  tags are ASCII.
- The meaning of build expressions and of Go file contents: the generators
  only test substrings and replace text.
- ReplaceAllRemoves: stated only under its two overlap conditions, which
  both token pairs of the rule meet. Without them `strings.ReplaceAll` can
  leave an occurrence (`ReplaceAll("aab", "ab", "b")` is `"ab"`), so no
  unconditional version holds.
- NewNameNotSource: stated for a `g` ending in `.go`, as every listed name
  does. For other names the extension stripped may hold `linux` (`a.linux`
  becomes `a`), and the new name may have no 'j'.
- FileRewrite.LineInPlace: requires that the found line's text does not
  occur earlier in the file. `bytes.Replace` replaces the earliest
  occurrence, which may lie inside an earlier line (for example, a line
  `x//go:build linux` before the line `//go:build linux`).
  `FileRewrite.RewriteLineSpec` states what happens in every case.
- The contents of unix/env_unix__js.go, unix/pagesize_unix__js.go and
  unix/readdirent_getdents__js.go: they are generated output. They are
  evidence for the model, not part of it. For example, the name
  `pagesize_unix__js` (`Mkunix.RenamePagesize`) and the redirected import at
  unix/env_unix__js.go:11 (`FileRewrite.RewriteImportSpec`) match it.
