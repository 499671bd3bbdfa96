# ToSingleFile in Dafny

A model of `ToSingleFile.py`, a command-line tool that walks a folder and
combines every file with a given extension into one output file. Each file
becomes one block: a header line `# File: <path relative to the folder>\r\n`,
the file's exact bytes, then `\r\n`.

The model follows `main` stage by stage. Each stage is a pure function over
immutable values:

- **Extension.** The extension gets a leading dot if it lacks one
  (`Combiner.NormalizeExtension`).
- **Collection.** The model performs the `os.walk` collection over a directory
  tree value (`Combiner.Node`). It builds the same path strings the program
  builds from the folder argument *as typed*, and skips every walk root whose
  `/`-separated pieces include `venv` (`Combiner.Collect`).
- **Self exclusion.** The model drops the output file and the script, comparing
  absolute paths (`Combiner.ExcludeSelf`).
- **Pattern exclusion.** Glob patterns are matched against each file's path
  relative to the folder (`Combiner.ExcludePatterns`). `Glob.FnMatch` is a
  faithful `fnmatch` on POSIX. `*` also matches `/`. It also handles `?` and
  `[...]` classes with `!`, ranges, a leading `]` and an unclosed `[`. A
  reversed range such as `[z-a]` matches nothing, as in the CPython releases
  whose `fnmatch.translate` drops empty ranges; older releases raise `re.error`
  on such a pattern instead.
- **Sort.** The list is sorted by the path string in code-point order, using
  Python's stable `sorted` (`Combiner.SortFiles`, `Order.SortBy`).
- **Run.** The run checks that the folder exists, returns early when nothing is
  found, and removes an old output. It then runs the append loop, which may
  stop at a file that cannot be read or whose header cannot be encoded
  (`Pipeline.Run`, `Output.WriteAll`, `Pipeline.WriteLoop`).

Path handling is modelled, not assumed, in `Paths`:

- `str.split('/')`;
- `os.path.join`;
- `os.path.abspath` as lexical normalisation against a working directory;
- `os.path.relpath`.

The header's `str.encode('utf-8')` is modelled in `Utf8`, with a decoder that
undoes it.

Two separate descriptions of the selection are proved to select the same
files:

- the string-level pipeline that the program runs (`Combiner.SelectFiles`);
- a reference test stated on the tree (`Selection.Qualifies`). A file is kept
  exactly when all of these hold:
  - no directory on its way, and no piece of the folder, is named `venv`;
  - its name ends with the normalised extension;
  - its resolved path is neither the output's nor the script's;
  - its folder-relative path (the directory names and its own name, joined)
    matches no pattern.

Sibling names in a directory are distinct, so no path is selected twice. The
selected list is therefore strictly ascending, and it is the only ascending
arrangement of the filtered files (`Selection.SelectionStrictlyAscending`,
`Selection.SelectionIsTheSortedList`).

The model follows the program where it differs from its own documentation:

- `*` in an exclude pattern crosses `/`, as `fnmatch` does.
- The sort key is the joined path string built from the folder as typed, not
  an absolute path.
- The `venv` test looks at the walk root string, which starts with the folder
  as typed. So a relative folder argument typed from inside a `venv` directory
  is not skipped, but the same folder given by its absolute path is.

## Model

| member | source | states |
|---|---|---|
| Combiner.NormalizeExtension | ToSingleFile.py:46-48 | The normalised extension starts with `.`, ends with the given extension and is at most one character longer. It equals the input exactly when the input already starts with `.`. |
| Combiner.NormalizeExtensionIdempotent | ToSingleFile.py:46-48 | Normalising an already normalised extension changes nothing. |
| Paths.Split | ToSingleFile.py:64 | `root.split(os.path.sep)` always yields at least one piece, and no piece contains the separator. |
| Paths.JoinSplit | ToSingleFile.py:64 | Joining the pieces of any string with the separator gives the string back, so splitting loses nothing. |
| Paths.SplitJoin | ToSingleFile.py:64 | Splitting a joined non-empty list of separator-free segments gives the list back. |
| Paths.SplitAround | ToSingleFile.py:64 | Splitting `x/y` splits `x` and `y` independently. |
| Paths.SplitPyJoinPlain | ToSingleFile.py:64-68 | `os.path.join(a, name)` with `a` not ending in `/` splits into the pieces of `a` followed by `name`. |
| Paths.SplitPyJoinTrailing | ToSingleFile.py:64-68 | `os.path.join(a, name)` with `a` ending in `/` replaces the empty last piece of `a` by `name`. |
| Paths.PyJoin | ToSingleFile.py:68 | `os.path.join(a, b)` ends with `b`. An absolute `b` replaces `a`; otherwise the result starts with `a` and is at least as long as both parts together. |
| Paths.VenvAfterJoin | ToSingleFile.py:62-65 | Descending into a sub-directory adds a `venv` piece exactly when the sub-directory is named `venv`; a name like `venvx` adds none. |
| Paths.Normalize | ToSingleFile.py:58 | Lexical normalisation yields a path made only of real names: no empty, `.` or `..` segment. |
| Paths.NormalizeAppend | ToSingleFile.py:58 | Normalising a concatenation of segment lists is normalising one list after the other. |
| Paths.NormalizeNames | ToSingleFile.py:58 | Normalising a list of real names appends them unchanged. |
| Paths.AbsPath | ToSingleFile.py:58 | `os.path.abspath` yields a normalised absolute path. |
| Paths.AbsPathJoin | ToSingleFile.py:68-75 | The absolute path of `os.path.join(dir, name)` is the absolute path of `dir` followed by `name`. |
| Paths.CommonPrefixLength | ToSingleFile.py:8 | The computed length is a common prefix of both paths that cannot be extended. |
| Paths.CommonPrefixOfExtension | ToSingleFile.py:8 | A path and any extension of it share exactly the shorter path as prefix. |
| Paths.Ups | ToSingleFile.py:8 | `n` parent steps are `n` segments, each `..`. |
| Paths.RelPath | ToSingleFile.py:8 | `relpath` is never empty. It is `.` when the paths are equal, and for a normalised path only then. For a normalised path its segments are non-empty and contain no separator. |
| Paths.GetRelativePath | ToSingleFile.py:6-8 | `get_relative_path` is a non-empty string that splits into the `relpath` segments, is `.` for equal paths, and leads back to the file when resolved against the base. |
| Paths.RelPathBelow | ToSingleFile.py:6-8 | The relative path of a path strictly below the start is exactly the part below the start. |
| Paths.RelPathRoundTrip | ToSingleFile.py:6-8 | Resolving the relative path against its start leads back to the original path. |
| Paths.RelPathClimbAndDescend | ToSingleFile.py:8 | Climbing from the start to the common ancestor and then descending the rest of the path reaches the path. |
| Paths.TailIsNormal | ToSingleFile.py:8 | A suffix of a normalised path is normalised, so the descending part of `relpath` is made of real names. |
| Paths.ClimbUps | ToSingleFile.py:8 | Climbing `|start| - k` parent steps from `start` reaches its ancestor of depth `k`. |
| Glob.FnMatch | ToSingleFile.py:83 | A pattern without `*`, `?` or `[` matches exactly the path equal to it. A pattern without `*` matches no path longer than itself. |
| Glob.MatchesAny | ToSingleFile.py:83 | No patterns exclude nothing, a `*` pattern excludes every path, and literal patterns exclude exactly the paths listed. |
| Glob.StarMatchesAll | ToSingleFile.py:83 | The pattern `*` matches every relative path, including ones with `/`. |
| Glob.StarSuffixMatchesEndsWith | ToSingleFile.py:83 | `*` followed by a literal (as in `*_test.py`) matches exactly the paths that end with that literal. |
| Glob.QuestionMatchesOneChar | ToSingleFile.py:83 | `?` matches exactly the one-character paths. |
| Glob.RangeClass | ToSingleFile.py:83 | `[lo-hi]` matches exactly one character from `lo` to `hi` inclusive, and nothing when the range is reversed. |
| Glob.NegatedRangeClass | ToSingleFile.py:83 | `[!lo-hi]` matches exactly one character outside the range. |
| Glob.BracketFirstClass | ToSingleFile.py:83 | A `]` right after `[` is a member of the class: `[]]` matches exactly `]`. |
| Glob.UnclosedBracket | ToSingleFile.py:83 | A `[` that is never closed is an ordinary character. |
| Order.StrLe | ToSingleFile.py:89 | A prefix of a string comes before it, and a proper extension of a string never comes before it. |
| Order.StrLeReflexive | ToSingleFile.py:89 | String order is reflexive. |
| Order.StrLeTotal | ToSingleFile.py:89 | Any two path strings are comparable. |
| Order.StrLeTransitive | ToSingleFile.py:89 | String order is transitive. |
| Order.StrLeAntisymmetric | ToSingleFile.py:89 | Two strings each at most the other are equal. |
| Order.Insert | ToSingleFile.py:89 | Inserting into a sorted list keeps it sorted and adds exactly the one element. |
| Order.InsertFrontSorted | ToSingleFile.py:89 | An element not above the head of a sorted list can go in front of it. |
| Order.InsertBehindSorted | ToSingleFile.py:89 | The head of a sorted list stays in front when a larger element is inserted into the tail. |
| Order.SortBy | ToSingleFile.py:89 | `sorted` returns an ascending list that is a permutation of its input. |
| Order.SortedHeadsAgree | ToSingleFile.py:89 | With distinct keys, the least element heads every sorted permutation. |
| Order.SortedTail | ToSingleFile.py:89 | The tail of an ascending list is ascending, and it keeps distinct keys. |
| Order.SortedPermutationUnique | ToSingleFile.py:89 | With distinct keys, two ascending permutations of one list are equal, so the sorted result is the only possible one. |
| Utf8.EncodeChar | ToSingleFile.py:107 | One character encodes to 1 to 4 bytes. It is one byte exactly for ASCII, where the byte is the code point, and later bytes are continuation bytes. |
| Utf8.Encode | ToSingleFile.py:107 | The encoded header is at least as many bytes as it has characters. |
| Utf8.DecodeFirst | ToSingleFile.py:107 | A decoded character uses between 1 and 4 bytes of the input. |
| Utf8.DecodeFirstEncodeChar | ToSingleFile.py:107 | Decoding the front of an encoded character followed by anything yields that character and its length. |
| Utf8.EncodeAppend | ToSingleFile.py:106-107 | Encoding distributes over concatenation of the header's parts. |
| Utf8.DecodeEncode | ToSingleFile.py:107 | Decoding the encoded header gives back the header text: encoding loses nothing. |
| Utf8.EncodeAscii | ToSingleFile.py:106-107 | ASCII text is encoded byte for byte. |
| Combiner.Walk | ToSingleFile.py:62-66 | Every file the walk yields lies below the directories it started from: its directory names begin with theirs. |
| Combiner.WalkBelowName | ToSingleFile.py:62-66 | Every file found in a sub-directory lies below that sub-directory's name. |
| Combiner.WalkBelow | ToSingleFile.py:62-66 | Every file the walk yields lies below one of the listed entries. |
| Combiner.WalkDistinct | ToSingleFile.py:62-66 | With distinct names among siblings, no two walked files sit at the same place. |
| Combiner.InVenvPlainName | ToSingleFile.py:64 | A walk root without a separator is skipped exactly when it is `venv` itself. |
| Combiner.Collect | ToSingleFile.py:61-69 | Every collected path ends with the extension. |
| Combiner.CollectIsFilteredWalk | ToSingleFile.py:61-69 | The collected list is the walked files, in walk order, filtered by "root not in venv and name ends with the extension", each turned into `os.path.join(root, file)`. |
| Combiner.WalkResolves | ToSingleFile.py:62-68 | Every walk root string resolves to the resolved folder followed by the directory names leading to it, and every listed file name is a real name. |
| Combiner.WalkVenv | ToSingleFile.py:62-65 | A walk root is skipped exactly when the folder has a `venv` piece or a directory named exactly `venv` lies on its way. |
| Combiner.ExcludeSelf | ToSingleFile.py:72-76 | A file is kept exactly when it was collected and its absolute path is neither the output's nor the script's; the kept list is a subsequence of the collected one. |
| Combiner.ExcludePatterns | ToSingleFile.py:79-86 | A file is kept exactly when its folder-relative path matches no pattern. The kept files stay in order as a subsequence, and no patterns, or no matching file, leaves the list unchanged. |
| Combiner.SortFiles | ToSingleFile.py:89 | The final list is ascending by path and is a permutation of the filtered list. |
| Combiner.Filtered | ToSingleFile.py:61-86 | Every path handed to `get_relative_path` is non-empty, so `relpath` does not raise. |
| Combiner.FilteredIsSubsequence | ToSingleFile.py:61-86 | The list before the sort is a subsequence of the collected list. |
| Combiner.SelectFiles | ToSingleFile.py:89-105 | Every selected path is non-empty, so the write loop's `get_relative_path` does not raise. |
| Combiner.CollectedPathsNonEmpty | ToSingleFile.py:62-69 | Every collected path is a non-empty string. |
| Selection.WalkedFileResolves | ToSingleFile.py:62-75 | A walked file's joined path is non-empty and resolves to the resolved folder followed by the file's place. |
| Selection.WalkedFileFacts | ToSingleFile.py:62-82 | For a walked file: its root is skipped exactly for a `venv` on its way; its joined path resolves below the folder; and `get_relative_path` gives the joined directory names and file name. |
| Selection.CollectedIff | ToSingleFile.py:61-69 | A file is collected exactly when some walked file is outside venv directories and ends with the extension. So every such file is collected, and nothing else is. |
| Selection.SelectionIff | ToSingleFile.py:61-89 | A file is in the final list exactly when it comes from a walked file meeting the reference test: no venv, right suffix, not output or script, no matching pattern. |
| Selection.SelectionEmptyIff | ToSingleFile.py:89-93 | The final list is empty exactly when no walked file meets the reference test. |
| Selection.WalkedPathsDiffer | ToSingleFile.py:62-69 | Two walked files at different places get different joined paths. |
| Selection.KeptLocationsDistinct | ToSingleFile.py:61-69 | The walked files that are collected sit at pairwise different places. |
| Selection.CollectedPathsDistinct | ToSingleFile.py:61-69 | No path is collected twice. |
| Selection.SelectionStrictlyAscending | ToSingleFile.py:61-89 | No path is selected twice, so the sorted list is strictly ascending by path. |
| Selection.SelectionIsTheSortedList | ToSingleFile.py:89 | Every ascending arrangement of the filtered files is the selected list, so the sort has only one possible result. |
| Output.Header | ToSingleFile.py:106-107 | The encoded header is at least ten bytes longer than the relative path. |
| Output.HeaderLayout | ToSingleFile.py:106-107 | The header is the bytes of `# File: `, then the UTF-8 bytes of the relative path, then CRLF. |
| Output.Block | ToSingleFile.py:106-116 | A block is the header, then exactly the file's bytes, then CRLF, and its length is the sum of the three. |
| Output.ItemsOf | ToSingleFile.py:104-105 | Each file of the list is paired, in order, with its `get_relative_path` against the folder. |
| Output.Serialise | ToSingleFile.py:104-116 | The output is empty exactly when there are no files, and holds at least twelve bytes per file. |
| Output.SerialiseAppend | ToSingleFile.py:104-116 | The output for a concatenation of file lists is the concatenation of their outputs. |
| Output.BlockAt | ToSingleFile.py:104-116 | The output holds the `i`-th file's block at the offset after the blocks before it, one block per file, in list order. |
| Output.PartialIsPrefix | ToSingleFile.py:103-122 | The output after writing the first `k` files is a prefix of the full output. |
| Output.SerialiseLength | ToSingleFile.py:104-116 | The output length is the header bytes plus the file bytes plus two bytes per file. |
| Output.FirstFailure | ToSingleFile.py:104-111 | The loop stops at the first file whose turn raises, when its header is encoded or it is opened. Every earlier file goes through, and the one at the stop does not. |
| Output.FirstFailureIsFirst | ToSingleFile.py:110 | Any index meeting that description is the stopping point. |
| Output.SerialiseSnoc | ToSingleFile.py:114-116 | Appending one file's header and bytes extends the output of the files before it to the output of one more file. |
| Output.WriteAll | ToSingleFile.py:103-116 | The append loop writes exactly the blocks of the files before the first failing one, in order. |
| Pipeline.Run | ToSingleFile.py:54-122 | The exit code is 0 exactly on success or when nothing is found, and 1 otherwise. The folder is reported missing exactly when it is empty or not a directory, and a cleanup failure happens only to an old output that cannot be removed. The output file is untouched unless the write loop ran. A successful run combined at least one file. |
| Pipeline.WritePhase | ToSingleFile.py:103-122 | The write loop succeeds exactly when no file fails, and then the output is the full concatenation of blocks and the exit code 0. Otherwise it exits 1, and the output holds exactly the blocks of the files before the first failing one (no file at all when that is the first). |
| Pipeline.WriteLoop | ToSingleFile.py:103-122 | Running the append loop and reporting its outcome ends exactly as the write phase says. |
| Pipeline.NothingToCombine | ToSingleFile.py:91-93 | When no walked file qualifies, the run exits 0 and leaves the output file as it was. |
| Pipeline.CombinesEverything | ToSingleFile.py:95-118 | When any old output can be removed and no selected file fails, the run exits 0, reports the number of files, and the output is exactly the blocks of the selected files. |
| Pipeline.OutputIsPrefix | ToSingleFile.py:103-122 | After any run, the output file is the old one, absent, or a prefix of the full output. |
| Pipeline.HeaderNamesFile | ToSingleFile.py:104-116 | Every block comes from a qualifying walked file, is headed by that file's folder-relative path, and holds its bytes. |
| Pipeline.QualifyingFileHasBlock | ToSingleFile.py:104-116 | Every qualifying walked file has a block, headed by its folder-relative path and holding its bytes. |
| Pipeline.MissingFolderFails | ToSingleFile.py:54-56 | A folder argument that is not a directory ends the run with exit code 1 and leaves the output file as it was. |
| Pipeline.CleanupFails | ToSingleFile.py:95-101 | With files to combine, an old output that cannot be removed ends the run with exit code 1 and stays as it was. |
| Pipeline.FailingFileFails | ToSingleFile.py:103-122 | Once any old output is gone, a selected file whose turn raises ends the run with exit code 1, with no block of that file or of a later one written. |
| Pipeline.WritePhaseStopsBefore | ToSingleFile.py:103-122 | A failing file stops the write phase with at most the blocks of the files before it. |
| Pipeline.WriteFailedHasCause | ToSingleFile.py:103-122 | A run that fails in the write loop has a selected file whose turn raised. |

## Left out

- Argument parsing and defaults (lines 12-40): the model takes the folder, the output name, the extension and the patterns as already parsed. The default folder `os.getcwd()` is just one possible value.
- Printed messages and the text of errors (lines 55, 92, 100, 118, 121): only the outcome (`Pipeline.Status`) and the exit code are modelled.
- The file system is a value (`Pipeline.Env`), not real calls: `os.path.isdir` is the presence of a listing, `os.remove` is a flag, and the files whose turn in the write loop raises (at `open(..., 'rb')` or at the header's `encode`) are a set of paths.
- Pipeline.Run: a failure while appending to the output file is not modelled, only a failure to read a source file. A write failure would leave a prefix that ends inside a block.
- Symbolic links: `os.path.realpath` (line 43) is taken to equal `os.path.abspath`, and the walk does not follow links.
- Paths.AbsPath: the POSIX special case that keeps exactly two leading slashes (`//x`) is not modelled, and `//x` normalises like `/x`.
- Windows paths, `os.path.sep` other than `/`, and the case folding `fnmatch` applies there.
- `os.walk` order: the model walks entries in listing order. The order does not matter for the result, because the list is sorted.
- Paths.GetRelativePath: `relpath` raises on an empty path. The model requires a non-empty path instead, and `Combiner.SelectFiles` proves every path it passes is non-empty.
- Utf8.Encode: encodes only Unicode scalar values, since a Dafny `char` is one. A file name that is not valid UTF-8 reaches line 107 with surrogate escapes, and `encode` raises there. The model does not build such a header. It lists the file in `Pipeline.Env.failing`, so the run stops at that file and exits 1 (lines 120-122).
- Order.SortBy: sorting is by the path string only. Ties do not arise on the selected list, since `Selection.SelectionStrictlyAscending` proves its paths distinct for a tree whose sibling names are distinct.
