# File-system analyzer: a Dafny model of its visitor engine

The analyzer walks a directory tree held in memory and runs three analyses
over it, each written as a visitor:

- **size aggregation** (`FileSizeVisitor`): a running total of file sizes, and
  the visit-ordered list of `(path, size)` for files strictly larger than a
  threshold;
- **permission scan** (`PermissionVisitor`): the visit-ordered list of files
  whose mode has the "others may write" bit (`S_IWOTH`, octal 0o002);
- **category tally** (`FileCategoryVisitor`): a label-to-count table. The
  label comes from the guessed content type (`text`, `image`, `video`,
  executable `application`, other). With no guess, it is the capitalized
  file extension, or `Unknown`.

`Directory.accept` makes a depth-first pre-order walk: a directory is
reported first, then its entries in stored order. `DirectoryAnalyzer.analyze`
gives every visitor its own complete walk. It collects each visitor's result
under its class name.

The model is functional. A tree is a `Node` value. Each visitor is an
immutable state record, and each callback returns the new state. The
operating-system queries are oracle fields of a `Probe` value:
`os.path.getsize`, `os.stat(...).st_mode` and `mimetypes.guess_type`. Each
failure (`OSError`) is `None`, or `Raised` for the content-type guess.

Modules, one file each:

- `Wrappers`: `Option`.
- `Tree`: nodes, `add_content`, the callback sequence of a walk (`Events`),
  the pre-order file sequence (`Files`), and its ordering and coverage
  lemmas.
- `Probes`: the oracle record.
- `PathText`: `str.startswith`, substring `in`, `str.rfind`,
  `os.path.splitext` (POSIX) and `str.capitalize`.
- `SizeAnalysis`, `PermissionAnalysis`, `CategoryAnalysis`: the three
  visitors. Each has a fold over a file sequence and a reference definition
  that does not mention the visitor state. A lemma proves the two agree.
- `Analyzer`: dispatch over the three visitor classes, `accept`, `analyze`,
  and the visitor set-up of the command-line entry point.
- `Scenarios`: the cases of test_cases.py, plus four extension-fallback cases
  of main.py:87-89 that no test covers. The analyzer tests use a real file.
  For them, the probe holds what a POSIX file system answers for that file
  under the default umask 022: size 12, `st_mode` 0o100644
  (`S_IFREG | 0o644`) and type `text/plain`.

Behaviour of the code that the model follows:

- The default threshold is 1 000 000 bytes (main.py:23), although a comment
  beside it says "100 MB". The entry point passes 50 000 000 (main.py:191).
- `analyze` walks the whole tree once per visitor (main.py:149-151). There is
  no single walk shared by all visitors.
- The extension follows `os.path.splitext` (main.py:88): the dot must be in
  the last path component and have a non-dot character before it in that
  component, so `.bashrc` has no extension.
- `if mime_type:` (main.py:76) treats an empty content type as no guess.
- A name ending in `.` gets the empty label `""`, because its extension text
  is empty once the dot is dropped (main.py:89).
- The result map has one key per distinct visitor class passed in
  (main.py:151). If two visitors share a class, the later one's result
  replaces the earlier one's.

Every operation is a pure function of the tree, the visitors' starting state
and the probes. Running the analysis twice over the same unchanged tree
therefore gives the same results by construction. No lemma states this.

## Model

| member | source | states |
|---|---|---|
| Tree.AddContent | main.py:127-128 | the new directory keeps its path and earlier entries, and has the added entry last |
| Tree.AddContentWalk | main.py:122-128 | after `add_content`, the walk of the directory is its old walk followed by the walk of the new entry, for callbacks and files alike |
| Tree.NodeVisitedFirst | main.py:113-123 | every walk starts with the callback for the node itself: `visit_file` for a file, `visit_directory` for a directory |
| Tree.PreOrder | main.py:122-125 | a directory's walk is its own callback, then the walks of entries before `i`, then the whole walk of entry `i`, then the later entries: pre-order, depth-first, siblings in stored order |
| Tree.FilesCount | main.py:122-125 | the number of files a walk hands to `visit_file` equals the number of file leaves in the tree |
| Tree.FilesMultiplicity | main.py:113-125 | a walk hands each path to `visit_file` exactly as many times as the tree has file leaves with that path, so each leaf is visited exactly once |
| Tree.FilesMembership | main.py:113-125 | a path is handed to `visit_file` if and only if it is a file leaf of the tree |
| PathText.StartsWith | main.py:77-83 | `startswith` holds if and only if the prefix is no longer than the string and agrees with it at every index of the prefix |
| PathText.Contains | main.py:83 | a substring found by `in` is never longer than the string, and the empty string is in every string |
| PathText.ContainsOccurs | main.py:83 | the substring test `'executable' in mime_type` holds if and only if the substring occurs at some index |
| PathText.RFind | main.py:88 | `rfind` gives -1 or an index holding the character, with no occurrence after it |
| PathText.SplitExt | main.py:88 | root plus extension is the original path; the extension is empty, or it starts with `.` and has no further `.` and no `/` |
| PathText.SplitExtHasExtension | main.py:88-89 | the extension is non-empty if and only if the last path component has a `.` preceded in that component by a non-dot character |
| PathText.Capitalize | main.py:89 | `capitalize` keeps length and letters up to case; the result has no lower-case first letter and no upper-case later letter; a string already in that form is unchanged, so capitalizing is idempotent |
| SizeAnalysis.New | main.py:23-27 | a new visitor has the given threshold, a total of 0 and no large files |
| SizeAnalysis.VisitFile | main.py:29-38 | a failed size probe leaves the state unchanged; otherwise the size is added to the total, and `(path, size)` is appended exactly when size > threshold |
| SizeAnalysis.VisitDirectory | main.py:40-41 | a directory leaves the size state unchanged |
| SizeAnalysis.Result | main.py:43-48 | `get_result` reports the running total and the flagged `(path, size)` list as they stand |
| SizeAnalysis.VisitFilesSpec | main.py:29-38 | visiting a file sequence adds the sum of the successfully probed sizes to the total and appends the probed entries above the threshold, in visit order |
| SizeAnalysis.MeasuredMembership | main.py:30-33 | a `(path, size)` pair is among the measured files if and only if the path was visited and its probe returned that size |
| SizeAnalysis.AboveMembership | main.py:35-36 | an entry is kept by the threshold filter if and only if it is present and its size is strictly greater than the threshold |
| SizeAnalysis.MeasuredCount | main.py:30-33 | a `(path, size)` pair is measured as many times as the path is visited when its probe gives that size, and never otherwise |
| SizeAnalysis.AboveCount | main.py:35-36 | the threshold filter keeps every copy of an entry strictly above the threshold and no copy of any other |
| SizeAnalysis.AboveMeasuredCount | main.py:29-36 | a pair is flagged as many times as its path is visited when the probe gives that size above the threshold, and never otherwise |
| SizeAnalysis.FreshVisit | main.py:22-48 | from a fresh visitor, the total is the sum over successful probes, and `(p, s)` is flagged if and only if `p` was visited, its probe gave `s`, and `s` > threshold. An equal-sized, failed or empty file is never flagged when the threshold is at least 0 |
| PermissionAnalysis.BitAndBits | main.py:57 | bit `k` of `a & b` is set if and only if bit `k` is set in both `a` and `b`, for every `k` |
| PermissionAnalysis.BitAndIwoth | main.py:57 | masking with `S_IWOTH` (2) gives 2 times bit 1 of the mode |
| PermissionAnalysis.WorldWritableBit | main.py:57 | the test `st_mode & S_IWOTH` holds if and only if bit 1 of the mode is set; bits other than the two lowest cannot change it |
| PermissionAnalysis.New | main.py:52-53 | a new visitor has an empty list |
| PermissionAnalysis.VisitFile | main.py:55-60 | a file is appended exactly when its `stat` succeeds and has the bit; a failed `stat` or a clear bit leaves the state unchanged |
| PermissionAnalysis.VisitDirectory | main.py:62-63 | a directory leaves the list unchanged, so directories are never flagged |
| PermissionAnalysis.Result | main.py:65-66 | `get_result` reports the flagged paths in the order they were flagged |
| PermissionAnalysis.VisitFilesSpec | main.py:55-60 | visiting a file sequence appends exactly the flagged files, in visit order |
| PermissionAnalysis.WritableCount | main.py:55-58 | a flagged path occurs in the result as often as it was visited; any other path never occurs |
| PermissionAnalysis.FreshVisit | main.py:51-66 | from a fresh visitor, the result is the visit-ordered list of flagged files; a path is in it if and only if it was visited and flagged, as often as it was visited |
| CategoryAnalysis.MimeCategory | main.py:76-86 | the content-type precedence: `Text` if and only if it starts with `text`; `Image` if and only if not text and starts with `image`; `Video` likewise after both; `Executable` if and only if none of those, starts with `application` and contains `executable`; otherwise `Other` |
| CategoryAnalysis.ExtensionCategory | main.py:87-89 | with no extension the label is `Unknown`; otherwise it is the extension text after the dot, letter for letter up to case, capitalized |
| CategoryAnalysis.Classify | main.py:73-95 | a raised guess means no label; a non-empty content type is labelled by precedence; no guess or an empty one falls back to the extension |
| CategoryAnalysis.Increment | main.py:91-93 | incrementing raises the count of the label by one, leaves every other count unchanged, and raises the total by one |
| CategoryAnalysis.IncrementLabels | main.py:91-93 | a new label is appended at the end and existing labels keep their order, as dict insertion order does |
| CategoryAnalysis.IncrementWellFormed | main.py:91-93 | incrementing keeps labels distinct and every stored count at least 1 |
| CategoryAnalysis.IncrementCounts | main.py:91-93 | incrementing never leaves a stored count below 1 |
| CategoryAnalysis.New | main.py:70-71 | a new visitor has an empty table |
| CategoryAnalysis.VisitFile | main.py:73-95 | a file with a label increments that label; a raised probe leaves the state unchanged |
| CategoryAnalysis.VisitDirectory | main.py:97-98 | a directory leaves the table unchanged |
| CategoryAnalysis.Result | main.py:100-101 | `get_result` reports the label table itself |
| CategoryAnalysis.VisitFilesSpec | main.py:73-95 | visiting a file sequence adds, for each label, the number of files given it; adds the number of classified files to the total; appends new labels in first-seen order; and keeps the table well formed |
| CategoryAnalysis.FreshVisit | main.py:69-101 | from a fresh visitor, each label's count is the number of files given that label, the counts sum to the number of classified files, every present label has count at least 1, and labels appear in first-seen order |
| Analyzer.ClassName | main.py:151 | the result key of a size, permission or category visitor is `FileSizeVisitor`, `PermissionVisitor` or `FileCategoryVisitor` respectively |
| Analyzer.ClassNameKeys | main.py:151 | two visitors get the same result key if and only if they are of the same class |
| Analyzer.GetResult | main.py:151 | `get_result` gives the report kind of the visitor's own class, holding that visitor's current state; see lines 43-48, 65-66 and 100-101 |
| Analyzer.VisitFile | main.py:113-114 | dispatching `visit_file` never changes the visitor's class |
| Analyzer.VisitDirectory | main.py:122-123 | `visit_directory` leaves every visitor unchanged; each class's own no-op is at lines 40-41, 62-63 and 97-98 |
| Analyzer.Accept | main.py:113-125 | a walk never changes the visitor's class |
| Analyzer.AcceptAll | main.py:124-125 | the loop over a directory's entries never changes the visitor's class |
| Analyzer.AcceptReplaysEvents | main.py:113-125 | one `accept` fires exactly the callbacks of the pre-order event sequence, in order |
| Analyzer.ReplayVisitsFiles | main.py:122-123 | because `visit_directory` does nothing, replaying callbacks is visiting only their files, in order |
| Analyzer.AcceptVisitsFiles | main.py:122-125 | a walk of any tree equals folding `visit_file` over its pre-order file sequence |
| Analyzer.VisitAllDispatch | main.py:11-19 | walking a visitor through the protocol is walking that analysis's own state |
| Analyzer.SizeWalk | main.py:150-151 | a fresh size visitor walked over a tree gives the sum of successful probes and flags exactly the probed files above the threshold, in pre-order; it flags `(p, s)` if and only if `p` is a file of the tree, probed at `s`, with `s` above the threshold; and such a pair is flagged once per file leaf with path `p` |
| Analyzer.PermissionWalk | main.py:150-151 | a fresh permission visitor walked over a tree reports the tree's flagged files in pre-order; `p` is reported if and only if it is a file of the tree and flagged, and a flagged path is reported once per file leaf with that path |
| Analyzer.CategoryWalk | main.py:150-151 | a fresh category visitor walked over a tree counts each label as often as the tree's files get it; the counts sum to the number classified; the table is well formed; labels appear in the order the walk first meets them |
| Analyzer.NamesStep | main.py:149-151 | after one more visitor, the set of result keys grows by exactly that visitor's class name |
| Analyzer.StoreLast | main.py:149-151 | storing one more report under its class name keeps, for every class, the report of its last visitor so far |
| Analyzer.StoreStep | main.py:149-151 | one loop iteration of `analyze` keeps the keys and the stored reports in step with the visitors seen |
| Analyzer.Analyze | main.py:147-152 | the result has exactly one key per class among the visitors; the entry of each class is the result of that class's last visitor walking the whole tree alone, whatever the other visitors are |
| Analyzer.MainClasses | main.py:191-195 | a size, a permission and a category visitor give three distinct keys, and each is the last of its class |
| Analyzer.AnalyzeForMain | main.py:191-196 | the entry point's three visitors, with threshold 50 000 000, give exactly the three class-name keys, each holding its own fresh walk |
| Scenarios.SingleFileSizes | test_cases.py:14-48 | threshold 500: a 600-byte file gives total 600 and is flagged; 200-byte and empty files are counted and not flagged |
| Scenarios.TwoLargeFiles | test_cases.py:50-64 | two files of 600 and 800 bytes are both flagged, in visit order, with total 1400 |
| Scenarios.WritableModes | test_cases.py:71-91 | mode `S_IWOTH` is flagged; mode 0o400 is not |
| Scenarios.MixedPermissions | test_cases.py:93-109 | one visitor over a world-writable file and then an owner-read-only one (0o400) reports only the first |
| Scenarios.NoExtensionUnknown | main.py:87-89 | `dir/README` has no extension and gets `Unknown` |
| Scenarios.ExtensionCapitalized | main.py:87-89 | `a/b.tar.GZ` gets `Gz`: only the last extension counts, capitalized |
| Scenarios.LeadingDotUnknown | main.py:87-89 | `.bashrc` gets `Unknown`: a leading dot is not an extension |
| Scenarios.TrailingDotEmpty | main.py:87-89 | `notes.` gets the empty label `""` |
| Scenarios.NestedDirectory | test_cases.py:141-169 | for root/subdir/file.txt with the file-system answers of a 12-byte regular text file with `st_mode` 0o100644, each visitor's own walk gives size total 12 with nothing flagged, no writable files, and the tally `{"Text": 1}` |
| Scenarios.SingleFile | test_cases.py:112-138 | the same three walks with the file directly in the root directory |
| Scenarios.AnalyzeNested | test_cases.py:153-169 | `analyze` over the nested tree with the default visitors: the keys are the three class names, `FileSizeVisitor` totals 12, `PermissionVisitor` is empty and `FileCategoryVisitor` is `{"Text": 1}` |
| Scenarios.AnalyzeSingleFile | test_cases.py:123-138 | the same lookups in the result of `analyze` over the single-file tree |

## Left out

- Building the tree (`_build_directory_structure`, main.py:138-145) reads the
  file system with `os.scandir`. The tree is an input of the model. The
  root-is-a-directory check and its `ValueError` (main.py:133-134) are I/O
  too. `Analyze` accepts any node as root; the source always passes a
  directory.
- `os.path.getsize`, `os.stat` and `mimetypes.guess_type` are foreign calls.
  They are oracle fields of `Probe`, and nothing is assumed about their
  answers.
- `Analyze` passes one probe to every visitor's walk, so all walks see the
  same answers. Python queries the operating system afresh on each walk
  (main.py:149-151), so a file that changes between two walks can give
  different answers to different visitors, or between callbacks of one
  walk. The model does not cover such changes.
- `Path` is a Dafny string, a sequence of Unicode scalar values. A POSIX file
  name with bytes that do not decode, which Python holds as lone surrogates
  (`surrogateescape`), has no `Path`.
- The `logging.error` calls in the `except OSError` branches are left out.
  Only their effect, skipping the file, is modelled. `logging.basicConfig`,
  `log_analysis_results` (main.py:154-181), `main`'s error exit and
  `argparse` are left out as output and process plumbing. `AnalyzeForMain`
  models only the visitor set-up and the `analyze` call of `main`.
- The `file_sizes` dict of `FileSizeVisitor` is written but never returned,
  so it is not modelled.
- Visitors are values. If the same visitor object appears twice in the list
  passed to `analyze`, Python accumulates its state over two walks. The model
  treats the two list entries as independent.
- PathText.Capitalize: case mapping covers ASCII letters only. Python's
  `str.capitalize` also title-cases and lower-cases other Unicode letters,
  which Dafny strings cannot express without a Unicode table.
- PathText.SplitExt: only the POSIX flavour (`/` separator, no alternative
  separator) is modelled.
- The abstract base classes `FileVisitor` and `FileSystemElement`
  (main.py:11-19, 104-106) raise `NotImplementedError`. The closed `Visitor`
  datatype covers exactly the three concrete analyses, so an incomplete
  visitor cannot exist.
- The order of keys in the `analyze` result dict is not modelled. It only
  affects rendering.
