# Solution-configuration validator, modelled in Dafny

The repository holds one script, `scripts/validate_solutions.py`. It keeps three
sources of truth in step:

1. the declared solution list in `solutions.json` (a JSON array of strings);
2. the directories under `solutions/`;
3. the generated dropdown blocks in four workflow definition files. Each block
   is delimited by a `# GENERATED-OPTIONS-START` line and a
   `# GENERATED-OPTIONS-END` line and lists one `- <name>` item per solution,
   plus an optional `- <none>` placeholder.

A configuration error or a reconciliation error stops the run at once. Errors
in the workflow files are collected, one per file, and reported together. The
process exits with status 1 on any error and 0 otherwise.

The model treats one run as a pure function `Validator.Run` from a `Snapshot`
of what the script reads to an `Outcome`:

- `config`: the configuration file. It is `Absent`, `Unparsable` (any
  failure while reading it: `open` failing, bytes that are not UTF-8, or text
  `json.load` rejects, all reported alike), or `Parsed(v)` with `v` a `JValue`.
- `listing`: `None` when `solutions` is not a directory. Otherwise the entries
  of `os.listdir`, each with the result of `os.path.isdir`.
- `workflows`: a map from the four `WorkflowPath`s to the lines of each file.
  A path missing from the map is a file that does not exist.

The outcome is one of `ConfigErr`, `MissingErr`, `ExtraErr`, `WorkflowErrs` or
`Passed`, and `ExitStatus` maps it to the exit status.

Files, one module each:

| file | module | what it holds |
|---|---|---|
| `wrappers.dfy` | `Wrappers` | `Option` and `Result` |
| `seqs.dfy` | `Seqs` | `SetOf` (a list seen as a set) and the subsequence relation |
| `text.dfy` | `Text` | Python whitespace, `strip()`, `startswith()`, `split(sep, 1)[1]` |
| `sorting.dfy` | `Sorting` | code-point string order and `list.sort()` |
| `config.dfy` | `Config` | the shape check and normalisation of the declared list |
| `directories.dfy` | `Directories` | the directory scan and the missing/extra reconciliation |
| `workflows.dfy` | `Workflows` | marker search, block extraction, option parsing, per-file checks and the batching loop |
| `validator.dfy` | `Validator` | the whole run and its end-to-end properties |
| `scenarios.dfy` | `Scenarios` | worked runs on two solutions, proved for every pair of plain names |

Whitespace is Python's: `Text.IsWs` holds for exactly the characters for which
`str.isspace()` holds. That is the set `strip()` removes and the set `\s`
matches in a `str` pattern, so one predicate serves both. The marker regex
`#\s*TOKEN` is stated twice: once as what the regular expression means
(`Workflows.RegexSearch`), and once as the scan the model computes with
(`Workflows.HasMarker`). The two are proved equal.

## Model

| member | source | states |
|---|---|---|
| Text.TrimPads | scripts/validate_solutions.py:18 | `strip()` removes only whitespace, and only from the two ends of the string |
| Text.TrimUnique | scripts/validate_solutions.py:18 | `strip()` is the one string with no whitespace at either end that the input pads with whitespace |
| Text.TrimEmptyIffAllWs | scripts/validate_solutions.py:18 | an entry strips to the empty string exactly when it is whitespace only, which is when `if s.strip()` drops it |
| Text.TrimIdempotent | scripts/validate_solutions.py:18 | stripping twice is stripping once |
| Text.SplitAfterFirst | scripts/validate_solutions.py:64 | `split(sep, 1)[1]` is absent exactly when `sep` never occurs, and otherwise is the text after the first occurrence of `sep`; when the string starts with `sep` that is the text after the prefix |
| Sorting.Sort | scripts/validate_solutions.py:28 | the sorted list is in ascending code-point order and holds exactly the input's elements with their counts |
| Sorting.SortedPermutationUnique | scripts/validate_solutions.py:28 | two ascending arrangements of the same names are the same list, so the sorted directory list is fully determined |
| Config.Strings | scripts/validate_solutions.py:16 | the array is accepted exactly when every element is a string, and the strings keep their positions |
| Config.Normalize | scripts/validate_solutions.py:18 | every kept entry is non-empty with no surrounding whitespace; every non-blank input entry appears stripped; nothing else appears |
| Config.NormalizeAppend | scripts/validate_solutions.py:18 | entries are handled one by one and the input order is kept |
| Config.NormalizeIdempotent | scripts/validate_solutions.py:18 | a normalised list is a fixed point of normalisation |
| Config.LoadDeclared | scripts/validate_solutions.py:9-18 | a missing file, unparsable text, a non-array or a non-string element are each rejected with their own error; otherwise the result is the normalised array of strings: exactly the non-blank entries, stripped, in array order and with their repeats |
| Directories.VisibleDirs | scripts/validate_solutions.py:22-27 | a name is kept exactly when some entry with that name is a directory whose name does not start with `.` |
| Directories.VisibleDirsAppend | scripts/validate_solutions.py:23-26 | the filter keeps listing order and takes each entry at most once: the names of `a + b` are those of `a` followed by those of `b` |
| Directories.VisibleDirsOne | scripts/validate_solutions.py:25-26 | one entry yields its name exactly when it is a visible directory, and nothing otherwise |
| Directories.ScanDirectories | scripts/validate_solutions.py:22-28 | the scan is sorted, is empty when `solutions` is not a directory, and is a permutation of the visible directory names |
| Directories.NotIn | scripts/validate_solutions.py:30-31 | `missing` and `extra` keep the order of the list they filter and hold exactly its elements absent from the other list, each as often as it occurs there |
| Directories.Reconcile | scripts/validate_solutions.py:30-35 | passes exactly when the declared set equals the directory set; reports `missing` whenever some declared name has no directory, whatever `extra` is; reports `extra` only when every declared name has a directory; each report lists its names in order, with their repeats |
| Directories.ReconcileOnlyDeclaredSet | scripts/validate_solutions.py:30-35 | order and repetition in the declared list change nothing but the order and repetition of the missing names: both results are `Missing` together, with the same set of names, and any other result is identical |
| Directories.MissingNamesOnlyDeclaredSet | scripts/validate_solutions.py:30-33 | declared lists with the same names report the same set of missing names |
| Workflows.HasMarkerIsRegexSearch | scripts/validate_solutions.py:38-39 | for a token not starting with whitespace, the scan "`#`, skip whitespace, token" finds a match exactly when `re.search(r'#\s*TOKEN', line)` does, anywhere in the line |
| Workflows.MarkersFollowRegex | scripts/validate_solutions.py:38-39 | both marker patterns of the script are matched exactly as their regular expressions specify |
| Workflows.FirstMarker | scripts/validate_solutions.py:55-56 | the index found is the first line holding the marker; none is found exactly when no line holds it |
| Workflows.MarkedBlock | scripts/validate_solutions.py:55-63 | the markers are reported missing exactly when either marker occurs on no line; otherwise the block is rejected as malformed or is at least two lines shorter than the file |
| Workflows.MarkedBlockBetweenMarkers | scripts/validate_solutions.py:55-63 | with the first start line at `si` and the first end line at `ei`, `ei <= si` is malformed and otherwise the block is exactly the lines strictly between them |
| Workflows.OptionText | scripts/validate_solutions.py:64 | a line yields an option exactly when its stripped form starts with `- `; the option is the stripped text after that prefix and is never empty |
| Workflows.BlockOptions | scripts/validate_solutions.py:64 | every collected option is non-empty and trimmed, and there are no more options than block lines |
| Workflows.BlockOptionsMembers | scripts/validate_solutions.py:63-64 | an option is collected exactly when some line strictly between the markers is a list item yielding it |
| Workflows.BlockOptionsAppend | scripts/validate_solutions.py:64 | each line contributes on its own, in block order |
| Workflows.NonItemLineIgnored | scripts/validate_solutions.py:63-64 | a line that is not a list item changes nothing, wherever it sits in the block |
| Workflows.OptionSet | scripts/validate_solutions.py:65 | the compared set never holds `<none>` and holds every other option of the block |
| Workflows.OptionSetIgnoresLineOrder | scripts/validate_solutions.py:63-65 | the order and repetition of block lines do not matter |
| Workflows.CheckLines | scripts/validate_solutions.py:55-67 | a file fails with missing markers exactly when a marker is absent; a mismatch carries the found set, which differs from the expected set and lacks `<none>`; a declared `<none>` can never pass |
| Workflows.CheckLinesBetweenMarkers | scripts/validate_solutions.py:55-67 | with both markers found, a file passes exactly when the option set between them equals the declared set, and otherwise reports that set |
| Workflows.CheckFile | scripts/validate_solutions.py:49-51 | a missing file fails with its own error, and only a missing file does |
| Workflows.ErrorsFor | scripts/validate_solutions.py:46-67 | the error paths are a subsequence of the path list, so errors come in path order and at most one per path; every error belongs to a checked path and is that path's failure; every failing path is reported; no errors exactly when every path passes |
| Workflows.ErrorsForAppend | scripts/validate_solutions.py:48-67 | an error in one path neither stops nor changes the checks of the later paths |
| Workflows.CheckWorkflows | scripts/validate_solutions.py:46-67 | the loop over the paths collects exactly the batched error list |
| Validator.Run | scripts/validate_solutions.py:8-74 | a configuration error happens exactly when loading fails; missing names are reported exactly when some declared name has no directory; the workflow files are reached exactly when the two sets agree; the run passes exactly when all four files pass too |
| Validator.ExitStatusSpec | scripts/validate_solutions.py:69-74 | the exit status is 0 exactly when loading succeeds, the sets agree and every workflow file passes |
| Validator.ConfigErrorStopsRun | scripts/validate_solutions.py:9-17 | a rejected configuration ends the run whatever the directories and workflow files hold |
| Validator.ReconcileErrorStopsRun | scripts/validate_solutions.py:32-35 | a reconciliation error ends the run whatever the workflow files hold |
| Validator.MissingReportedFirst | scripts/validate_solutions.py:30-35 | a declared name without a directory is reported as missing, whatever extra directories exist |
| Validator.WorkflowErrorsBatched | scripts/validate_solutions.py:46-72 | once the workflow stage is reached, every failing path is reported, in path order, at most once each |
| Validator.OnlyDeclaredSetMatters | scripts/validate_solutions.py:30-67 | two declared lists with the same names end with the same exit status, the same set of missing names, and the same extra or workflow errors |
| Scenarios.MarkerLinesQualify | scripts/validate_solutions.py:38-39 | a `# GENERATED-OPTIONS-START` comment line matches the start pattern and not the end pattern; a `# GENERATED-OPTIONS-END` line matches the end pattern |
| Scenarios.GeneratedFileCheck | scripts/validate_solutions.py:55-67 | a file made of a start line, one `- name` item per name and an end line passes exactly when its names other than `<none>` are the declared set, and otherwise reports that set |
| Scenarios.AllInSyncPasses | scripts/validate_solutions.py:8-74 | declaring `a` and `b`, with both directories listed out of order and every block listing both and the `<none>` placeholder, passes with the directories sorted |
| Scenarios.MissingDirectoryReported | scripts/validate_solutions.py:30-33 | declaring `a` and `b` with only directory `a` reports exactly `b` missing, whatever the workflow files hold |
| Scenarios.OneStaleWorkflowReported | scripts/validate_solutions.py:46-72 | when only the manual-release block is stale, listing `a` alone, the run reports that one file, with found set `{a}` and expected set `{a, b}` |

## Left out

- File-system access (`os.path.isfile`, `os.path.isdir`, `os.listdir`, `open`) is not modelled. Its results are fields of the `Snapshot`.
- JSON text parsing (`json.load`) and UTF-8 decoding are not modelled. Only the parsed value's shape is; a failure to open, decode or parse the file is the `Unparsable` input.
- If listing `solutions` fails (for example, permission is denied), `os.listdir` raises and the script stops with an uncaught exception. The model has no such case: a directory is given by its entries.
- A workflow file that exists but cannot be read or is not valid UTF-8 makes the script stop with an uncaught exception. The model has no such case: each existing file is given by its lines.
- `str.splitlines()` is not modelled. A workflow file is given as its sequence of lines.
- Printing, the text of every message and the `sorted(...)` rendering in them are not modelled, nor is `sys.exit`. Errors are data, and `ExitStatus` gives the status.
- The literal workflow file names are not modelled. They are the four values of `WorkflowPath`, checked in the script's order.
- Strings are sequences of Unicode scalar values. Python strings holding lone surrogates have no counterpart.
- Text.SplitAfterFirst: Python raises `ValueError` for an empty separator. The model does not, because the script only splits on `- `.
