# yumcheckrepo, modelled in Dafny

`yumcheckrepo.py` checks whether YUM repositories are reachable. It can report in a
Nagios-compatible way. Around its wrapper of the `yum` library sit three pieces of plain
logic, and this project models and proves them:

- **Repository selection** (the end of `main`). The positional arguments name repository
  ids. Arguments that name no configured repository give `EX_USAGE` (64), and the invalid
  ids are logged in sorted order. Otherwise the selection is the repositories whose id was
  given. Without arguments every repository is selected. An empty selection gives
  `EX_NOINPUT` (66) or `EX_CONFIG` (78). These are the BSD `sysexits.h` codes.
  Modules `Selection` and `Cli`.
- **Probing and reporting** (`check_repository`, `check_repositories`, `check_and_show`).
  Each repository gets one metadata fetch. A `RepoError` or any other exception from the
  fetch, or a `None` result, counts as a failure. An id that is not loaded is meant to
  count as a failure too, but as written it raises (see Findings); `main` never passes
  such an id. The
  `(id, is_ok)` pairs are sorted. Then one record is written per repository, to stdout or
  stderr, and the exit status is computed. In plain mode it is 0 or 1; in Nagios mode it
  is 0 or 2, and a newline closes the line after a failure. Modules `Probing`, `Report`
  and `Sorting`, plus `Ordering` for Python's ordering of `str` and of tuples.
- **`reposdir` normalisation** (`NotYumBase.__fix_paths`). Duplicate entries are dropped.
  Absolute entries are kept. Relative entries are joined onto the configuration file's
  directory, or onto the current directory when `--reposdir` overrides the configuration,
  and then resolved with `realpath`. Module `Paths`, with the `YumConf` and `NotYumBase`
  classes.

How the pieces are modelled:

- The metadata fetch (`_getFileRepoXML`) is a parameter: a function from repository id
  to `Probe`, which is either a returned value (possibly `None`) or a raised exception.
- The loaded repositories are a `Catalog`: a map from id to display name, together with
  the order in which the dictionary yields them.
- Everything `check_and_show` writes to stdout and stderr is a sequence of
  `(channel, text)` records. The `logger` output on stderr is not among them.
- `os.path.realpath` and `os.getcwd()` depend on the filesystem, so they come in as an
  `Os` value.
- `os.path.isabs`, `os.path.join` and `os.path.dirname` are written out with their POSIX
  definitions.

`check_and_show` and `__fix_paths` change things step by step, so they are methods with
loops. The loop of `__fix_paths` picks each next element of the set with `:|`. This
stands for Python's unspecified set-iteration order, and the order taken is returned as
a ghost sequence. The selection block, `check_repository` and `check_repositories` are
functions.

## Model

| member | source | states |
|---|---|---|
| `Probing.CheckRepository` | yumcheckrepo.py:158-192 | the intended `check_repository`: true exactly when the id is a loaded repository and its fetch returned a non-`None` result; a raised `RepoError` or other exception, a `None` result and an id that is not loaded all give false |
| `Probing.CheckRepositoryAsWritten` | yumcheckrepo.py:166-192 | as written: raises `AttributeError` exactly when the id is not loaded (line 189 reads `.id` off the id string); otherwise the intended answer |
| `Probing.UnknownIdRaises` | yumcheckrepo.py:168-189 | `check_repository('nope')` with only `base` loaded raises as written, where the intended answer is false |
| `Probing.CheckRepositories` | yumcheckrepo.py:195-205 | the intended `check_repositories`: one pair per repository, same length and order, the id preserved and the flag true exactly when that repository is loaded and its fetch succeeded |
| `Probing.CheckRepositoriesAsWritten` | yumcheckrepo.py:195-205 | as written: raises exactly when some repository's id is not loaded; otherwise gives the intended pairs |
| `Probing.ProbeIsolation` | yumcheckrepo.py:166-205 | replacing what one repository's fetch does (raise, return `None`) leaves every other repository's outcome unchanged |
| `Sorting.SortOutcomesCorrect` | yumcheckrepo.py:219 | `data.sort()` leaves the pairs in ascending `(id, is_ok)` order and keeps each pair with its multiplicity |
| `Sorting.SortedUnique` | yumcheckrepo.py:219 | a multiset of pairs has only one ascending arrangement |
| `Sorting.SortOutcomesOrderIndependent` | yumcheckrepo.py:218-219 | the sorted outcomes depend only on which outcomes there are, not on the order they were produced in |
| `Sorting.SortedDistinct` | yumcheckrepo.py:307 | `sorted(set(...))` lists each distinct element once, in strictly ascending order |
| `Sorting.StrictlySortedUnique` | yumcheckrepo.py:307 | a set of strings has exactly one strictly ascending listing |
| `Report.FormatParts` | yumcheckrepo.py:221-231 | `fmt(status, id)` is the status, `: `, the id, then `; ` in Nagios mode or `\n` otherwise, so both can be read back from the text |
| `Report.Line` | yumcheckrepo.py:227-237 | an OK outcome is written as `OK`, a failed one as `FAIL`; only a failure in plain mode goes to stderr |
| `Report.Show` | yumcheckrepo.py:217-242 | one record per outcome, the k-th being the line of the k-th sorted outcome, and in Nagios mode after a failure one more record, a newline on stdout |
| `Report.CheckAndShow` | yumcheckrepo.py:209-244 | writes the records `Show` describes and returns `ExitStatus`; 0 exactly when every repository checks OK, otherwise 1 in plain mode and 2 in Nagios mode |
| `Report.AllOkPermutation` | yumcheckrepo.py:233-238 | whether any repository failed does not depend on the order of the outcomes |
| `Report.ShowOrderIndependent` | yumcheckrepo.py:217-244 | records and exit status are the same for any arrangement of the same outcomes |
| `Report.ShowAscending` | yumcheckrepo.py:219-237 | record i is the line of the i-th sorted outcome; earlier records have ids no greater than later ones; each comes from one of the outcomes |
| `Report.ShowPlain` | yumcheckrepo.py:228-238 | plain mode: exactly one record per repository and no trailer; `OK: <id>\n` on stdout for OK, `FAIL: <id>\n` on stderr for FAIL |
| `Report.ShowNagios` | yumcheckrepo.py:221-242 | Nagios mode: every record on stdout as `OK: <id>; ` or `FAIL: <id>; `, then a single `\n` exactly when some repository failed |
| `Report.PlainScenario` | yumcheckrepo.py:228-244 | repositories C (OK), B (FAIL), A (OK) in plain mode: `OK: A`, `OK: C` on stdout, `FAIL: B` on stderr, in id order, exit 1 |
| `Report.NagiosScenario` | yumcheckrepo.py:221-244 | the same repositories in Nagios mode: `OK: A; FAIL: B; OK: C; ` then a newline, all on stdout, exit 2 |
| `Report.ShowAsWritten` | yumcheckrepo.py:233-237 | the code as written: raises `AttributeError` for any non-empty list of outcomes; only an empty list gets through, with status 0 and no output |
| `Selection.ExitCode` | yumcheckrepo.py:309-322 | invalid arguments map to `EX_USAGE`, an empty selection from arguments to `EX_NOINPUT`, no repositories to `EX_CONFIG`, each code for exactly one case |
| `Selection.ExitCodesDistinct` | yumcheckrepo.py:309-322 | the three codes are 64, 66 and 78: pairwise distinct and non-zero |
| `Selection.Missing` | yumcheckrepo.py:301-302 | the arguments absent from the catalog are exactly `set(args) - catalog ids` |
| `Selection.ReposIn` | yumcheckrepo.py:310-314 | the repositories kept are exactly those of the catalog whose id was requested, each with its catalog name, none twice |
| `Selection.AllRepos` | yumcheckrepo.py:318 | every configured repository, each once, with its name |
| `Selection.NonEmpty` | yumcheckrepo.py:320-322 | an empty selection is `EX_CONFIG`; a non-empty one passes through unchanged |
| `Selection.Select` | yumcheckrepo.py:300-322 | a successful selection is non-empty, holds only catalog repositories with their catalog names, none twice, and its ids are all configured ids without arguments or exactly the argument set with them; `EX_USAGE` only with arguments |
| `Selection.SelectAll` | yumcheckrepo.py:317-322 | without arguments, a non-empty catalog selects every repository and no error occurs; an empty catalog gives `EX_CONFIG` |
| `Selection.SelectInvalid` | yumcheckrepo.py:300-309 | `EX_USAGE` happens if and only if some argument names no repository; the reported ids are exactly `args - catalog ids`, each once, in sorted order |
| `Selection.SelectRequested` | yumcheckrepo.py:310-316 | when every argument names a repository, the selection is non-empty and is exactly the repositories whose id was given, none twice |
| `Selection.NoInputUnreachable` | yumcheckrepo.py:315-316 | `EX_NOINPUT` is never returned |
| `Selection.SelectEmptyCatalog` | yumcheckrepo.py:300-322 | an empty catalog gives `EX_CONFIG` without arguments, and `EX_USAGE` naming every argument with arguments |
| `Selection.SelectDependsOnArgumentSet` | yumcheckrepo.py:301-309 | repeating or reordering the arguments does not change the result, the reported invalid ids included |
| `Selection.UnknownIdScenario` | yumcheckrepo.py:300-309 | repositories A, B, C and argument Z: `EX_USAGE` reporting exactly `Z` |
| `Selection.InvalidMessage` | yumcheckrepo.py:304-308 | the log line says `invalid repository: <id>` for one id and `invalid repositories: <a>, <b>` for two |
| `Cli.CheckSelected` | yumcheckrepo.py:300-325 | a selection error returns its code and no records (the `logger.error` output is not modelled); otherwise the result of `check_and_show`, which is 0 exactly when the fetch of every selected repository produced metadata |
| `Cli.SelectionAvoidsUnknownIds` | yumcheckrepo.py:300-325 | every repository `main` passes on is loaded, so the as-written `check_repositories` does not raise there and gives the intended pairs |
| `Cli.AsWrittenAlwaysRaises` | yumcheckrepo.py:233-237 | as written, every run that gets past the selection raises `AttributeError` in `check_and_show` |
| `Paths.IsAbs` | yumcheckrepo.py:144 | `os.path.isabs` on POSIX: the path starts with `/` |
| `Paths.Join` | yumcheckrepo.py:145-150 | `os.path.join`: an absolute second part wins; otherwise the result starts with the base, and it is absolute when the base is |
| `Paths.Dirname` | yumcheckrepo.py:132-134 | `os.path.dirname` of an absolute path is absolute |
| `Paths.BaseDir` | yumcheckrepo.py:132-140 | the current directory under an override; otherwise the configuration file's directory, absolute when `realpath` is |
| `Paths.FixPath` | yumcheckrepo.py:144-151 | an absolute entry is unchanged; with a POSIX `realpath` the fixed entry is absolute |
| `Paths.FixAll` | yumcheckrepo.py:143-151 | one fixed entry per entry, in order; absolute entries come out unchanged, and with a POSIX `realpath` every entry comes out absolute |
| `Paths.RelativeResolvedAgainstBase` | yumcheckrepo.py:144-150 | a relative entry becomes `realpath(join(base, entry))`, and what `realpath` is given starts with the base directory |
| `Paths.NotYumBase.FixPaths` | yumcheckrepo.py:127-155 | the new `reposdir` has one entry per distinct entry of the override (or of the old value without one); absolute entries are unchanged; relative ones are resolved against the configuration file's directory, or the current directory under an override; all are absolute when `realpath` answers with absolute paths |

## Left out

- The `yum` library (`YumBase`, `_YumPreBaseConf`, repository loading, `_getFileRepoXML`) is foreign code. The fetch is a parameter and the loaded repositories are a `Catalog` value.
- `check_repository` also accepts a repository object (its `isinstance` branch). `check_repositories` always passes ids, so the model takes ids only.
- Logging is I/O and is not modelled: the messages of `check_repository` (lines 174-189), the `EX_USAGE` message of `main` (lines 304-308, whose text alone is modelled, as `InvalidMessage`), `no repositories found` (line 321) and the debug line of `__fix_paths`. They go to stderr through `logging.basicConfig` (line 278) and are not among the `Record`s.
- The temporary cache directory and its removal at exit (`__setTemporaryCacheDir`) are left out: filesystem side effects.
- `optparse` option parsing, the `logging` setup, `--man` and `--list-repos` are left out. They are command-line plumbing, and `--list-repos` prints dictionary order.
- The `os.fdopen` of stdout and the stream writes are not modelled. Each write is a `Record`, and `check_and_show` returns the records in order. In Nagios mode the records go through an unbuffered stdout and the closing newline through `sys.stdout`. Any interleaving from that buffering is not modelled.
- `os.path.realpath` and `os.getcwd()` depend on the filesystem. They are the fields of `Os`. `RealpathAbsolute` is the one property the model assumes of them, and only where it is named.
- `Sysexit` is never raised in the module, so it is left out.
- `setup.py` is packaging metadata, so it is left out.
- `data.sort()` runs the Python library's sort in place. The model uses a pure insertion sort, `SortOutcomes`. It is proved to sort and to keep every element, so the in-place mutation of the list is not captured.
- The `NotYumBase` constructor sets up yum and the cache directory and then calls `__fix_paths`. It is reduced to storing the configuration, and `FixPaths` is called on its own.
- Paths.NotYumBase.FixPaths: the order of the rebuilt list is left open, as Python's set iteration order is. The ghost result `visited` records the order taken.
- Globbing, case-insensitive or name-based matching, concurrent probing and process isolation are not in the code. Selection is exact id membership, and probing is a sequential list comprehension.
- The Nagios output is not grouped by status. The code writes one `STATUS: id; ` per repository in id order. It writes the closing newline only when some repository failed, so an all-OK Nagios run ends without a newline. The model follows the code.

## Findings

| source | as written | input that shows it | evidently intended | confidence | as-written member | corrected member |
|---|---|---|---|---|---|---|
| yumcheckrepo.py:188-189 | for an id that is not loaded, the `KeyError` is caught while `repository` is still the id string, so `repository.id` in the message raises `AttributeError`, against the `:raise: never` of line 164 | `check_repository('nope')` with no repository `nope` loaded | log the failure and return `False` | high; not executed | `Probing.CheckRepositoryAsWritten`, `Probing.UnknownIdRaises` | `Probing.CheckRepository` |
| yumcheckrepo.py:235-237 | `out.write(...)` and `err.write(...)` are called on the lambdas `out` and `err` (lines 227, 230-231), which have no `write` attribute, so the first repository of the loop raises `AttributeError` | any run that selects at least one repository, e.g. one configured repository and no arguments, in either mode | `out('OK', id)` and `err('FAIL', id)`, formatted by `fmt` (`'{}: {}; '` in Nagios mode, `'{}: {}\n'` otherwise) | high; not executed | `Report.ShowAsWritten`, `Cli.AsWrittenAlwaysRaises` | `Report.CheckAndShow` |
