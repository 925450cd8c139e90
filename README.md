# Nightly-build cleanup: a Dafny model of `clean_builds`

The cleanup script frees disk space under a build root. It lists the root's
entries and sorts them by name, which puts the oldest date-named builds first.
It then deletes them one at a time, oldest first, for as long as the
free-space reading stays at or below a threshold in GB. A failed delete ends
the run at once with -1. Otherwise a last reading decides between 0 (enough
space) and -1.

The model has five modules:

- `NameOrder` (`name_order.dfy`): Python's `str` ordering, which compares
  code point by code point and puts a proper prefix first. It is proved to be
  a total order and is characterised by the first differing code point.
- `Sorting` (`sorting.dfy`): `builds.sort()` as `SortNames`, a sorted
  permutation of the listing. Every sorted permutation of a listing is proved
  equal to it, so the model does not depend on how Python sorts.
- `Cleanup` (`cleanup.dfy`): `clean_builds` itself, in two imperative
  methods.
  - `CleanBuilds` handles the failed listing and sorts the entries.
  - `PruneSorted` is the source's `for` loop over the sorted entries
    (lines 97-128), with its `break`, its early `return -1` and the final
    reading. It is the same code as in the source, split at the sort so that
    the loop's proof does not carry the sort's definition.
  - Each method is proved to return exactly what a specification function
    describes: `Clean` for the whole call, `Run` for the loop on a given
    order of entries.
- `CleanupProperties` (`cleanup_properties.dfy`): what a run guarantees. These
  lemmas are stated about `Run` on any list of entries, so they hold for the
  sorted listing in particular. `OldestFirst` adds what the sort contributes.
- `CleanupScenarios` (`cleanup_scenarios.dfy`): worked runs, for every order
  in which the listing can come.

The outside world is given to the model as inputs:

- the directory listing is `Listing`: either `Unreadable` (`os.listdir`
  raised `OSError`) or `Entries(names)`;
- `probe(k)` is the reading returned by the k-th call of `get_free_space`,
  counting from 0, with -1 for a failed `df`;
- `remove(k)` is the exit code of the k-th call of `remove_dir`, counting
  from 0.

Both oracles are total functions on `nat`, so every run gets as many readings
and exit codes as it asks for. `CleanBuilds` also returns, as ghost
out-parameters, the paths it passed to `remove_dir` in order, its
`cleaned_subdirs` count and the number of readings it took. In the table
below, an entry that is "deleted" is one whose path was passed to
`remove_dir`; the model does not follow what the shell then removes.

Three points of the code's behaviour are easy to misread; the model follows
the code on each:

- A negative reading inside the loop does not stop the run. It is compared
  with the threshold like any other reading, so with a threshold of -1 or
  more the next entry is deleted (`FailedLoopReadingRemoves`).
- Every `OSError` from the listing returns 0, not only a missing root.
- A `df` output that does not parse raises `ValueError` at line 77 and is not
  turned into -1.

## Model

| member | source | states |
|---|---|---|
| `Cleanup.CleanBuilds` | resources/cleanup.py:88-128 | The status, delete targets, removal count and readings are exactly those of `Clean`. The status is 0 or -1. An unreadable listing gives 0 with no delete and no reading. |
| `Cleanup.PruneSorted` | resources/cleanup.py:97-128 | On the entries in the given order, the loop and the final reading return exactly the status, delete targets, removal count and readings of `Run`. The status is 0 or -1. |
| `Cleanup.Clean` | resources/cleanup.py:88-128 | Every run returns 0 or -1. |
| `Cleanup.Run` | resources/cleanup.py:97-128 | The loop with its final reading returns 0 or -1. |
| `Cleanup.Completes` | resources/cleanup.py:108-116 | Iteration j goes on to the next entry exactly when its reading is at most the threshold and its delete returns 0. This is a definition with no contract of its own. |
| `Cleanup.Targets` | resources/cleanup.py:112 | There is one path per entry, and the path for entry `b` is `root + "/" + b`. |
| `Cleanup.LoopExitOf` | resources/cleanup.py:101-116 | The loop runs through every entry only if each reading was at most the threshold and each delete succeeded. It stops at entry k on a reading above the threshold, or ends at entry k on a failed delete, only if every earlier entry completed. |
| `Cleanup.LoopExitSkip` | resources/cleanup.py:101-116 | Iterations that read a low value and delete successfully do not change how the loop ends. |
| `Cleanup.FinalStatus` | resources/cleanup.py:118-128 | After the loop the result is 0 exactly when the last reading is non-negative and above the threshold, and -1 otherwise. |
| `NameOrder.Below` | resources/cleanup.py:96 | Python's `str` `<=`, which `builds.sort()` orders by. A name is below every name it is a prefix of. |
| `NameOrder.BelowReflexive` | resources/cleanup.py:96 | Every name is below itself. |
| `NameOrder.BelowAntisymmetric` | resources/cleanup.py:96 | Two names each below the other are equal. |
| `NameOrder.BelowTransitive` | resources/cleanup.py:96 | The name order is transitive. |
| `NameOrder.BelowTotal` | resources/cleanup.py:96 | Any two names are comparable. |
| `NameOrder.BelowIff` | resources/cleanup.py:96 | `a` is below `b` exactly when `a` is a prefix of `b`, or the first code point where they differ is smaller in `a`. |
| `NameOrder.BelowAtFirstDifference` | resources/cleanup.py:96 | A smaller first differing code point puts `a` strictly before `b`. |
| `Sorting.Insert` | resources/cleanup.py:96 | Inserting into a sorted list keeps it sorted and adds exactly one element. |
| `Sorting.SortNames` | resources/cleanup.py:96 | The sorted listing is in ascending order and is a permutation of the listing. |
| `Sorting.SortedUnique` | resources/cleanup.py:96 | Two sorted sequences with the same elements are equal. |
| `Sorting.SortNamesIsTheSortedPermutation` | resources/cleanup.py:96 | Any sorted permutation of the listing is `SortNames` of it. |
| `Sorting.SortedPrefixBelow` | resources/cleanup.py:96 | In a sorted list, each element of a prefix is below every element outside it. |
| `CleanupProperties.AttemptsArePrefix` | resources/cleanup.py:101-112 | The delete targets are `root + "/" + b` for a prefix of the entries, in order. There are at most as many targets as entries. |
| `CleanupProperties.OldestFirst` | resources/cleanup.py:96-112 | In a run of `clean_builds`, each path passed to `remove_dir` names an entry that sorts below every listed entry that was never tried. |
| `CleanupProperties.AttemptIff` | resources/cleanup.py:101-115 | Entry k is passed to `remove_dir` exactly when it exists, its reading is at most the threshold, and every earlier entry read at most the threshold and its delete returned 0. |
| `CleanupProperties.EarlyStop` | resources/cleanup.py:103-109 | A reading above the threshold at iteration k means entry k and every later entry are kept. |
| `CleanupProperties.RemoveFailureShortCircuit` | resources/cleanup.py:112-115 | If delete k fails, the result is -1, nothing after entry k is tried, no final reading is taken, and the count stays at k. |
| `CleanupProperties.CleanedBound` | resources/cleanup.py:97-116 | `cleaned_subdirs` counts exactly the successful deletes: every counted delete returned 0, and an attempt left uncounted returned non-zero. It equals the number of attempts or one less, and never exceeds the number of entries. |
| `CleanupProperties.FinalCheckTaken` | resources/cleanup.py:112-118 | The final reading is taken exactly when no delete failed. |
| `CleanupProperties.SuccessIff` | resources/cleanup.py:112-128 | The result is 0 exactly when every attempted delete succeeded and the final reading is non-negative and above the threshold. |
| `CleanupProperties.FailedFinalReadingFails` | resources/cleanup.py:118-120 | A final reading of -1 gives -1, even when the threshold is below -1. |
| `CleanupProperties.FailedLoopReadingRemoves` | resources/cleanup.py:103-112 | A -1 reading inside the loop with a threshold of at least -1 leads to deleting that entry. |
| `CleanupProperties.Exhaustion` | resources/cleanup.py:101-128 | If every reading in the loop is low and every delete succeeds, all entries are deleted and the last reading alone decides the result. |
| `CleanupProperties.NothingToDo` | resources/cleanup.py:103-109 | With a threshold of 0 or less and a positive first reading, nothing is deleted. |
| `CleanupScenarios.DatedBuildsSortChronologically` | resources/cleanup.py:96 | The three names `2023-01-01`, `2023-02-01` and `2023-03-01`, listed in any order, sort chronologically. |
| `CleanupScenarios.OldestBuildOnly` | resources/cleanup.py:88-128 | Three dated builds with readings 50, then 90: only the oldest is deleted and the run returns 0. |
| `CleanupScenarios.EmptyRoot` | resources/cleanup.py:101-128 | An empty root leads to no delete and one reading, which decides the result. |
| `CleanupScenarios.ThresholdNeverMet` | resources/cleanup.py:101-128 | The space stays at 10 GB: both builds are deleted and the run returns -1. |
| `CleanupScenarios.ProbeAlwaysFails` | resources/cleanup.py:103-120 | Every reading fails: the entry is still deleted and the run returns -1. |
| `CleanupScenarios.SecondDeleteFails` | resources/cleanup.py:112-115 | The second delete fails: the third build is never tried, no final reading is taken, and the run returns -1. |

## Left out

- Spawning `/bin/sh`, `df` and `rm -rf` (`shell_exec`, lines 43-66, 70, 83): process I/O. Only their results appear, as the `probe` and `remove` oracles.
- Parsing `df` output (line 77): `int(...)/1000000` is float division under Python 3, and output that does not parse raises an exception. Readings are integers supplied by the oracle.
- The log file and `log` printing (lines 20-21, 38-40, and the messages in the loop): output only, with no effect on any decision.
- Argument handling and the top-level script (lines 138-150): CLI glue. The missing `exit` at line 140 lets a wrong argument count fall through. The process exit code for `exit(-1)` is also not modelled.
- The debug variable `x` (lines 99, 105-106): dead code.
- What `rm -rf` actually deletes (line 83): the path goes into the shell command without quoting. A name with a space or a glob character therefore deletes other paths. The model tracks only the path string passed to `remove_dir`.
- Files versus directories in the listing, and changes made to the tree by others during a run: every listed entry is treated as a candidate.
- Names with lone surrogate code points (which `os.listdir` can return): Dafny's `char` holds only Unicode scalar values.
