# awesome-app runner configuration and supervision, in Dafny

This project models two parts of the `awesome` task runner.

**The `Awesome.toml` resolver** (`src/config/mod.rs`).
- `[[runners.<group>]]` and `[[runner]]` declarations are flattened into one vector of runner holders.
- A holder is *Named* (it has a string `name`) or *Refed* (it only has a string `ref`).
- Named holders are indexed by their key: `group.name`, or `.name` for a solo runner.
- Each Refed slot is replaced in place by its target's table with the ref's own table laid over it:
  - `ref` is dropped;
  - `args_add` is appended to `args`;
  - every other key replaces the base's value.
- The result is partitioned into per-group runner lists and a map of solo runners.
- The three `Config` getters then look runners up.

**Running a query** (`src/run_runners.rs`).
- The query is split at its first `.`.
- A group, a grouped runner or a solo runner is selected.
- The runners are executed in order, and the concurrent ones are tracked.
- The tracked children are polled until one flagged `end_all_on_exit` has exited.
- Then every child still running has its process tree terminated.
- The descendants of a child are found by repeated scans of a process snapshot.

The mutating loops of the source are modelled as methods: the collection loop, the in-place resolution, the build loop, the merge loop, the batch, the poll and cascade passes, the watch loop, `find_descendant` and the kill loop. Each method is proved equal to a specification function, or proved against its property directly. The lemmas then prove what the source promises about those functions.

Modules, one per file:
- `Wrappers`, `Toml`, `Errors`, `Runners`: values, errors, the configuration and its getters.
- `Holders`: `RunnerHolder::new`, `get_key` and `is_refed`.
- `Merging`: `merge_runner_values`.
- `Collecting`, `Resolving`, `Building`, `Parsing`: the phases of `parse_awesome_toml` and their composition.
- `Selection`: the query split and the selection.
- `ProcessTree`: `find_descendant` and `terminate_process_tree`.
- `Supervisor`: `run_runners`.
- `Invocation`: `run`.

### Behaviour of the code worth knowing

- **How a ref names its target.** A ref is looked up by its literal text in the key index (src/config/mod.rs:173). A solo runner's key is `.name`, so a ref naming a solo runner resolves only when written `.name`; a bare `name` never resolves (`Parsing.UndottedRefFails`).
- **A ref to a ref.** The index holds only Named holders, and resolution only rewrites Refed slots. So the `DoNotSupportRefToRefYet` branch at src/config/mod.rs:175-177 is unreachable. A ref to a ref stays unresolved and the build fails with `StillHaveUnresolvedRefedRunners` (`Parsing.ParseErrors`, `Parsing.DanglingRefFails`).
- **A ref with both a literal `args` and `args_add`.** The literal `args` replaces the base's `args`, and `args_add` is then appended to it (`Merging.MergeTables`).

## Model

| member | source | states |
|---|---|---|
| Holders.NewHolder | src/config/mod.rs:80-90 | a table with a string `name` makes a Named holder even if it has a `ref`; otherwise one with a string `ref` makes a Refed holder; otherwise the error is `RunnerHasNoNameOrRef` carrying the table; group and table are kept |
| Holders.KeyShape | src/config/mod.rs:92-98 | a key is the group name (empty for a solo runner), a `.`, then the runner's name for a Named holder or `#` and the target for a Refed one |
| Holders.IsRefed | src/config/mod.rs:100-102 | true exactly when the holder is not Named |
| Selection.KeySplitsBack | src/config/mod.rs:92-98 | a Named holder's key is its group, a `.`, and its name, which the query split recovers; a solo holder's key is `.name` |
| Selection.DottedGroupKeysCollide | src/config/mod.rs:92-98 | group `a.b` with runner `c` and group `a` with runner `b.c` get the same key |
| Collecting.ProcessRunners | src/config/mod.rs:131-148 | the inner loop equals the collection fold over the array's declarations, stopping at the first holder error |
| Collecting.CollectGroup | src/config/mod.rs:152-158 | one group's turn of the outer loop either fails as the fold does or leaves the fold of the remaining groups and solo runners to do |
| Collecting.CollectHolders | src/config/mod.rs:127-165 | the collection loops equal the fold over all declarations, grouped ones first (groups in table order), then solo ones |
| Collecting.CollectAllSpec | src/config/mod.rs:127-165 | collection succeeds exactly when every declaration makes a holder, otherwise it fails with the first failure's error; every holder is pushed once in visit order; the index maps each key to the last Named holder with that key and holds every Named key; `refed_idxs` lists exactly the Refed positions in increasing order |
| Collecting.PushKeepsIndexExact | src/config/mod.rs:136-145 | pushing a holder keeps the index exact: only Named holders enter it, under their own key |
| Collecting.PushKeepsRefedExact | src/config/mod.rs:136-145 | pushing a holder keeps `refed_idxs` exact: only Refed positions enter it |
| Merging.MergeTables | src/config/mod.rs:222-239 | the overlay's `ref` and `args_add` are never copied; every other overlay key replaces the base value; base keys absent from the overlay are unchanged; `args` is the overlay's `args` (else the base's, else empty) followed by the `args_add` items, and is left alone if it is not an array |
| Merging.MergeRunnerValues | src/config/mod.rs:220-243 | the mutating loop over the overlay keys (with `args` visited before `args_add`) yields the merged table; if either value is not a table the base comes back unchanged |
| Parsing.IconsExample | src/config/mod.rs:227-233 | `args = ["icon"]` merged with `args_add = ["-w"]` gives `args = ["icon", "-w"]`, the name kept and no `ref` copied |
| Resolving.ResolveRefs | src/config/mod.rs:168-192 | the in-place resolution loop equals the resolution fold over `refed_idxs` |
| Resolving.ResolveSpec | src/config/mod.rs:168-192 | for collected holders, resolution succeeds exactly when every slot resolves, and slot `i` then holds its resolved holder; otherwise it fails at the first slot that does not, and the error is always `RunnerHasNoNameOrRef`, never `DoNotSupportRefToRefYet` |
| Resolving.ResolvedSlot | src/config/mod.rs:171-190 | a resolved slot keeps the referencing holder's group and holds the merge of its target's table with its own; a Named slot is unchanged; a ref to a key not in the index stays as it is |
| Building.BuildConfig | src/config/mod.rs:195-217 | the build loop equals the build fold over the holders |
| Building.BuiltSpec | src/config/mod.rs:198-212 | the configuration exists exactly when every holder is Named and deserializes, otherwise the first failing holder's error (`StillHaveUnresolvedRefedRunners` or `FailParsingRunner`); each group maps to its runners in holder order and is never empty; each solo name maps to the last solo runner with that name |
| Building.LastSoloName | src/config/mod.rs:208-210 | a solo runner is filed under its own name and comes from a solo holder |
| Parsing.ParseAwesomeToml | src/config/mod.rs:109-218 | the parse from the root table equals collection, then resolution, then build, where the first phase to fail decides the error |
| Parsing.ParseErrors | src/config/mod.rs:168-203 | a parse fails only with `RunnerHasNoNameOrRef`, `StillHaveUnresolvedRefedRunners` or `FailParsingRunner` |
| Parsing.DanglingRefFails | src/config/mod.rs:171-201 | a ref that names no Named holder (a missing key, or another ref) makes the parse fail |
| Parsing.UndottedRefFails | src/config/mod.rs:171-173 | a ref written without a `.` never resolves, so the parse fails |
| Runners.FindByName | src/config/mod.rs:43 | the position of the first runner with the name, or none when no runner has it |
| Runners.GetGroupedRunner | src/config/mod.rs:41-44 | none when the group is missing or has no runner of that name, otherwise the first runner of the group with that name |
| Runners.GetRunners | src/config/mod.rs:36-38 | the group's whole runner list, and none exactly when the group is missing |
| Runners.GetSoloRunner | src/config/mod.rs:47-49 | the solo runner of that name, and none exactly when there is none |
| Selection.SplitQuery | src/run_runners.rs:15-17 | without a `.` the query is the whole first part; otherwise the query is the first part, a `.`, and the rest, with no `.` in the first part |
| Selection.SplitUnique | src/run_runners.rs:15-17 | a query splits only one way at its first `.` |
| Selection.SplitAtFirstDotOnly | src/run_runners.rs:15-17 | `a.b.c` selects group `a` and runner `b.c` |
| Selection.Select | src/run_runners.rs:23-33 | with a `.`, exactly one runner of the group before it, named by the rest, or none exactly when the group has no such runner; without one, the whole group of that name, else the one solo runner of that name, and none exactly when neither exists |
| Selection.SelectGroupDotName | src/run_runners.rs:25-27 | a `group.name` query selects exactly the grouped runner or nothing, and never a solo runner |
| Selection.SelectPlain | src/run_runners.rs:29-33 | a query without a `.` selects the whole group if there is one, else the solo runner of that name, else nothing |
| Invocation.Run | src/run_runners.rs:13-43 | a configuration that cannot be loaded or parsed ends the run with its error before anything runs; a query that matches nothing logs the notice, runs nothing and ends normally; otherwise the selected runners go to `run_runners`: its batch log, its end, and its terminations (none unless the batch succeeded and a watch turn set `end_all`, then the trees of exactly the children found still running) |
| Invocation.ExecutedAreSelected | src/run_runners.rs:58-78 | every executed runner is one of the selected runners that should run |
| Supervisor.ExecRunners | src/run_runners.rs:58-78 | the batch loop equals the batch fold over the runners |
| Supervisor.BatchSpec | src/run_runners.rs:58-78 | the batch stops only at the first runner whose `should_run` or `exec` fails, never at a skip; each runner before the stop is logged as skipped with its reason or as executed, depending on that runner alone; without a failure the tracked children are exactly the spawned ones, in order |
| Supervisor.SpawnedMembers | src/run_runners.rs:69-75 | a tracked entry comes from a runner that should run and whose `exec` returned that child, and carries its name and `end_all_on_exit` |
| Supervisor.EndAllFrom | src/run_runners.rs:90-98 | the first pass fails with an I/O error exactly when some `try_wait` fails; otherwise `end_all` is true exactly when some tracked child has exited and has `end_all_on_exit` set |
| Supervisor.PollChildren | src/run_runners.rs:90-98 | the first pass loop equals `EndAllFrom` |
| Supervisor.CascadeFromSpec | src/run_runners.rs:101-108 | the children terminated are exactly those still running before the first failed `try_wait`, in order; the pass fails exactly when some `try_wait` fails |
| Supervisor.Cascade | src/run_runners.rs:101-108 | the second pass terminates the process tree of each child `CascadeFrom` selects, as `terminate_process_tree` does, and fails as `CascadeFrom` does |
| Supervisor.Deciding | src/run_runners.rs:88-111 | the first turn whose first pass fails or sets `end_all`, with every earlier turn leaving `end_all` false |
| Supervisor.WatchSpec | src/run_runners.rs:83-111 | the loop keeps polling exactly while no turn fails or sets `end_all`; it fails only with I/O errors; it terminates children only after some tracked child exited with `end_all_on_exit`, and only children found running, both seen in the turn that decided the watch |
| Supervisor.Watch | src/run_runners.rs:83-112 | the watch loop ends as the watch specification says and terminates the trees of the children it selects |
| Supervisor.RunRunners | src/run_runners.rs:45-115 | `run_runners` logs the batch; it ends with the batch's error, or else as the watch over the tracked children ends |
| ProcessTree.ScanPass | src/run_runners.rs:150-158 | one scan only adds descendants of the root, each with its snapshot name; it says whether it added any; a scan that adds nothing leaves a set closed under "parent is the root or already found" |
| ProcessTree.FindDescendant | src/run_runners.rs:144-166 | the repeated scans terminate and return exactly the pids whose parent chain in the snapshot reaches the root, each with its name, whatever order the scans visit the pids in |
| ProcessTree.ClosedHoldsDescendants | src/run_runners.rs:160-162 | a set closed under the scan rule holds every descendant, so stopping at a scan that adds nothing loses none |
| ProcessTree.ChainExample | src/run_runners.rs:144-166 | with 1 under 0, 2 under 1, 3 under 2 and 4 under 9, the descendants of 0 are 1, 2 and 3 |
| ProcessTree.RootKills | src/run_runners.rs:128-131 | the root is killed first, and a warning follows exactly when that kill fails |
| ProcessTree.TerminateProcessTree | src/run_runners.rs:118-142 | nothing is sent when the child has no id; otherwise the root kill (and its warning) comes first, then exactly one kill for each descendant found in the snapshot taken before the kills |

## Left out

- Finding and reading `Awesome.toml`, and parsing its text, are left out: they are file I/O and the `toml` crate. `Invocation.Run` takes the parsed root table, or the error those steps raised (`AwesomTomlNotFound`, `FailParsingConfig`, an I/O error).
- TOML floats and date-times are not in the value model: no operation here inspects them.
- `Runner::deserialize` (serde) is left out. It is a `Deserializer` parameter that makes a runner from a table or refuses it, and `FailParsingRunner` carries no cause.
- `should_run` and `exec` are parameters: the runner module and `src/exec.rs` (process spawning, the stdin prompt) are not part of this model.
- The group order is a parameter. It may be any enumeration of the `runners` table's keys, each once, and the table's sorted order is one of them.
- Merging.MergeRunnerValues: it may visit the overlay keys in any order in which `args` comes before `args_add`; the sorted order of a TOML table is one such order.
- The tokio runtime, `sleep`, `try_wait`, `kill` and the `sysinfo` refresh are left out as OS and concurrency concerns. Child statuses, process snapshots and the outcome of the root kill are inputs; the results of descendant kills are ignored, as in the source.
- Supervisor.Watch: the source polls forever until a turn fails or sets `end_all`; the model observes a finite sequence of turns and ends with `StillWatching` when it runs out.
- ProcessTree.TerminateProcessTree: the descendants are killed in an unspecified order (the source iterates a hash map); the contract states that each descendant is killed once, not in which order.
- Console output is left out as I/O: the per-runner banner and the message texts. The notices that mark decisions (no runners found, a skip with its reason, an execution, a root-kill warning) are kept as events.
- `RunRefNoParts` is never raised: `splitn` always yields a first part.
- The other error variants (`PathNotSafeToDelete`, `DirAlreadyExist`, `GitNotPresent`, `SoloRunnerMultipleDef`, `AwesomeTomlInvalid`, `StdinFailToReadLine`) belong to code that is not part of this model.
- Pids are unbounded naturals; the source's 32-bit pids never wrap in these operations.
- `src/main.rs` and `src/app_cmd.rs` (the command line) and `src/_tests/tests_config.rs` (written against an older API) are not part of this model.
