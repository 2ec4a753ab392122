# vscode-entr: the `entr` task provider and its pseudo-terminal

This project models the core of the vscode-entr extension, `src/EntrTaskProvider.ts`.
An "entr" task watches files and, on every change, runs another task of the workspace (the *target*).
It does so under a running-task policy: terminate, restart or batch.

The model has six modules.

- `Wrappers` (wrappers.dfy) holds the `Option` datatype, which stands for a value that may be `undefined`.
- `Definitions` (definitions.dfy) holds task definitions as property maps.
  - Arrays and functions are compared by reference, as `===` does.
  - `equals` is a predicate, plus the loop that computes it.
  - `DEFAULT_TASK_CONFIG` and the `Object.assign` merge.
- `FileWatchers` (watchers.dfy) holds the host's file-system watcher. The model keeps only what the terminal uses: its pattern, its three ignore flags and whether it is disposed.
- `Triggering` (triggering.dfy) gives what one call of `doBuild` does, as functions of its inputs:
  - the message built from the event;
  - the `onlyFiles` filter;
  - coalescing of events while a batch wait is in progress;
  - the target lookup;
  - the do-while loop with the per-execution policy;
  - the final run.

  Effects are recorded as a trace of actions: writes, terminations, runs, and the creation and disposal of watchers. Lemmas state what each policy does.
- `TaskProvider` (provider.dfy) holds the `EntrTaskProvider` class.
  - `resolveTask` filters on `type`.
  - `getTask` keeps a cache of tasks keyed by `equals`.
- `TaskTerminal` (terminal.dfy) holds the `EntrTaskTerminal` class.
  - It keeps the merged definition, the list of watchers, the `waitForRunningTask` flag, and a trace of effects.
  - `open`, `close` and `doBuild` are imperative methods. `close` is proved to produce exactly the disposals of its watchers (`Disposals`); `open` and `doBuild` are proved to produce exactly the trace and flag that the `Triggering` functions give.

Inputs from the host are parameters of `DoBuild`:
- `kindOf`, which stands for `fs.statSync`;
- the names of the defined tasks, which stand for `vscode.tasks.fetchTasks`;
- the running executions that each pass of the loop sees, which stand for `vscode.tasks.taskExecutions`.

The batch sleep moves the loop on to the next snapshot of running executions. When the snapshots run out while the flow is still waiting, the flow is left suspended in its sleep, with `waitForRunningTask` set.

## Model

| member | source | states |
|---|---|---|
| Definitions.StrictEquals | src/EntrTaskProvider.ts:52 | `!==` on property values: strings, numbers and booleans compare by value, arrays by identity whatever their items, and values of different kinds never compare equal |
| Definitions.EqualsScan | src/EntrTaskProvider.ts:41-58 | The scan returns true exactly when both definitions have the same number of properties and every property of the first is present in the second with a strictly equal value, whatever order the names are visited in |
| Definitions.EqualsCharacterized | src/EntrTaskProvider.ts:41-58 | `equals` holds if and only if the two definitions have the same property names and strictly equal values under each name |
| Definitions.EqualsReflexive | src/EntrTaskProvider.ts:41-58 | Every definition `equals` itself |
| Definitions.EqualsSymmetric | src/EntrTaskProvider.ts:41-58 | `equals` is symmetric, although the loop only walks the names of its first argument |
| Definitions.EqualsTransitive | src/EntrTaskProvider.ts:41-58 | `equals` is transitive, so the cache lookup treats a whole class of definitions alike |
| Definitions.EqualsSameKeys | src/EntrTaskProvider.ts:45-55 | Equal property counts plus every name of `a` found in `b` force the same set of names |
| Definitions.DefaultConfigWellTyped | src/EntrTaskProvider.ts:27-38 | Every property of `DEFAULT_TASK_CONFIG` has the type the `EntrTaskDefinition` interface declares |
| TaskTerminal.DefaultConfigValues | src/EntrTaskProvider.ts:27-38 | `DEFAULT_TASK_CONFIG` is an "entr" definition with empty target and name, files `["**/*.*"]`, no event ignored, `onlyFiles` off, a 100 ms pause, and the batch policy with a 30 second sleep |
| Definitions.Merge | src/EntrTaskProvider.ts:161 | The merged definition has exactly the default names plus the user's names. The user's values win, every other default keeps its value, and a user definition with the declared property types yields a merged one with those types |
| FileWatchers.FileSystemWatcher.constructor | src/EntrTaskProvider.ts:177-182 | A new watcher holds its pattern and the three ignore flags and is not disposed |
| FileWatchers.FileSystemWatcher.Dispose | src/EntrTaskProvider.ts:199 | After `dispose` the watcher is disposed |
| TaskProvider.Label | src/EntrTaskProvider.ts:119 | A present `name` is the label, verbatim even when empty. Without one the label is "entr: " followed by the target converted as a template literal converts it, or "entr: undefined" when there is no target |
| TaskProvider.FirstEqual | src/EntrTaskProvider.ts:103-108 | `find` stops at the first cached task whose definition `equals` the argument; no earlier task matches; the length of the list means none does |
| TaskProvider.ReplaceIdentical | src/EntrTaskProvider.ts:133 | The `map` keeps the length, swaps in the new task exactly where the cached definition is the very same object, and leaves every other entry alone |
| TaskProvider.FirstEqualRespectsEquals | src/EntrTaskProvider.ts:103-108 | Two definitions that `equals` relates find the same cached task |
| TaskProvider.EntrTaskProvider.constructor | src/EntrTaskProvider.ts:64 | The cache starts empty |
| TaskProvider.EntrTaskProvider.GetTask | src/EntrTaskProvider.ts:97-142 | As written: a cached match is returned unchanged. Otherwise a fresh task labelled by `name`, or `entr: <targetTask>`, is made, and the cache becomes its identity-`map`, so the cache never grows |
| TaskProvider.EntrTaskProvider.GetTaskRegistering | src/EntrTaskProvider.ts:97-142 | Corrected: a cached match is returned. Otherwise the fresh task is appended, and afterwards the lookup of the definition finds the returned task |
| TaskProvider.EntrTaskProvider.ResolveTask | src/EntrTaskProvider.ts:83-95 | A definition whose `type` is not "entr" gives `undefined` and leaves the cache alone. For an "entr" definition, a cached match is returned with the cache unchanged; otherwise a fresh task labelled by `Label` is returned and appended to the cache. Either way the cache lookup then finds the returned task |
| TaskProvider.ResolveTwiceAsWritten | src/EntrTaskProvider.ts:97-142 | With `getTask` as written, resolving the very same definition twice on a new provider gives two different tasks |
| TaskProvider.ResolveTwiceRegistering | src/EntrTaskProvider.ts:97-142 | With registration, resolving a definition and then a second one gives the same task if and only if the two are related by `equals` |
| Triggering.Text | src/EntrTaskProvider.ts:219-296 | The exact text of every line the terminal writes, and each ends with "\r\n" |
| Triggering.Describe | src/EntrTaskProvider.ts:213-232 | The event part of the message: the first-time line without an event; otherwise at most one line naming the event's path and action (file, directory, or file/directory for a deletion), nothing for a created or changed path that is neither, and only for such a path; it aborts if and only if the event is a created or changed directory under `onlyFiles` |
| Triggering.MatchingIds | src/EntrTaskProvider.ts:258-260 | The `filter` on task name: an id is kept if and only if it belongs to an execution of the target, and no more ids than executions come out |
| Triggering.Sweep | src/EntrTaskProvider.ts:258-275 | One `forEach` over the running executions: only batch asks to wait, only terminate cancels the run, and batch and an unknown policy write and terminate nothing |
| Triggering.RenderedAppend | src/EntrTaskProvider.ts:213-235 | Appending lines to a message appends their text, so the message may be kept as a list of lines |
| Triggering.SweepEffects | src/EntrTaskProvider.ts:258-275 | One `forEach` over the running executions: terminate and restart terminate exactly the executions of the target, in order; only terminate cancels the run; only batch asks to wait, exactly when the target is running; batch and an unknown policy write nothing; nothing is run |
| Triggering.SweepTrace | src/EntrTaskProvider.ts:258-275 | Under terminate and restart, a pass writes one "Terminating" or "Restarting" notice per execution of the target, each right before that execution's termination, in the order of the executions |
| Triggering.SweepCounts | src/EntrTaskProvider.ts:258-275 | The terminations of one pass are the target's executions, under terminate and restart only, and a pass runs no task |
| Triggering.SweepFlags | src/EntrTaskProvider.ts:258-275 | The wait and cancel flags of one pass, and the silent policies |
| Triggering.PolicyLoop | src/EntrTaskProvider.ts:256-287 | A loop that has not exited after seeing at least one snapshot is under batch |
| Triggering.BatchLoop | src/EntrTaskProvider.ts:256-287 | Under batch, the loop writes one "Waiting N seconds" notice per snapshot in which the target still runs, and exits at the first snapshot in which it does not |
| Triggering.SinglePass | src/EntrTaskProvider.ts:256-287 | Every other policy leaves the do-while loop after its first pass |
| Triggering.Settlement | src/EntrTaskProvider.ts:254-294 | A settlement is left waiting only when no snapshot was seen or the policy is batch |
| Triggering.TerminateSettles | src/EntrTaskProvider.ts:254-294 | terminate: all running executions of the target are terminated, the target runs only when none was running, and the flow ends not waiting |
| Triggering.RestartSettles | src/EntrTaskProvider.ts:254-294 | restart: all running executions of the target are terminated, then the target runs exactly once, as the last action |
| Triggering.BatchSettles | src/EntrTaskProvider.ts:254-294 | batch: the notices, then one run at the first idle snapshot; with no idle snapshot, no run and still waiting; nothing is terminated |
| Triggering.OtherPolicySettles | src/EntrTaskProvider.ts:254-294 | An unrecognised policy ignores running executions and runs the target once |
| Triggering.Flow | src/EntrTaskProvider.ts:204-301 | A `doBuild` call leaves `waitForRunningTask` set only if it was already set or the policy is batch |
| Triggering.FlowRunsAtMostOnce | src/EntrTaskProvider.ts:204-301 | Whatever the event, the policy, the task list and the executions, one `doBuild` call runs the target at most once |
| Triggering.IgnoredDirectory | src/EntrTaskProvider.ts:220-224 | A created or changed directory under `onlyFiles` writes nothing, runs nothing and leaves the flag alone |
| Triggering.Coalesced | src/EntrTaskProvider.ts:234-238 | While a batch wait is in progress, an event writes exactly one message ending with the waiting line and nothing else. The result does not depend on the task list or the running executions |
| Triggering.MissingTarget | src/EntrTaskProvider.ts:295-299 | A target missing from the task list gives exactly two writes, the event message then "Task '...' not found!", no run, no termination, not waiting |
| Triggering.FoundTarget | src/EntrTaskProvider.ts:251-294 | With the target found, the runs, the terminations and the final flag are those of the policy settlement |
| Triggering.Bootstrap | src/EntrTaskProvider.ts:191 | The first build of a default (batch) terminal with nothing running writes the first-time message and runs the target exactly once |
| TaskTerminal.EntrTaskTerminal.constructor | src/EntrTaskProvider.ts:155-163 | The terminal holds `Object.assign({}, defaults, definition)`, no watchers, and is not waiting |
| TaskTerminal.EntrTaskTerminal.Close | src/EntrTaskProvider.ts:194-202 | Every watcher in the list is disposed, in list order, and the list itself is kept |
| TaskTerminal.EntrTaskTerminal.Open | src/EntrTaskProvider.ts:165-192 | The old watchers are disposed, one fresh live watcher per pattern of `files` is appended in order with the definition's ignore flags, and the bootstrap build follows. Trace and flag are those of `Flow` with no event |
| TaskTerminal.EntrTaskTerminal.Rewatch | src/EntrTaskProvider.ts:167-190 | The watcher half of `open`: the disposals, then the creations, in trace order |
| TaskTerminal.EntrTaskTerminal.WatchAll | src/EntrTaskProvider.ts:171-190 | One fresh, live watcher per pattern, joined under the workspace root, appended in pattern order |
| TaskTerminal.EntrTaskTerminal.Watch | src/EntrTaskProvider.ts:174-189 | One watcher on `root/pattern` with the definition's ignore flags, pushed onto the list |
| TaskTerminal.EntrTaskTerminal.DoBuild | src/EntrTaskProvider.ts:204-301 | The effects and the new `waitForRunningTask` are exactly those of `Flow`, which the `Triggering` lemmas characterise |
| TaskTerminal.EntrTaskTerminal.Message | src/EntrTaskProvider.ts:213-232 | The opening message is the rule followed by the event lines, and it aborts exactly for a directory event under `onlyFiles` |
| TaskTerminal.EntrTaskTerminal.RunPolicy | src/EntrTaskProvider.ts:254-294 | The loop and the final run produce exactly `Settlement`'s trace and flag |
| TaskTerminal.EntrTaskTerminal.Loop | src/EntrTaskProvider.ts:256-287 | The do-while loop produces exactly `PolicyLoop`'s trace, exit and cancellation, and the flag is set exactly when it has not exited |
| TaskTerminal.EntrTaskTerminal.Pass | src/EntrTaskProvider.ts:257-286 | One pass: the sweep's effects, then the waiting notice if it asked to wait |
| TaskTerminal.EntrTaskTerminal.ForEachRunning | src/EntrTaskProvider.ts:258-275 | The `forEach` produces exactly `Sweep`'s effects, flag and cancellation |

## Left out

- The host API is not modelled: the write emitter, `commonLog`, `vscode.Task` construction details and `CustomExecution`. Writes to the terminal are recorded as `Write` actions, and log lines are dropped.
- Watcher callbacks are not modelled. Each event reaches `DoBuild` as its `event` parameter, and calls never overlap. The interleaving at `await vscode.tasks.fetchTasks()` is left out. So are the effects of events arriving between the passes of the loop inside one `DoBuild` call; an event that finds the flow waiting is modelled by `Flow` with `waiting` set.
- `fs.statSync` is the `kindOf` parameter. A stat failure (a path removed before the event is handled) throws in the source and is left out.
- The `pauseMsBeforeRun` timer is left out, because it delays nothing. At lines 242-249 the timer's promise is made but never awaited. The model has no clock.
- The batch sleep of `runningTaskBehaviorBatchThrottleSeconds` seconds is a step to the next snapshot of running executions. The source loops without bound; a flow whose snapshots run out while waiting is left suspended.
- `path.join` normalisation is left out. `Join` is plain concatenation with "/".
- `provideTasks`, `sharedState` and its accessors, and `extension.ts` are not part of this model.
- JSON `null` is not a property value of the model. In the source, `"name": null` makes `??` fall back to the default label, and `"targetTask": null` gives the label "entr: null" and the message "Task 'null' not found!"; neither is modelled.
- Numbers are unbounded integers. NaN and fractional property values are left out.
- A null task or definition in `resolveTask` is left out.
- The fallback at lines 168-170, which resets `files` to the defaults, is left out. In the source it runs when tasks.json sets `files` to a falsy value (`null`, `""`, `0`, `false`), which `Object.assign` copies over the default. The model has no `null` value and its terminal requires a `files` array, so `Open` asserts the branch is not taken.
- TaskTerminal.EntrTaskTerminal.constructor: requires the user definition to give each declared property its declared type, so a `files` that is not an array, or a mistyped flag or number, is not modelled.
- TaskProvider.Label: a non-string `name` is passed on unchanged by `??`; the model's task name is its string conversion. A function value converts to its source text in the source; the model writes "function". Definitions read from tasks.json hold no functions.
- The "only watch files" message at line 222 is built and then dropped by the `return`, so nothing is written. The model writes nothing.
- Triggering.TargetOf and Triggering.ThrottleOf: fall back to "" and 0 for a missing or mistyped property. Under the declared types after the merge these fallbacks are never used.
- TaskTerminal.EntrTaskTerminal.RunPolicy: requires at least one snapshot. `doBuild` always supplies the current executions.
- TaskProvider.EntrTaskProvider.ResolveTask: goes through the corrected `GetTaskRegistering` rather than the as-written `GetTask`, so that the cache behaves as evidently intended. See Findings.

## Findings

| source | as written | input that shows it | evidently intended | confidence | as-written member | corrected member |
|---|---|---|---|---|---|---|
| src/EntrTaskProvider.ts:133 | When no cached task matches, the new task replaces only entries whose definition is the very same object. The cache starts empty, so it stays empty forever and `find` never reuses a task | Resolve the same "entr" definition twice on a new provider: two distinct tasks come back | A definition with no cached match registers its new task, so a later resolution of an `equals` definition returns it | high, not executed | TaskProvider.ResolveTwiceAsWritten | TaskProvider.ResolveTwiceRegistering |
