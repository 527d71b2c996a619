# Verified models of the Inspect AI core

A Dafny model of the parts of Inspect AI that are state machines or algorithms with real invariants, and proofs of what
they promise. Code that works in place is a class or a method with loops, proved against a specification function; what
is promised is then proved about that function, over every input, every run or every reachable state.

| files | what they model |
|---|---|
| `JsonDocument`, `JsonShadow`, `JsonChanges`, `JsonReplaced`, `JsonShadowInvariant`, `JsonFlatPatches`, `JsonRaises`, `JsonSecondReplace`, `JsonOneArray`, `JsonLimits`, `JsonPointerText` | `json_changes`: the overwritten value of each `replace` of a JSON Patch, from copies of the shifting arrays only, against replay on the whole document (section 4 of RFC 6902, pointers as in section 4 of RFC 6901) |
| `Scheduler`, `SchedulerProofs`, `SchedulerCleanRuns`, `SchedulerFailedRuns`, `SchedulerResults` | `run_multiple`: workers, a bounded channel and least-used model selection, as a transition system whose steps are the code between two awaits |
| `EvalSet`, `EvalSetCode`, `EvalSetRuns`, `EvalSetOutcome`, `EvalSetRetries` | the eval-set retry protocol over a log directory |
| `WaitTiming` | accounting of overlapping waits of one sample |
| `EventTree`, `EventTreeRoundTrip`, `EventTreeInterleaved`, `EventTreePromises`, `EventTreeLosses`, `Rescore` | transcript span trees, their flattening, and the splicing of re-scored events and scores |
| `React` | the ReAct loop: refusals, context overflows, submissions, removal of the submit tool from the history |
| `Base57`, `DirectoryWalk`, `ChoiceShuffle` | base-57 ids, the directory worklist walk, choice shuffling with target remapping |
| `Decimal`, `Sequences`, `Wrappers` | numerals, filtering, option and result types |

`dafny verify dfyconfig.toml` checks everything.

## What the code does not do, although its documentation suggests it

Each of these is proved; where a lemma is called exact it says for all inputs when the code does what is expected. Whether
`jsonpatch` ever generates the patches of the `json_changes` entries is not shown here: they are valid patches.

- `json_changes` is right for patches that are flat (`JsonFlatPatches.Flat`): no add or remove names a position of the root or
  has a newline in its path, and no container, which is any path above a numeric last token whether it holds an array or not,
  lies inside another. For these it reports the overwritten value of every replaced element that was not itself written before
  (`JsonFlatPatches.ReplacedIsOverwritten`), and the order in which Python iterates over its sets does not matter
  (`JsonFlatPatches.FlatIsOrderFree`).
- For patches that are not flat the copies can depend on that order, exactly when some array with a replace below it is never the
  only container above a replace (`JsonFlatPatches.OrderFreeExactly`, exact). Two examples in which one order gives the overwritten
  value and the other does not: changed arrays inside each other (`JsonLimits.NestedArraysDependOnOrder`), and an array in a
  root object that also gets a key which is a number: the root is then a container but no array, so when it wins the search
  the array is not copied (`JsonLimits.ContainerThatIsNoArray`).
- The root array is never tracked, because its container name is the empty string, which is false in Python, and the pattern
  does not match a path with a newline. After any adds and removes in one array a `replace` in it is right for all contents
  exactly when the array is found, or the element has not moved (`JsonOneArray.RightExactly`, exact).
- A second `replace` of one element reports what the first one reported, wherever the element has moved in between, so it is
  right exactly when the first replaced the element by itself (`JsonSecondReplace.SecondReport` for flat patches, exact;
  `JsonLimits.SecondReplace` for any patch, when no container lies above the element).
- An operation inside a replaced element can raise although the patch is valid (`JsonLimits.RaisesInsideReplacement`). A call for
  a flat patch raises exactly when some copied array, by itself, does not take the adds and removes below it
  (`JsonFlatPatches.RaisesExactly`, exact). When the patch is valid and only adds and removes change the length of the changed
  arrays, an add or remove directly in such an array is never rejected, only one strictly inside an element that was written
  before (`JsonRaises.RaisesOnlyInside`, `JsonRaises.RaisesOnlyWhereWritten`).
- `move` and `copy` are not applied to the copies. `JsonFlatPatches.ReplacedIsOverwritten` covers patches with them: they count
  as writes, which may not touch the replaced element.
- A `run_multiple` whose tasks have all completed can wait for ever: exactly when the last task to complete had a missing or
  cancelled result and some worker never met one, since only a success closes the channel
  (`SchedulerFailedRuns.HangsExactly`, with a concrete run in `SchedulerFailedRuns.SomeRunHangs`). Cancelling the whole task
  group from outside ends such a run; that is not a step of the model.
- Without an `epochs` argument, a finished eval-set log is accepted exactly when it was made with the epochs of its task and the
  default reducer, whatever reducer the task has (`EvalSetRuns.AcceptedExactly`, exact). So a task with a reducer of its own is
  retried on every attempt, however often it succeeds (`EvalSetRuns.OwnReducerAlwaysRetried`).
- An eval set can report success with work left. When an attempt runs tasks for the first time, each log that was written and,
  if some task had been run before, each latest log must have succeeded; but the older logs are not compared with the epochs
  and limit of this call, and nobody counts the new ones. So work is left exactly when, before the call, a task of the set had a
  latest log that was not complete, or some task was asked for and got no log or one that is not complete
  (`EvalSetOutcome.SuccessWithWorkLeft`, exact; `EvalSetOutcome.SecondTaskAdded` is a case of two tasks). An attempt that ran
  every task for the first time succeeds even with no log at all. After retries, work is left exactly when a retried task got no
  new log or one that is not complete (`EvalSetRetries.RetrySuccessWithWorkLeft`, exact when new logs are the most recent).
- The number of samples that a log must have is the number that the limit selects, exactly when the limit is not negative and a
  range neither ends before it starts nor starts before the first sample; a limit of -1 asks for -1 samples
  (`EvalSet.CountsSelected`, exact).
- With `log_dir_allow_dirty`, an attempt that runs some of the tasks for the first time returns one log for each task exactly when
  each was run and the directory holds no log of another set (`EvalSetOutcome.MixedResultsOnePerTask`, exact).
- Re-scoring with "overwrite" fails its assertion exactly when the old scorers span names a parent the transcript does not have
  (`Rescore.OverwriteFails`).
- When no begin id is repeated, flattening the tree loses an event exactly when no chain of spans leads from it up to the root, or
  it is an end of a span that ends once more later (`EventTreeLosses.KeptExactly`, exact). So nothing but the ends of unknown
  spans is lost exactly when no span is its own ancestor and no span ends twice (`EventTreeLosses.NothingLostExactly`, exact;
  `EventTreeLosses.CyclesAreLost` is the smallest cycle).
- `base57_id_hash` says that it truncates to about 93 bits. It truncates nothing: 22 digits hold more than 128 bits
  (`Base57.IdIsExact`). It would cut a number from 57 to the 22nd on, and two numbers then share an id exactly when they have the
  same remainder (`Base57.SameIdExactly`, exact).
- The directory walk expands its root a second time when some directory lists it (`DirectoryWalk.WalkWithoutDetail`).
- `shuffle_choices` assigns the shuffled choices before it remaps the target, so when the target is not one of the choices the
  sample is left with new choices and its old target (`ChoiceShuffle.MemoryDataset.ShuffleChoices`).

## Model

| member | source | states |
|---|---|---|
| JsonChanges.StructuralContainers | src/inspect_ai/_util/json.py:131-136 | the containers collected are exactly those in which some add or remove shifts an array position |
| JsonChanges.FirstAbove | src/inspect_ai/_util/json.py:143-146 | the inner loop with its break: the container above the path that comes first in the order of the set, none only if there is none |
| JsonChanges.GetTrackedContainers | src/inspect_ai/_util/json.py:126-147 | for some order of the containers, the same for every replace: what is tracked is exactly, for each replace, the first container above it |
| JsonChanges.TrackingIsValid | src/inspect_ai/_util/json.py:138-147 | whatever the order: every tracked container is structural and above a replace, and every replace below a structural container lies below a tracked one |
| JsonChanges.Active | src/inspect_ai/_util/json.py:161-166 | the most specific of the containers above a path, none only if there is none |
| JsonChanges.GetActiveContainer | src/inspect_ai/_util/json.py:150-172 | the loop over an unordered set finds that container |
| JsonChanges.ShadowState.constructor | src/inspect_ai/_util/json.py:199-216 | the copies are exactly the arrays that the original document has at tracked paths |
| JsonChanges.ShadowState.ApplyFastListOp | src/inspect_ai/_util/json.py:175-196 | in-place insert, pop or general patch of one copy; on an error nothing changes |
| JsonChanges.ShadowState.Round | src/inspect_ai/_util/json.py:257-287 | one round: the value is looked up before the copy takes the operation, and only for a replace |
| JsonChanges.JsonChanges | src/inspect_ai/_util/json.py:243-289 | for every document and patch the result, errors included, is that of an order in which the containers may come |
| JsonChanges.ResultShape | src/inspect_ai/_util/json.py:246-289 | for every document, patch and order: None exactly for no operations; else, unless it raises, one change for each operation, in order, and no overwritten value but for a replace |
| JsonChanges.RunFails | src/inspect_ai/_util/json.py:278-281 | an operation rejected by a copy ends the whole call with that error |
| JsonFlatPatches.ReplacedIsOverwritten | src/inspect_ai/_util/json.py:219-289 | main result: for every document, flat patch and iteration order, the value reported for a replace of an element that no earlier operation wrote is the value found by replaying all earlier operations on the whole document; the condition follows the element through the patch and does not mention what the code tracks |
| JsonFlatPatches.ResultIsOverwritten | src/inspect_ai/_util/json.py:243-289 | the same of what a caller gets: the k-th change is the k-th operation with the overwritten value |
| JsonFlatPatches.Copied | src/inspect_ai/_util/json.py:126-147 | whatever container wins the inner loop, the container above a replace is copied when it is an array |
| JsonFlatPatches.CopiesAreArrays | src/inspect_ai/_util/json.py:278-281 | for a flat patch that replaces no container, after any prefix every copy is the array of the document that takes only the adds and removes, and nothing was rejected |
| JsonFlatPatches.FlatSucceeds | src/inspect_ai/_util/json.py:257-287 | for such a patch whose adds and removes are valid by themselves the call raises nothing and reports one change for each operation |
| JsonFlatPatches.RaisesExactly | src/inspect_ai/_util/json.py:278-281 | for every flat patch: the call raises exactly when some copied array, by itself, rejects one of the adds and removes below it |
| JsonRaises.RaisesOnlyInside | src/inspect_ai/_util/json.py:185-196 | for every flat patch that is valid for the document and whose other operations leave the lengths of the changed arrays alone: the call raises exactly when a copy rejects an add or remove strictly inside an element, and the error is a conflict |
| JsonRaises.RaisesOnlyWhereWritten | src/inspect_ai/_util/json.py:191-196 | in terms of document and patch only: when such a call raises, the patch adds or removes strictly inside an element that an earlier operation had written |
| JsonRaises.SameLength | src/inspect_ai/_util/json.py:185-190 | after every prefix of such a patch the copy and the array of the document have the same length |
| JsonFlatPatches.OrderFreeExactly | src/inspect_ai/_util/json.py:138-147 | for every document and patch: all orders of the containers give the same copies exactly when each array with a replace below it is the only container above some replace |
| JsonFlatPatches.FlatIsOrderFree | src/inspect_ai/_util/json.py:126-147 | flat patches have that property, for every document |
| JsonReplaced.TrackedIsOverwritten | src/inspect_ai/_util/json.py:219-289 | for any copies of arrays and any patch, flat or not: the reported value is the overwritten one if every write and shift that the copies do not take leaves the element alone |
| JsonReplaced.CopyAgrees | src/inspect_ai/_util/json.py:231-233 | after any prefix, a copy and the tracked array of the whole document hold the same at the place where an untouched element now is |
| JsonReplaced.OriginalStands | src/inspect_ai/_util/json.py:263-270 | where no copy is consulted, the original document still holds what is at an untouched location |
| JsonShadowInvariant.FastIsGeneral | src/inspect_ai/_util/json.py:185-196 | the insert and pop hot path gives what sections 4.1 and 4.2 of RFC 6902 require wherever they allow the operation |
| JsonShadowInvariant.HotPathElsewhere | src/inspect_ai/_util/json.py:187-192 | where RFC 6902 allows nothing: an insertion beyond the end appends, a removal there and a token that is no number are errors, leading zeros are read away |
| JsonShadowInvariant.ShadowInvariant | src/inspect_ai/_util/json.py:278-281 | while no changed array lies inside another, after any prefix each copy equals the tracked array of the document that takes only the adds and removes, and no copy rejects an operation |
| JsonShadowInvariant.NotNestedSucceeds | src/inspect_ai/_util/json.py:257-287 | under that hypothesis, with adds and removes that are valid by themselves, the call raises nothing |
| JsonLimits.SecondReplace | src/inspect_ai/_util/json.py:263-281 | for every document, patch and order: a second replace of an element with no container above it reports what the first reported; right exactly when the first wrote the original value, or null where there was none |
| JsonSecondReplace.SecondReport | src/inspect_ai/_util/json.py:263-281 | for every document, flat patch and order: when an element that was not written before is replaced twice, shifted or not in between, both report the value that the first overwrote; the second report is right exactly when that is also the value the first wrote |
| JsonSecondReplace.CopyKeeps | src/inspect_ai/_util/json.py:278-281 | the copy holds the same value for the element all the time, at each place to which adds and removes move it |
| JsonOneArray.RightExactly | src/inspect_ai/_util/json.py:257-276 | for every sequence of adds and removes in one array anywhere, the report of a replace that follows is right for all contents exactly when the pattern finds the array and it is not the root, or the element stands where it stood at first (or is a null added beyond the end) |
| JsonPointerText.StartsWithIsAbove | src/inspect_ai/_util/json.py:164 | the string prefix test decides exactly whether one pointer lies above another, escapes included |
| JsonPointerText.RelativePath | src/inspect_ai/_util/json.py:168-170 | slicing off the container text leaves the text of the remaining tokens, with a slash exactly when there are several |
| JsonPointerText.LongerText | src/inspect_ai/_util/json.py:165 | of two containers above one path the longer text is the deeper one |
| JsonPointerText.RegexFindsContainer | src/inspect_ai/_util/json.py:19 | the pattern matches exactly the pointers that end in an array position, and its first group is the container |
| JsonPointerText.EscapedCharacter | src/inspect_ai/_util/json.py:164 | the escapes of pointers, as section 3 of RFC 6901 gives them |
| Scheduler.RunMultiple.constructor | src/inspect_ai/_eval/run.py:309-327 | all tasks pending in order, a zero counter for each model and no other, nothing completed or stored, an open empty channel |
| Scheduler.RunMultiple.ModelsWithPending | src/inspect_ai/_eval/run.py:332-337 | exactly the models of pending tasks |
| Scheduler.RunMultiple.LeastUsed | src/inspect_ai/_eval/run.py:341-342 | one of the given models, none of which has a smaller counter |
| Scheduler.RunMultiple.FirstOfModel | src/inspect_ai/_eval/run.py:344-345 | the first pending task of a model |
| Scheduler.RunMultiple.SelectNext | src/inspect_ai/_eval/run.py:330-347 | up to the send: takes out the first pending task of a least-used model and counts it, or changes nothing |
| Scheduler.RunMultiple.RunEnds | src/inspect_ai/_eval/run.py:380-384 | the end of a task is the step of the transition system that stores its result, whatever its status |
| SchedulerCleanRuns.ResultsStep | src/inspect_ai/_eval/run.py:380-384 | each step of a run without a missing or cancelled result keeps that the stored results are exactly one for each completed task and each task whose run has ended |
| Scheduler.RunMultiple.Complete | src/inspect_ai/_eval/run.py:397-414 | the code after a task up to the next await: exactly one step of the transition system; the worker leaves exactly when the result is missing or cancelled, the channel is closed exactly by the last of all tasks, if its result is neither |
| SchedulerProofs.Moves | src/inspect_ai/_eval/run.py:330-414 | for any weighting of tasks, a step only moves the chosen task out of pending and the completed one out of flight |
| SchedulerProofs.RunInv | src/inspect_ai/_eval/run.py:309-435 | after every run, cancellations included: each task is in exactly one place, each counter equals its model's tasks in flight, and no more than min(parallel, total) are in flight |
| SchedulerProofs.SendNeverBlocks | src/inspect_ai/_eval/run.py:325-351 | a send never waits for room and never finds the channel closed: fewer than min(parallel, total) tasks are queued |
| SchedulerCleanRuns.CleanRunInv | src/inspect_ai/_eval/run.py:330-414 | the invariant of all runs without a missing or cancelled result, spreading included |
| SchedulerCleanRuns.ModelsAreSpread | src/inspect_ai/_eval/run.py:329-345 | while a model with a pending task has nothing in flight, no model has two tasks in flight |
| SchedulerCleanRuns.RunsAreFinite | src/inspect_ai/_eval/run.py:356-435 | no run, failures included, is longer than six steps a task and two a worker |
| SchedulerCleanRuns.NeverStuck | src/inspect_ai/_eval/run.py:356-435 | a run without a missing or cancelled result that is not over has a next step |
| SchedulerCleanRuns.RunsEndComplete | src/inspect_ai/_eval/run.py:405-416 | when such a run is over, every task ran exactly once, has one result, and the channel is closed |
| SchedulerCleanRuns.ResultsInTaskOrder | src/inspect_ai/_eval/run.py:452-453 | the returned list has one result for each task, in the order of the tasks, whatever the order of completion |
| SchedulerCleanRuns.ResultsAreOwn | src/inspect_ai/_eval/run.py:360-384 | every stored result was produced by a run of the task under whose index it is stored |
| SchedulerResults.ResultsAreComplete | src/inspect_ai/_eval/run.py:360-384 | for every run, failures included: every log with which the run of a task ended, cancelled or not, is stored under its index |
| SchedulerResults.ResultsCounted | src/inspect_ai/_eval/run.py:360-384 | for every run: a task has exactly as many stored results as its runs have ended with a log |
| SchedulerResults.FirstInFirstOut | src/inspect_ai/_eval/run.py:325-358 | for every run: tasks are run in the order in which they were sent; those sent and not yet run are queued |
| SchedulerFailedRuns.FailRunInv | src/inspect_ai/_eval/run.py:396-414 | after every run: the channel is closed exactly by a success of the last task, and each failure costs one worker and one task in flight |
| SchedulerFailedRuns.AtTheEnd | src/inspect_ai/_eval/run.py:356-435 | when no step is left nothing is in flight, every worker waits or has left, and none waits on a closed channel |
| SchedulerFailedRuns.HangsExactly | src/inspect_ai/_eval/run.py:401-414 | a finished run leaves a worker waiting for ever exactly when the last of all tasks to complete failed and fewer results failed than there are workers |
| SchedulerFailedRuns.SomeRunHangs | src/inspect_ai/_eval/run.py:401-414 | a concrete run of two tasks that hangs |
| EvalSet.LatestIsLatest | src/inspect_ai/_eval/evalset.py:684-705 | one log for each task id, in order of first appearance, and none of that id is more recent |
| EvalSet.LatestByTime | src/inspect_ai/_eval/evalset.py:699-702 | the same by the times of the files, a missing time counting as zero |
| EvalSet.CountsSelected | src/inspect_ai/_eval/evalset.py:632-640 | the number of samples that a log needs is the number of positions that the limit selects, exactly when the limit is not negative, does not end before it starts and does not start before the first sample |
| EvalSetCode.RemovedAreDoomed | src/inspect_ai/_eval/evalset.py:709-716 | going through the ids one by one removes a file exactly when a log of its id other than the latest was found removable: not started, and the file system lets it go |
| EvalSetCode.LogDir.GroupById | src/inspect_ai/_eval/evalset.py:684-690 | each group holds exactly the logs of its id, in their order |
| EvalSetCode.LogDir.MostRecent | src/inspect_ai/_eval/evalset.py:699-705 | the first of the most recent, as a stable sort puts it in front |
| EvalSetCode.LogDir.RemoveOlder | src/inspect_ai/_eval/evalset.py:709-716 | exactly the removable logs of the group other than the latest and the started ones are gone |
| EvalSetCode.LogDir.LatestCompletedTaskEvalLogs | src/inspect_ai/_eval/evalset.py:681-718 | returns the latest logs; the directory loses exactly the doomed files when cleaning up, else nothing |
| EvalSetCode.LogDir.Split | src/inspect_ai/_eval/evalset.py:595-610 | the latest logs split by an order-independent definition of completeness, when each has a task |
| EvalSetCode.LogDir.ListLatestEvalLogs | src/inspect_ai/_eval/evalset.py:581-610 | the latest logs of the directory, split, with the cleanup done when asked for |
| EvalSetCode.LogDir.Validate | src/inspect_ai/_eval/evalset.py:725-755 | fails exactly when two tasks have one identifier or, unless dirty logs are allowed, a log is of no task, with that error; else returns exactly the logs of tasks of the set |
| EvalSetCode.LogDir.TryEval | src/inspect_ai/_eval/evalset.py:359-451 | one attempt: what it returns and what the directory holds afterwards, for every directory and every outcome of eval; retries return the complete latest logs, then the new ones, and nothing is removed unless asked for before retries |
| EvalSetCode.LogDir.CleanupOlderEvalLogs | src/inspect_ai/_eval/evalset.py:672-678 | the final sweep removes exactly the doomed logs of the given task ids |
| EvalSetCode.CompleteIsNoWork | src/inspect_ai/_eval/evalset.py:598-668 | the chain of tests finds work exactly for the logs that are not complete, and fails only for a log without a task |
| EvalSetRuns.RunKeepsIds | src/inspect_ai/_eval/evalset.py:359-451 | from an empty directory, over any sequence of attempts, re-invocations and cleanups: two logs are of one task exactly when they share a task id |
| EvalSetRuns.RequestIds | src/inspect_ai/_eval/evalset.py:396-444 | a first run is of a task without any log; a retry carries the id of a log of its own task |
| EvalSetRuns.LatestPerTask | src/inspect_ai/_eval/evalset.py:396-428 | once every task has a log, the latest logs are exactly one for each task |
| EvalSetRuns.RetriesPairUp | src/inspect_ai/_eval/evalset.py:514-542 | the pairing of failed tasks and failed logs is total and one to one |
| EvalSetRuns.ResultsOnePerTask | src/inspect_ai/_eval/evalset.py:440-451 | the returned success logs and retried logs together are exactly one for each task |
| EvalSetRuns.FirstResultsOnePerTask | src/inspect_ai/_eval/evalset.py:404-411 | when all tasks run for the first time the results are one for each, in order |
| EvalSetRuns.CleanupKeepsLatest | src/inspect_ai/_eval/evalset.py:704-716 | a cleanup of any part of the directory keeps a log of maximal time of every task id |
| EvalSetRuns.CleanupSpares | src/inspect_ai/_eval/evalset.py:707-714 | no started log is removed, and none that the cleanup was not given |
| EvalSetRuns.CleanupTwice | src/inspect_ai/_eval/evalset.py:672-678 | a second cleanup of the same selection removes nothing |
| EvalSetRuns.RunKeepsLatest | src/inspect_ai/_eval/evalset.py:467-473 | over any run, every log that was ever there is at the end or has a log of its id at least as recent |
| EvalSetRuns.NothingIncomplete | src/inspect_ai/_eval/evalset.py:595-645 | an empty incomplete list means every latest log is successful, not invalidated and has a sample for each epoch of each position that the limit selects |
| EvalSetRuns.AcceptedExactly | src/inspect_ai/_eval/evalset.py:598-668 | without an epochs argument a log is accepted exactly when it succeeded, is valid, has a sample for each epoch of each position that the limit selects, and was made with the epochs of its task, one when it has none, and no reducer but the default |
| EvalSetRuns.AcceptedWithEpochs | src/inspect_ai/_eval/evalset.py:598-668 | with an epochs argument: exactly when besides it was made with as many epochs and the same reducers, or the default for both |
| EvalSetRuns.OwnReducerAlwaysRetried | src/inspect_ai/_eval/evalset.py:412-444 | in every run, every attempt without epochs that starts no new task retries each task whose logs have reducers of their own |
| EvalSetOutcome.SuccessWithWorkLeft | src/inspect_ai/_eval/evalset.py:396-417 | for every outcome of an attempt that runs tasks for the first time: when it counts as success, and that work is left exactly when an older log of the set was not complete or a task asked for got no log or no complete one |
| EvalSetOutcome.MixedResultsOnePerTask | src/inspect_ai/_eval/evalset.py:411-417 | the results of an attempt that runs some of the tasks are one log for each task exactly when each got one and no log of another set is in the directory |
| EvalSetRetries.RetrySuccess | src/inspect_ai/_eval/evalset.py:420-451 | after retries every returned log is new or complete |
| EvalSetRetries.RetrySuccessWithWorkLeft | src/inspect_ai/_eval/evalset.py:420-451 | for every outcome of an attempt that retries, with or without removal of older logs, new logs being the most recent: success exactly when each written log succeeded, work left exactly when a retried task got no log or no complete one |
| WaitTiming.SampleTiming.constructor | src/inspect_ai/_util/working.py:19-25 | a fresh record has waited for nothing |
| WaitTiming.SampleTiming.BeginWait | src/inspect_ai/_util/working.py:69-74 | keeps that reported time plus the open wait is the time some task waited, and that the stamp is set exactly while the count is positive |
| WaitTiming.SampleTiming.EndWait | src/inspect_ai/_util/working.py:87-94 | the same, when a wait ends by success, failure or cancellation |
| WaitTiming.SampleTiming.WorkingTime | src/inspect_ai/_util/working.py:32-34 | lies between zero and the elapsed time; with no open wait it is the elapsed time minus the union of all waits |
| WaitTiming.Waiter.constructor | src/inspect_ai/_util/working.py:69-76 | one wait begins |
| WaitTiming.Waiter.Acquire | src/inspect_ai/_util/working.py:78-81 | the wait ends when the semaphore is acquired |
| WaitTiming.Waiter.Leave | src/inspect_ai/_util/working.py:82-84 | on every way out the wait has ended exactly once |
| WaitTiming.BusyBounds | src/inspect_ai/_util/working.py:62-64 | the time with a wait open lies between zero and the elapsed time |
| WaitTiming.StretchCovered | src/inspect_ai/_util/working.py:62-64 | for every interleaving, an instant is covered by some wait exactly when the stretch around it is counted: what is measured is the union of the wait intervals |
| WaitTiming.BusyGrows | src/inspect_ai/_util/working.py:62-94 | time after the last event counts in full when some wait covers it, and not at all otherwise |
| EventTree.Forest.constructor | src/inspect_ai/event/_tree.py:43-91 | the one-pass builder puts each event in the bucket of its span and gives each span its last end, for every transcript |
| EventTree.Forest.CreateNodes | src/inspect_ai/event/_tree.py:61-67 | one node for each span, of its last begin event, without children or end |
| EventTree.Forest.Attach | src/inspect_ai/event/_tree.py:78-89 | one more event joins one bucket or ends one span |
| EventTree.HomeIs | src/inspect_ai/event/_tree.py:71-89 | an event joins a span exactly when it names it, not by an empty name, and the span begins somewhere |
| EventTree.BeginIsLast | src/inspect_ai/event/_tree.py:61-67 | a span with several begin events has the last of them |
| EventTree.FlattenTree | src/inspect_ai/event/_tree.py:94-110 | flattening the tree emits the transcript bucket by bucket |
| EventTreeRoundTrip.RoundTrip | src/inspect_ai/event/_tree.py:43-110 | for every well-nested transcript, spans left open at the tail included, flattening the built tree gives back the transcript |
| EventTreeInterleaved.FlattenedHolds | src/inspect_ai/event/_tree.py:57-110 | the flattened tree holds the children of every span, and its end, exactly once and in transcript order |
| EventTreePromises.OrderKept | src/inspect_ai/event/_tree.py:57-60 | under arbitrary interleaving the order of events inside each span is kept |
| EventTreePromises.EventsKept | src/inspect_ai/event/_tree.py:57-110 | every event comes out as often as it went in, except the ends of unknown spans, which are dropped |
| EventTreePromises.EventsCounted | src/inspect_ai/event/_tree.py:57-110 | the same when spans end several times: of the ends of a span the last comes out, once |
| EventTreePromises.Idempotent | src/inspect_ai/event/_tree.py:43-110 | the tree of the flattened transcript is the same tree |
| EventTreeLosses.KeptExactly | src/inspect_ai/event/_tree.py:70-110 | an event survives exactly when it stands at the root or in a chain of spans up to the root and, if it is an end, is the last of its span |
| EventTreeLosses.NothingLostExactly | src/inspect_ai/event/_tree.py:43-110 | every event comes out as often as it went in, but for the ends of unknown spans, exactly when no span is its own ancestor and no span ends twice |
| Rescore.FindScorersSpan | src/inspect_ai/log/_score.py:119-124 | a span of that type and name in walking order with none after it, none exactly when there is none |
| Rescore.GetUpdatedEvents | src/inspect_ai/_eval/score.py:132-167 | on well-nested transcripts: the old events with the new inner events at the end of the last scorers span, or with the new span in its place, or the failed assertion exactly when that span names an unknown parent; without a scorers span the new events are appended |
| Rescore.WalkFirst | src/inspect_ai/_eval/score.py:155-159 | the first node with the id in walking order is the one found from the top of the tree |
| Rescore.AppendSplices | src/inspect_ai/_eval/score.py:143-148 | on well-nested transcripts "append" yields the old events with the new inner events inserted contiguously as the span's last children |
| Rescore.OverwriteFails | src/inspect_ai/_eval/score.py:152-161 | "overwrite" fails exactly when the old span names a parent that is not in the transcript |
| Rescore.OverwriteSplices | src/inspect_ai/_eval/score.py:149-167 | otherwise it replaces exactly the old span's events by the new ones and leaves all others in order |
| Rescore.NumberedDistinct | src/inspect_ai/_eval/score.py:122-125 | the numbered names of one key are pairwise distinct |
| Rescore.FreshName | src/inspect_ai/_eval/score.py:119-127 | the renaming loop ends for every table, with a name not in it, after at most as many tries as the table has entries |
| Rescore.GetUpdatedScores | src/inspect_ai/_eval/score.py:112-129 | overwriting leaves exactly the new keys, each with its own score; appending keeps every entry, adds each new score under the first of its numbered names that is free, and nothing else |
| React.RemoveSubmitTool | src/inspect_ai/agent/_react.py:566-608 | the rewritten history, message by message |
| React.ActsKept | src/inspect_ai/agent/_react.py:569-608 | no submit call or result is left, and every other call and result stays in its order |
| React.PairingKept | src/inspect_ai/agent/_react.py:566-608 | if every result answers an earlier call of the same tool, that still holds afterwards |
| React.MessagesKept | src/inspect_ai/agent/_react.py:570-606 | only submit results disappear, and a message changes exactly when it calls submit; its content then loses exactly the last reasoning item |
| React.LastReasoning | src/inspect_ai/agent/_react.py:588-595 | the last reasoning item, none only if there is none |
| React.RemoveSubmitTwice | src/inspect_ai/agent/_react.py:566-608 | a second pass changes nothing |
| React.Generate | src/inspect_ai/agent/_react.py:522-546 | refusals are retried at most retry_refusals times, a refusal is returned only when they are used up, and only the last answer is appended |
| React.HandleOverflow | src/inspect_ai/agent/_react.py:442-458 | the last message is dropped before the filter, and the overflow counts as handled exactly when the filter shortened the rest |
| React.OverflowsEnd | src/inspect_ai/agent/_react.py:198-210 | each of a run of handled overflows strictly shortens the history, whatever the filter does, so there are at most as many as messages |
| React.UntilAnswer | src/inspect_ai/agent/_react.py:196-208 | for every model and filter the loop reaches an answer that is no overflow, or ends, after finitely many rounds |
| React.OneTurn | src/inspect_ai/agent/_react.py:195-303 | one turn: the history grows by the answer, then by exactly the results that the tools gave on it, then by the message for a wrong submission, then by what the hook says or the urge to go on; when it submits, and why it ends the loop |
| React.Execute | src/inspect_ai/agent/_react.py:193-313 | the whole loop, turn by turn from the start: each begins with the history the one before left, only the last ends the loop; correct exactly when the last turn submitted, was correct and attempts were left; at most max(1, attempts) submissions; the result is the last history, without the submit tool unless it is kept; results stay paired with calls in every run |
| React.NothingIsLost | src/inspect_ai/agent/_react.py:196-216 | without an overflow filter or a hook that replaces the history, every answer and every tool result is in the last history where it was added |
| React.ResultsPaired | src/inspect_ai/agent/_react.py:211-214 | tool results that answer calls of the last message keep the history paired |
| Base57.ToBase57 | src/inspect_ai/_util/hash.py:38-48 | the division loop writes the digits, most significant first |
| Base57.RoundTrip | src/inspect_ai/_util/hash.py:38-48 | decoding gives back every number |
| Base57.Letter | src/inspect_ai/_util/hash.py:34-35 | the character at a position of the alphabet decodes to that position |
| Base57.DigitsInOrder | src/inspect_ai/_util/hash.py:34-35 | the digits in order: 2 to 9, the capital letters without I and O, the small letters without l |
| Base57.Base57Id | src/inspect_ai/_util/hash.py:14-31 | for every number: 22 digits of the alphabet that decode to the number, or to its remainder by 57 to the 22nd |
| Base57.SameIdExactly | src/inspect_ai/_util/hash.py:21-31 | two numbers have the same id exactly when they have the same remainder |
| Base57.DigitsBound | src/inspect_ai/_util/hash.py:24-31 | a number below 57 to the k has at most k digits |
| Base57.DigestFits | src/inspect_ai/_util/hash.py:24-26 | 57 to the 22nd exceeds 2 to the 128th |
| Base57.IdIsExact | src/inspect_ai/_util/hash.py:14-31 | for every 128-bit digest the id has exactly 22 characters, nothing is cut off, and it decodes to the digest |
| Base57.IdsAreDistinct | src/inspect_ai/_util/hash.py:14-31 | distinct digests have distinct ids |
| DirectoryWalk.TakeEntries | src/inspect_ai/_view/common.py:450-458 | the entries of one directory: all named ones are returned, its unseen directories are stacked once |
| DirectoryWalk.ChildExactly | src/inspect_ai/_view/common.py:450-458 | which entries are descended into: named by their name, or for want of one their path, and marked as a directory or ending with a slash |
| DirectoryWalk.WalkWithoutDetail | src/inspect_ai/_view/common.py:438-459 | on every directory graph, cycles and unlistable directories included: it ends, expands each reachable directory once (the root twice exactly when it is listed), and returns exactly the named entries of reachable listable directories |
| ChoiceShuffle.IndexOfCharacter | src/inspect_ai/_util/answer.py:1-26 | index and character are inverse for every index, those from 26 on included |
| ChoiceShuffle.LettersAndNumerals | src/inspect_ai/_util/answer.py:1-26 | letters of either case select by their place in the alphabet, numerals from 1 go on from there |
| ChoiceShuffle.NoAnswer | src/inspect_ai/_util/answer.py:13-26 | exactly which texts are no answers, and with which error |
| ChoiceShuffle.NoChoice | src/inspect_ai/dataset/_dataset.py:339-343 | an answer that stands for no choice is a KeyError |
| ChoiceShuffle.ShuffledKeeps | src/inspect_ai/dataset/_dataset.py:326-328 | shuffling keeps every choice as often as it was there |
| ChoiceShuffle.RemapSelects | src/inspect_ai/dataset/_dataset.py:330-343 | for every permutation the remapped target selects the same texts as before; it fails exactly when the target selects none, with that error |
| ChoiceShuffle.Sample.Shuffle | src/inspect_ai/dataset/_dataset.py:321-337 | one sample: same choices in another order, same texts selected; on an error the choices are shuffled and the target is not |
| ChoiceShuffle.MemoryDataset.ShuffleChoices | src/inspect_ai/dataset/_dataset.py:317-337 | raises exactly when some sample's target selects none of its choices, and says which samples were shuffled by then, also when a sample stands in the list twice |

## Left out

- `jsonpatch.make_patch`: the patch is an input; no property of the patches the library generates is assumed.
- Pydantic serialisation of `JsonChange` and of events and logs.
- JSON numbers, strings and booleans are one kind of scalar, compared by text.
- Quirks of the jsonpatch and jsonpointer libraries outside RFC 6901 and RFC 6902: array positions with leading zeros inside a longer pointer, indexing into strings.
- JsonFlatPatches.ReplacedIsOverwritten: says nothing of an element that was itself written by an earlier operation of the patch, of which the code keeps no record; `JsonSecondReplace.SecondReport` says what is then reported when it was replaced.
- JsonChanges.JsonChanges: Python's `int` also reads signs, blanks, underscores and non-ASCII digits, and `\d` matches non-ASCII digits; the model reads ASCII digits only.
- Tracing, display, logging and exception groups of `run_multiple`; cancellation of the whole task group from outside.
- SchedulerCleanRuns.ResultsInTaskOrder: Python's `sorted` is any list sorted by index with the same elements.
- anyio's order of wake-ups: any enabled step may come next, which covers every order.
- Task identifiers are abstract keys: the hashing of `task_identifier`, and that a log has the identifier of its task, is assumed.
- Manifests, bundling, sleeping, console output, the `.eval-set-id` file, and the retry policy's number of attempts: runs of any length are covered.
- EvalSetCode.LogDir.TryEval: what eval writes and returns is an input. An eval that raises after writing some of its logs is an attempt of `EvalSetRuns.Run` that writes fewer logs.
- EvalSetCode.LogDir.MostRecent: the in-place sort is the choice of its first element, the only one that is used apart from the set of the others.
- The order in which a directory is listed is arbitrary after every step.
- WaitTiming.SampleTiming.BeginWait: the clock is any non-decreasing sequence of real numbers, and no one else reports waiting time for the sample; floating-point rounding is not modelled.
- EventTree.TreeOf: when a begin id is repeated, a node can be reached from itself, and the source recurses without end. The model cuts at a depth of one level for each event, so it says nothing of such transcripts; what is promised of re-scoring is for well-nested ones.
- EventTree.Forest.Attach: nodes live in a map by span id instead of being shared objects, so aliasing between the tree and the caller's nodes is not captured.
- Rescore.GetUpdatedEvents: the tree is edited as a value; `siblings.index` compares nodes by value, as the dataclass does. The begin event of a moved span keeps its parent id, so parent ids after "append" are not claimed to survive parsing again.
- Rescore.GetUpdatedScores: a score is an opaque number and the order of dictionary entries is not modelled.
- React.Execute: compaction, custom agents as models, prompts, MCP connections, scoring and the text of submitted answers, which the code adds to the completion and the last message; `react_no_submit`.
- React.Execute: tool results and hooks are arbitrary; that results stay paired assumes that filters keep pairs and that tool results answer calls of the last message.
- blake2s: the digest is any number below 2 to the 128th. UTF-8 encoding of the content.
- Base57.Letter: the 57 characters are three runs of one alphabet, written as three strings.
- Random numbers: any permutation of the positions.
- ChoiceShuffle.IndexOfCharacter: ASCII text only; `isalpha` and `isnumeric` beyond ASCII, and the negative index of `answer_character`, are not modelled.
- DirectoryWalk.WalkWithoutDetail: the listing does not change during the walk, and an entry has a name, a path and a type only.
- CLI parsing, HTTP servers, the log viewer, registry and decorators, sandboxes, providers, and short helpers: input and output, wrappers, or easy members.
