# Progress to-do list: the task manager

A model of the task-state manager of a browser to-do list with a progress
bar. The class `TodoManager` (script.js:17-87) owns an ordered list of
task records `{id, text, completed, createdAt}`. A user adds a task, ticks it
off or unticks it, deletes it, clears every completed task, or clears the whole
list after a confirmation dialog. The page shows how many tasks are done and a
whole-number percentage. After each change, the manager writes the list to the
browser's `localStorage`, and it reads the list back from there at start-up.

The model has six modules in five files:

- `Text` (text.dfy): `String.prototype.trim` over the ECMAScript whitespace
  and line-terminator characters, and the blank-text test `!text.trim()`.
- `Sequences` (sequences.dfy): `Array.prototype.filter`, with proofs that the
  survivors are exactly the elements that pass and keep their relative order.
- `Tasks` (tasks.dfy): the task record and the pure list transformations
  behind delete (`filter` on the id), toggle (`find`, then flip the first
  match) and clear-completed (`filter` on the flag), with their properties.
- `Stats` (stats.dfy): `getStats()`, with `Math.round` on non-negative values
  written as the integer round-half-up `(200 * completed + total) / (2 * total)`.
  The percentage is proved to be the nearest whole number to
  `100 * completed / total`, taking the upper one on a tie.
- `Storage` and `TodoApp` (todo_manager.dfy): the storage slot, and the class
  `TodoManager`. Its field `tasks: seq<Task>` is reassigned by each method.
  A ghost field `storage` holds the last value written, and a ghost field
  `saves` counts the writes, so each contract can say whether the operation
  saves. `ProgressScenario` derives, from the contracts alone, the figures the
  page shows after a short sequence of clicks (1 of 2 done gives 50%).

Inputs the browser supplies are parameters. The id `Date.now()` is `now`,
the ISO timestamp is `stamp`, and the answer to the `confirm` dialog is
`confirmed`. What storage held at start-up is a `Slot`: absent, unparsable,
or a list.

Ids can collide, as in the source: two tasks added within the same
millisecond get the same id. The model keeps the source's behaviour in that
case. `DeleteTask` removes every task with the id (`filter`). `ToggleTask`
flips only the first one (`find`). `OperationsKeepIdsDistinct` shows that ids
stay distinct as long as each added id is new.

The percentage reaches 100 exactly when all tasks are done only for lists of
fewer than 200 tasks. In a list of 200, 199 done is 99.5%, which rounds to 100
(`NearlyAllDoneShowsHundred`). Likewise, it is 0 exactly when none is done only
up to 200 tasks; 1 of 201 rounds to 0 (`OneDoneShowsZero`). This is ordinary
`Math.round` behaviour, so `HundredMeansAllDone` and `ZeroMeansNoneDone` state
the equivalences with those bounds.

## Model

| member | source | states |
|---|---|---|
| `Text.Trim` | script.js:41 | the trimmed text is empty exactly when every character is whitespace; otherwise it starts and ends with a non-whitespace character |
| `Text.TrimSplits` | script.js:45 | trimming only removes whitespace from the two ends; the result is the contiguous middle slice of the input |
| `Text.TrimIdempotent` | script.js:45 | the stored text is already trimmed: trimming it again changes nothing |
| `Text.TrimExamples` | script.js:41 | spaces and tabs alone trim to nothing; surrounding whitespace goes and inner spaces stay |
| `Text.IsBlank` | script.js:41 | `!text.trim()` holds exactly when every character of the text is whitespace, the empty text included |
| `Sequences.Filter` | script.js:56 | `filter` keeps exactly the elements that pass the test and never lengthens the list |
| `Sequences.FilterIsSubsequence` | script.js:69 | the survivors of a `filter` keep their original relative order |
| `Sequences.FilterAppend` | script.js:56 | filtering a concatenation is the concatenation of the filtered parts, so nothing is reordered |
| `Sequences.FilterKeepsAll` | script.js:56 | a `filter` returns the list unchanged exactly when every element passes |
| `Sequences.FilterIdempotent` | script.js:69 | filtering twice with the same test equals filtering once |
| `Sequences.FilterPartition` | script.js:69 | a test and its negation split the list: the two survivor counts add up to its length |
| `Tasks.NewTask` | script.js:43-48 | a new task has the given id and timestamp, is not completed, and holds the trimmed, non-empty text |
| `Tasks.WithoutId` | script.js:56 | after `filter` on the id, no task with that id remains and the list is no longer than before |
| `Tasks.DeleteSpec` | script.js:56 | after a delete, exactly the tasks with a different id remain, in order; the new length is the old length minus the number of tasks with the id, so every surviving copy stays; the list is unchanged exactly when no task has the id |
| `Tasks.DeleteIdempotent` | script.js:55-58 | deleting the same id a second time changes nothing |
| `Tasks.FirstIndexOf` | script.js:61 | `find` locates the first task with the id, and reports none exactly when no task has it |
| `Tasks.ToggleFirst` | script.js:60-66 | a toggle keeps the length and every task's id and text at every position |
| `Tasks.ToggleSpec` | script.js:60-66 | a toggle flips `completed` on the first matching task only; its id, text and timestamp stay; every other task stays, including later tasks with the same id; with no match the list is unchanged |
| `Tasks.FirstIndexOfSameIds` | script.js:61 | `find` depends only on the ids, so flipping a flag does not change which task it finds |
| `Tasks.ToggleInvolutive` | script.js:63 | toggling the same id twice restores the list |
| `Tasks.PendingOnly` | script.js:69 | after clearing, no completed task remains and the list is no longer than before |
| `Tasks.ClearCompletedSpec` | script.js:69 | clearing completed tasks keeps exactly the pending ones, in order; a second clear changes nothing; the list is unchanged exactly when nothing was completed |
| `Tasks.CountDone` | script.js:82 | the completed count never exceeds the number of tasks |
| `Tasks.ClearCompletedRemovesDone` | script.js:68-71 | clearing completed tasks removes exactly the completed count, and leaves a completed count of 0 |
| `Tasks.CountDoneAppend` | script.js:50 | appending a task raises the completed count only if that task is completed |
| `Tasks.CountDoneUpdate` | script.js:63 | replacing one task changes the completed count only by the change in that task's flag |
| `Tasks.ToggleCount` | script.js:60-66 | toggling a pending task adds one to the completed count, toggling a completed task removes one, and a miss changes nothing |
| `Tasks.DistinctFindsOnly` | script.js:61 | when ids are distinct, the task `find` returns is the only one with that id |
| `Tasks.OperationsKeepTextsTrimmed` | script.js:40-71 | add, delete, toggle and clear-completed keep every stored text trimmed and non-empty |
| `Tasks.OperationsKeepIdsDistinct` | script.js:44 | adding a task with an unused id, deleting, toggling and clearing completed tasks all keep ids distinct |
| `Stats.Percentage` | script.js:83 | the percentage is 0 for an empty list and at most 100; otherwise it lies within half a point of `100 * completed / total`, with a tie rounding up |
| `Stats.PercentageUnique` | script.js:83 | only one whole number satisfies that rounding rule, so it fully determines the percentage |
| `Stats.PercentageMonotone` | script.js:83 | completing more tasks never lowers the percentage |
| `Stats.PercentageEnds` | script.js:83 | none done gives 0, and all done gives 100, for any list size |
| `Stats.HundredMeansAllDone` | script.js:83 | for fewer than 200 tasks, the percentage is 100 exactly when the list is non-empty and every task is done |
| `Stats.NearlyAllDoneShowsHundred` | script.js:83 | 199 done out of 200 already shows 100 |
| `Stats.ZeroMeansNoneDone` | script.js:83 | for up to 200 tasks, the percentage is 0 exactly when no task is done |
| `Stats.OneDoneShowsZero` | script.js:83 | 1 done out of 201 still shows 0 |
| `Stats.PercentageExamples` | script.js:83 | 1 of 2 gives 50, 1 of 3 gives 33, 2 of 3 gives 67, and 1 of 8 gives 13 |
| `Stats.StatsOf` | script.js:80-86 | `total` is the list length and `completed` the completed count, at most `total`; the percentage is in 0..100 and follows the rounding rule; an empty list gives `{0, 0, 0}` |
| `Storage.Load` | script.js:22-30 | loading a missing or unparsable entry gives the empty list; loading a stored list gives that list |
| `Storage.Save` | script.js:34 | what a save writes reads back as the same list, order included |
| `TodoApp.TodoManager.constructor` | script.js:18-20 | the manager starts with the list loaded from storage, and has written nothing |
| `TodoApp.TodoManager.SaveToStorage` | script.js:32-38 | a save makes storage hold the current list, which reads back unchanged |
| `TodoApp.TodoManager.AddTask` | script.js:40-53 | blank text is refused: the method returns nothing, the list stays, and nothing is saved. Otherwise exactly one task `{now, trimmed text, false, stamp}` is appended, earlier tasks are untouched, and the list is saved |
| `TodoApp.TodoManager.DeleteTask` | script.js:55-58 | the new list is the old list filtered on the id, and it is saved even when nothing was removed |
| `TodoApp.TodoManager.ToggleTask` | script.js:60-66 | the new list is the old one with the first match flipped; the list is saved only when a task matched |
| `TodoApp.TodoManager.ClearCompleted` | script.js:68-71 | the new list holds the old list's pending tasks, and it is saved |
| `TodoApp.TodoManager.ClearAll` | script.js:73-78 | when confirmed, the list is emptied and saved; when declined, nothing changes and nothing is saved |
| `TodoApp.TodoManager.GetStats` | script.js:80-86 | a function of the current list, so it changes nothing: `total` is the list length, `completed` the number of completed tasks, and the percentage their share rounded half up (the properties of `Stats.StatsOf` and `Stats.Percentage`) |

## Left out

- Rendering, event wiring and start-up (`UIManager`, the listeners, `DOMContentLoaded`, script.js:89-203) are presentation and browser plumbing. The click handler at script.js:188 calls `clearCompleted` only when some task is completed. Because of that guard, the page never writes an unchanged list for that button. The model's `ClearCompleted` is the method itself, which always saves.
- JSON encoding and decoding are abstracted: storage holds the list itself, and "unparsable" stands for any entry on which `JSON.parse` throws. An entry that parses to something other than a task array (for example `null`) is not modelled. The source would then hold a non-array in `this.tasks`.
- A failed write to `localStorage` (quota exceeded, storage unavailable) is caught and logged, leaving the in-memory list as it is. The model assumes every write succeeds. `console.error` is not modelled.
- `Date.now()` and `new Date().toISOString()` read the clock. They are the parameters `now` and `stamp` of `AddTask`, so the model does not say how ids are chosen, only what happens when they collide.
- The `confirm` dialog is the parameter `confirmed` of `ClearAll`.
- Ids are integers. Ids read back from storage could in principle be strings, for which `===` against a number fails. That case is not modelled.
- Stats.Percentage: uses exact rational arithmetic. The source computes `(completed / total) * 100` in floating point before `Math.round`. At an exact .5 tie, the floating-point product can fall just below the tie, and the source then rounds down where the model rounds up.
- Text.Trim: works on Unicode scalar values, while JavaScript strings are UTF-16 code units. This does not matter for the whitespace set, which lies entirely in the Basic Multilingual Plane.
- Task records are values, not shared objects. In the source, `addTask` returns the same object it pushes (script.js:50, 52), and `toggleTask` flips `completed` on that object in place (script.js:63), so a caller still holding the returned task sees the flip. In the model, the `Task` that `AddTask` returns never changes; only the manager's list does. Nothing in the manager relies on this sharing.
