# Task list manager, modelled in Dafny

This project models the `TaskManager` class of a browser to-do application
(`task-manager.js`). Rendering, storage, dialogs and timers are removed, and
what is left is a state machine. The state is a `Store`: the ordered list of
`Task` records (id, title, description, priority high/medium/low, status
pending/completed, creation instant, optional completion instant) and the id
counter. The five handlers that change the list (add, toggle, delete, edit,
import) become pure functions from a store to a `Step`. A `Step` holds the
new store and the notification the handler raises (success or error, and
which message). Export is a function from a store to the exported task list
and the success notification it shows.
Loading builds a store from the saved list and the saved counter. The values the page would supply become
parameters: form fields, the answers of the two `prompt` dialogs, the clock,
and the decoded import file.

Modules, one file each:

- `Options` (`options.dfy`): the optional value, for `null`, a cancelled dialog and a missing storage key.
- `Text` (`text.dfy`): ECMAScript `String.prototype.trim` and the "blank title" test.
- `Seqs` (`seqs.dfy`): order-preserving filtering, as `Array.prototype.filter` does it, and the subsequence relation.
- `Tasks` (`tasks.dfy`): the records, lookup of the first task with an id (`find`), the `Math.max(...ids, 0)` fold, and the id invariants.
- `TaskManager` (`task_manager.dfy`): add, toggle, delete, edit, export, import and load.
- `TaskView` (`task_view.dfy`): the filter predicate, the summary counts, and the relative-date buckets of `formatDate`.
- `TaskProperties` (`task_properties.dfy`): lemmas that relate several operations.

The counter is meant to stay above every id, so that a new task never gets
an id already in use. The model follows what the code does instead. Loading
an empty store seeds ids 1 to 3 but leaves the counter at 1. Toggle and edit
act only on the first task with the id. Delete removes every task with the
id. "Counter above every id" is therefore not a global invariant. It is proved where the code establishes it (import),
shown to be kept by add, toggle, edit and delete, and shown to fail after
seeding.

## Model

| member | source | states |
|---|---|---|
| `Text.Trim` | task-manager.js:63-64 | the trimmed text is a contiguous piece of the input with only whitespace removed on either side, and it neither starts nor ends with whitespace |
| `Text.BlankIffAllWhitespace` | task-manager.js:67 | a title is rejected as empty after trimming exactly when every character of it is whitespace |
| `Seqs.Filter` | task-manager.js:236 | filtering keeps exactly the elements that satisfy the predicate and never grows the list |
| `Seqs.FilterIsSubsequence` | task-manager.js:236 | the elements kept by a filter stay in their original relative order |
| `Seqs.FilterPartition` | task-manager.js:292-294 | two complementary predicates split a list's length between their filters |
| `Tasks.Flip` | task-manager.js:216 | a checkbox click always changes the status |
| `Tasks.FindIndex` | task-manager.js:213 | lookup by id yields the position of the first task with that id, or nothing exactly when no task has it |
| `Tasks.MaxId` | task-manager.js:462 | the fold is at least 0 and at least every id, and is 0 or one of the ids |
| `TaskManager.Add` | task-manager.js:56-82 | a blank title changes nothing and raises an error; otherwise exactly one pending task is appended with the counter as id and the trimmed texts, earlier tasks are kept, and the counter grows by one |
| `TaskManager.Toggle` | task-manager.js:212-225 | an unknown id changes nothing; otherwise only the first task with the id flips status, its completion instant is present exactly when it is now completed, and nothing else changes |
| `TaskManager.Delete` | task-manager.js:236-240 | no task with the id remains, every other task is kept in its original order, the list shrinks by exactly the number of tasks carrying the id (so duplicate survivors all stay), an unknown id changes nothing, and the counter is untouched |
| `TaskManager.Edit` | task-manager.js:245-266 | unknown id, cancelled title, blank title (with an error) and cancelled description change nothing; otherwise only the first matching task's title and description change, both trimmed |
| `TaskManager.Import` | task-manager.js:455-475 | a non-array changes nothing and raises an error; an array replaces the list and sets the counter to one above the largest id (0 counted), so it exceeds every id and is 1 for an empty array |
| `TaskManager.Export` | task-manager.js:441-452 | importing the exported snapshot into any store gives back the same task list, with a counter above every id; the export shows a success notification |
| `TaskManager.Seed` | task-manager.js:400-430 | the three demonstration tasks have ids 1, 2 and 3, priorities high, medium and low, and only the third is completed |
| `TaskManager.LoadedTasks` | task-manager.js:397-433 | the saved list is used unless it is absent or empty, in which case the seed is used |
| `TaskManager.Load` | task-manager.js:435-438 | the counter is the saved one, or 1 when none is saved, whatever ids the list holds |
| `TaskManager.LoadFixed` | task-manager.js:397-438 | the corrected start-up keeps the same list but puts the counter above every loaded id |
| `TaskView.Visible` | task-manager.js:268-289 | a task is displayed exactly when the priority select and the status select both let it through; displayed tasks keep list order, and displayed plus hidden tasks make up the whole list, duplicates included |
| `TaskView.ClearFilters` | task-manager.js:510-517 | after Escape, both selects are "all" and every task passes |
| `TaskView.ClearedFilterShowsEverything` | task-manager.js:510-517 | with both selects on "all" the displayed tasks are the whole list, in order |
| `TaskView.VisibleIsConjunction` | task-manager.js:278-281 | a one-priority, one-status filter shows exactly the tasks having both |
| `TaskView.Stats` | task-manager.js:291-294 | the total is the list length, completed counts completed tasks, and the computed pending number equals the number of pending tasks |
| `TaskView.CeilDays` | task-manager.js:371 | the day count is the least whole number of days covering the difference |
| `TaskView.RelativeDate` | task-manager.js:367-382 | "today" exactly for 0 < difference <= 1 day, "yesterday" for 1 to 2 days, "N days ago" for no difference or 2 to 7 days, an absolute date beyond 7 days |
| `TaskView.RelativeDateFixed` | task-manager.js:373-378 | the corrected labelling says "today" for any difference up to one day, including none, and agrees with the code elsewhere |
| `TaskProperties.AddKeepsIdsBelowCounter` | task-manager.js:73 | an add keeps every id below the counter when that held before |
| `TaskProperties.AddKeepsIdsUnique` | task-manager.js:73 | with ids below the counter, an add introduces no duplicate id |
| `TaskProperties.ToggleKeepsIds` | task-manager.js:212-217 | toggle leaves every id in place, so it keeps the ids unique and below the counter |
| `TaskProperties.EditKeepsIds` | task-manager.js:245-261 | edit leaves every id in place, so it keeps the ids unique and below the counter |
| `TaskProperties.DeleteKeepsIdsBelowCounter` | task-manager.js:236 | a delete keeps every remaining id below the counter |
| `TaskProperties.AddAppends` | task-manager.js:72-82 | a successful add is an append of one pending task with the counter as id, plus a counter increment |
| `TaskProperties.DeleteUndoesAdd` | task-manager.js:72-82 | deleting the id an add just handed out restores the earlier list; only the counter has moved |
| `TaskProperties.ImportOwnExport` | task-manager.js:441-462 | importing an exported list gives the same list, a counter above every id, and a counter no larger than the exporting store's |
| `TaskProperties.ToggleTwice` | task-manager.js:212-217 | toggling twice restores status and all other fields; the completion instant ends consistent with the status, and its presence returns whenever it was consistent before |
| `TaskProperties.EditIdempotent` | task-manager.js:245-261 | repeating an edit with the same answers changes nothing further |
| `TaskProperties.FilterUpdateSize` | task-manager.js:293 | replacing one task changes a filter's size by the old and new task's contributions |
| `TaskProperties.StatsAfterAdd` | task-manager.js:82-85 | a successful add raises the total and the pending count by one |
| `TaskProperties.StatsAfterToggle` | task-manager.js:216-221 | a toggle moves one task between the completed and pending counts and keeps the total |
| `TaskProperties.StatsSeeOnlyStatuses` | task-manager.js:291-294 | lists with the same statuses in the same places have the same counts, so an edit, which keeps every status, never moves them |
| `TaskProperties.DropFirstAndLast` | task-manager.js:236 | deleting id 1 from four tasks where the first and last carry it keeps the middle two |
| `TaskProperties.DropUniqueId` | task-manager.js:236 | filtering out an id that exactly one task carries drops exactly one task |
| `TaskProperties.DeleteUniqueIdRemovesOne` | task-manager.js:236 | with unique ids, deleting a present id shortens the list by one |
| `TaskProperties.SeedLeavesCounterBehind` | task-manager.js:397-438 | after seeding an empty store, the counter is 1 and not above the seeded ids |
| `TaskProperties.FirstAddAfterSeedReusesId` | task-manager.js:397-438 | the first add after seeding reuses id 1, the ids are no longer unique, and toggling id 1 reaches the seed task rather than the new one |
| `TaskProperties.DeleteAfterSeedRemovesBoth` | task-manager.js:397-438 | deleting id 1 after that add removes both the seed task and the new task |
| `TaskProperties.FixedSeedThenAdd` | task-manager.js:397-438 | with the corrected start-up the counter is 4, and the first add appends a pending task with id 4 behind ids 1 to 3, all ids unique |
| `TaskProperties.ToggleAfterFixedSeed` | task-manager.js:212-236 | on four tasks with unique ids, first id 1 and last id 4 (pending), toggling id 4 completes it and deleting id 1 then leaves three tasks |
| `TaskProperties.SeedScenarioFixed` | task-manager.js:397-438 | with the corrected start-up, the first add gets id 4, toggling it completes it with the toggle instant, the ids stay unique, and deleting id 1 then leaves three tasks |
| `TaskProperties.SameInstantIsZeroDaysAgo` | task-manager.js:370-378 | for no difference at all, the code gives "0 days ago" and the corrected labelling gives "today" |

## Left out

- Rendering (`renderTasks`, `createTaskElement`), the labels and colours it derives, and the notification element: these are DOM presentation. Which notification a handler raises is modelled; how long it stays is not.
- `searchTasks`: it reads text back out of rendered elements and lower-cases it with Unicode case rules.
- Storage (`saveTasks`, `localStorage`, `JSON.parse`/`stringify`), the export download and the `FileReader`. Persistence is the `Store` value. Export's snapshot is the task list itself. Import takes the decoded payload as an array of task records or "not an array". Malformed records inside an array, non-integer or non-numeric ids, and the engine limit on `Math.max(...ids)` spreading a very large array are not represented.
- TaskManager.Add: ids and the counter are unbounded integers, whereas the program stores them as IEEE double numbers. `taskIdCounter++` behaves as modelled only while the counter is below 2^53; from 2^53 on, adding 1 can return the same number, and the next add would repeat an id.
- TaskManager.Import: the counter `max(ids, 0) + 1` and the promise that it exceeds every id hold for the program only for ids below 2^53. An imported id of 2^53 gives back a counter equal to that id in double arithmetic.
- TaskManager.LoadFixed: the same limit applies to its `MaxId + 1` counter. It holds for ids below 2^53.
- TaskManager.Export: the round trip is stated for the decoded task records. The JSON text in between is not modelled, and JSON keeps integer ids exactly only below 2^53.
- `getNextTaskId` parses the saved counter with `parseInt`; the model takes the parsed integer, so a counter that parses to `NaN` is not represented.
- The `confirm` dialog, the element lookup and the 300 ms `setTimeout` around delete. `Delete` is the data step that runs once the user has confirmed.
- The `prompt` dialogs of edit become the two optional answers. The description answer is ignored whenever the title answer already ends the edit, as the second dialog is then never shown.
- `animateNumber` and the notification timers: they are interval and timeout driven with floating-point stepping.
- `formatDate`'s clock, date parsing and locale formatting. The model takes the signed millisecond difference and treats the absolute date as opaque. It uses exact integer ceiling division. For differences of at most 8 days this agrees with the floating-point `Math.ceil(diff / 86400000)`, and beyond that the result is an absolute date either way.
- `Load` uses one instant for all three seed tasks, where the code calls `new Date()` separately for each field.
- The filter selects are modelled as "all" or one value. The code's fallback `|| 'all'` for a missing or empty select is not represented.
- The static demonstration elements in the page markup, which `filterTasks` also hides and shows, are not part of the model.
- The mobile menu, smooth scrolling, keyboard focus and export shortcuts, and the files `animations.js`, `main.js` and `three-background.js`: these are presentation only.

## Findings

| source | as written | input that shows it | evidently intended | confidence | as-written member | corrected member |
|---|---|---|---|---|---|---|
| task-manager.js:397-438 | an empty store is seeded with ids 1, 2 and 3 while the counter stays at 1 | first start with empty storage, then add any task | the counter starts above the seeded ids, so the new task gets id 4 | high, not executed | `TaskProperties.FirstAddAfterSeedReusesId` | `TaskManager.LoadFixed` (with `TaskProperties.SeedScenarioFixed`) |
| task-manager.js:370-378 | a difference of 0 ms gives 0 days, which falls through to "0 days ago" | a task rendered in the same millisecond as it was created | "today" | medium, not executed | `TaskProperties.SameInstantIsZeroDaysAgo` | `TaskView.RelativeDateFixed` |
