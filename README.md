# Kanban daily-task board: a verified model of `TaskManager`

This project models the `TaskManager` class of a browser Kanban board in Dafny. The board keeps a list of daily
tasks (to do, in progress, completed) in the browser's key-value store. On every change it saves the list and
keeps a five-slot rotation of backups. Once a day it writes a snapshot and prunes snapshots older than 30 days.
It also runs a Pomodoro timer that credits finished work sessions to a task.

The model has six modules:

- `Wrappers`: `Option`.
- `Strings`: decimal text of numbers, the `YYYY-MM-DD` date reading used by the prune, and `formatTime` with its
  reading-back lemma.
- `Tasks`: the task record.
  - Tasks are found by first match, as `Array.prototype.find` does.
  - The status move keeps `completed` and `completedAt` in step with `status`.
  - Also here: deletion by id, construction from the add form, and the category schedule and the default tasks built from it.
- `Stats`: the arithmetic of `updateStats` and `getDailyStats`: counts, time sum, whole-percent productivity and
  per-category counts.
- `Storage`: the store as a `map<string, StoredValue>` of abstract documents. Pure functions state the effect of
  each persistence operation on the store: rotation, daily snapshot, prune, save, load, restore and wipe.
- `App`: the class `TaskManager`.
  - Its fields are `tasks`, `store`, `isTimerRunning`, `timerMode`, `timeRemaining` and `currentTimerTask`.
  - It has one method per operation. The loops of the original become `while`/`for` loops with invariants.
  - Each method is proved against the `Storage`, `Tasks` and timer functions.

The clock, the random template picks, generated ids, form fields, the duration inputs and the answers to
`confirm()` dialogs are all method parameters:

- `Clock.now` is the ISO timestamp.
- `Clock.today` is the ISO date.
- `Clock.keepFrom` is the first date the 30-day retention keeps, written as the number YYYYMMDD.

The order in which `localStorage.key(i)` lists the keys is up to the browser. It is a function from store to key
sequence (`Storage.KeyOrder`), given to the constructor and kept in `App.TaskManager.keyOrder`. The loops as written
read that order once, at their start.

A duration field that `parseInt` reads as NaN is `None`.

## Model

| member | source | states |
|---|---|---|
| Strings.FormatTimeShowsWholeMinutes | script.js:555-564 | the label reads back, as `"<h>h <m>m"` with minutes below 60 or as `"<m>m"`, numbers without leading zeros, to exactly the whole minutes `seconds / 60`; the hours part appears exactly when there is at least one full hour |
| Strings.FormatTimeExamples | script.js:555-564 | `formatTime(125) == "2m"` and `formatTime(3900) == "1h 5m"` |
| Strings.MinutesShownExamples | script.js:555-564 | `"1h 5m"` reads as 65 minutes and `"125m"` as 125 |
| Strings.MinutesShownRejects | script.js:555-564 | `"1h 65m"` (60 minutes or more after the hours) and `"1h 05m"` (a leading zero) are not labels `formatTime` prints |
| Strings.JsRemainder | script.js:557 | the truncating `%`: it differs from the dividend by a multiple of `b`, and lies in `[0, b)` (equal to the mathematical remainder) for a non-negative dividend and in `(-b, 0]` for a negative one |
| Strings.ParseNatToString | script.js:677-678 | the decimal text of a slot number reads back as that number, so distinct slot numbers give distinct `kanban_backup_<n>` keys |
| Tasks.FirstIndex | script.js:412 | the index `find` lands on: a task with that id, with no earlier task having it; none when no task has it |
| Tasks.WithStatus | script.js:413-421 | the moved task has the new status, `completed` exactly when the status is completed, `completedAt` set to now on completion, and every other field unchanged |
| Tasks.StatusUpdated | script.js:411-428 | only the first task with the id changes, and to `WithStatus`; an unknown id leaves the list as it was; the length is kept |
| Tasks.StatusUpdatePreservesMirror | script.js:414-421 | if every task's `completed`/`completedAt` mirrors its status before a move, it still does after |
| Tasks.Credited | script.js:481-484 | the first task with the id gains the session seconds in `timeSpent` and nothing else; every other task is unchanged |
| Tasks.Without | script.js:509-517 | the kept tasks are exactly those with another id, each as many times as in the list; none with the id remains; an unknown id keeps the list |
| Tasks.WithoutAppend | script.js:511 | deleting from a concatenation deletes from each part, so the kept tasks stay in list order |
| Tasks.DeletePreservesMirror | script.js:511 | deletion keeps the status mirror of every task |
| Tasks.NewTask | script.js:250-262 | a new task is in "todo", not completed, with no time spent, and carries the form's title, description, category, priority, estimate and date and the given id |
| Tasks.AddPreservesMirror | script.js:264 | appending a new task keeps the status mirror |
| Tasks.EstimatedTime | script.js:188-197 | the estimate is positive, and 30 for every category outside the table |
| Tasks.EstimatedTimeTable | script.js:189-196 | the table: placement 45, upsc 30, defence 25, fitness 15, college 60 |
| Tasks.DailyTasks | script.js:160-181 | task k of the generated batch is the default task for schedule category k, in schedule order |
| Tasks.DefaultTasksShape | script.js:160-181 | one task per category, each in "todo", medium priority, not completed, no time spent, titled from its category's pool, with `getEstimatedTime(category)` as estimate |
| Tasks.ScheduleCategories | script.js:117-148 | the schedule's five categories are distinct and all have a table entry |
| Stats.DayTasks | script.js:537 | the day's tasks are exactly the list's tasks with that date, each as many times as in the list, and their number is the number of list positions dated that day |
| Stats.DayTasksAppend | script.js:537 | selecting a day's tasks from a concatenation selects from each part, keeping list order |
| Stats.CompletedCount | script.js:540 | the count is the number of list positions holding a completed task; it never exceeds the total, is 0 when nothing is completed and the total when everything is |
| Stats.TimeSumAppend | script.js:541-544 | the time-spent sum is additive over concatenation |
| Stats.TimeSumNonNegative | script.js:541-544 | the sum is non-negative when no task has negative time spent |
| Stats.Productivity | script.js:545-546 | the percentage is 0 for a day with no tasks, at most 100, and otherwise `100 * completed / total` rounded half up (`2tp <= 200c + t < 2t(p + 1)`) |
| Stats.ProductivityEnds | script.js:545-546 | no completed task gives 0%, all tasks completed gives 100% |
| Stats.Bump | script.js:748-751 | one category increment raises that category's count by one, leaves every other count, adds the key only if new |
| Stats.TallyFacts | script.js:748-751 | the per-category counts have distinct keys, sum to the number of tasks, count exactly the tasks in each category, and list exactly the categories that occur |
| Stats.DailyStatsFor | script.js:741-754 | today's stats: total is the day's task count, completed the day's completed count, time spent the sum over the day's tasks, and the category counts have distinct keys, sum to the total and equal each category's task count |
| Stats.BoardSummary | script.js:535-553 | the header figures for the selected day: total is the day's task count, completed its completed count, time the formatted sum of its time spent, productivity the rounded percentage of those two; productivity in 0..100, 0 on an empty day or with nothing done, 100 when all done |
| Storage.RotatedSlots | script.js:671-693 | after `createBackup` slot 1 holds the new snapshot; for i in 1..4 slot i+1 holds the old slot i when that was non-empty, and keeps its old value otherwise; no other key changes |
| Storage.RecentSnapshotsInSlots | script.js:671-693 | after n backups, slot k (k <= min(n, 5)) holds the k-th most recent snapshot, whatever the slots held before |
| Storage.AutoBackupEffect | script.js:695-735 | the daily check touches only daily keys and the marker, and the marker names today afterwards; on a day already backed up it changes nothing; otherwise the only key added is today's snapshot (with today's stats, unless today is itself stale), only stale snapshots are removed, every key the prune is not after stays, and every other value is unchanged |
| Storage.AutoBackupFrame | script.js:695-719 | the daily check changes only daily keys and the marker, leaves the marker naming today, and changes nothing on a day already backed up |
| Storage.AutoBackupNewDay | script.js:700-716 | on a new day: at most today's snapshot and the marker are added, only stale snapshots are removed, every key the prune is not after stays, other values are unchanged, and today's snapshot is there unless today is stale |
| Storage.PrunedAfterWrites | script.js:708-735 | two writes and then the loop as written: at most the written keys are added, only keys the sweep is after are removed, other values stay, and a write the sweep is not after survives |
| Storage.DailySnapshotOncePerDay | script.js:695-719 | a second save on the same date changes no daily key and not the marker: at most one daily snapshot per date |
| Storage.PruneSafety | script.js:721-739 | the corrected prune (`Swept`) removes exactly the daily snapshots dated before the window; other keys, in-window snapshots and snapshots with unreadable dates keep their values |
| Storage.SweptAsWrittenOnlyMatching | script.js:726-735 | the remove-while-indexing loop removes only keys the sweep is after |
| Storage.SweptAsWrittenEffect | script.js:726-735 | running the loop as written over a store, in any key order, removes only keys the sweep is after, changes no value and keeps every other key |
| Storage.PruneSkipsAdjacentKey | script.js:726-735 | with two adjacent stale snapshots the loop as written removes the first and leaves the second |
| Storage.WipeSkipsAdjacentKey | script.js:997-1001 | with two adjacent daily snapshots the wipe loop as written removes the first and leaves the second |
| Storage.SavedLiveCopy | script.js:647-669 | after a save the live list is the tasks, the metadata's `taskCount` is their number, slot 1 holds them, the other slots are as the rotation left them, and the marker names today |
| Storage.SavedDaily | script.js:664-665 | a save on a new day leaves today's snapshot of the saved tasks; a save on a day already backed up leaves every daily key unchanged |
| Storage.SavedFrame | script.js:647-693 | a save changes no key outside the board's own key families |
| Storage.LoadTasks | script.js:628-645 | only entries with an id and a title are loaded, each such entry as many times as it is stored; nothing stored, or a stored value that is not a list, gives the empty list |
| Storage.LoadKeepsOrder | script.js:633 | loading a stored `a + b` gives the loaded `a` followed by the loaded `b`: stored order is kept |
| Storage.LoadAfterSave | script.js:628-669 | loading after a save gives exactly the saved tasks that have an id and a title, in order; all of them when every task has both |
| Storage.RestoredTasks | script.js:756-763 | `backupData.tasks || []`: a slot or daily snapshot restores exactly its own tasks, any other parsed document restores the empty list, and text that does not parse or parses to `null` fails |
| Storage.RestoreAfterSave | script.js:756-780 | right after a save, slot 1 restores exactly the saved tasks, and so does today's snapshot when the save wrote one |
| Storage.ClearedSlotsKeys | script.js:992-994 | after the slot loop up to n, exactly the slots below n are removed, and all other keys keep their values |
| Storage.ClearedAsWrittenKeys | script.js:985-1001 | the wipe as written removes the live list, the metadata and the five slots, keeps every key outside those and the daily family, and changes no value; daily snapshots can survive |
| Storage.ClearedKeys | script.js:985-1001 | the wipe as intended (`ClearedIntended`) removes the live list, the metadata, the five slots and all daily snapshots, and keeps every other key (the date marker included) and its value |
| App.TimerControls | script.js:440-475 | start is a no-op while running and idempotent; pause keeps remaining time, mode and task; reset stops and loads whole minutes, 25 minutes for a blank or zero field |
| App.FinishAlternates | script.js:477-498 | completion stops the timer, flips work and break, keeps the bound task, and always loads the break duration (5 minutes by default), even when flipping back to work |
| App.CountdownReachesZero | script.js:445-451 | each tick takes one second off; a timer loaded with r seconds stays above zero for r-1 ticks and reaches zero on the r-th |
| App.DefaultsOnlyWhenEmpty | script.js:150-156 | defaults are added exactly when no task is dated today, appended after the existing tasks and dated today, so running the rule again adds nothing |
| App.ResetKeepsPreviousList | script.js:1013-1034 | after a reset slot 1 holds the new default list and slot 2 the list it replaced |
| App.EditsSurviveReload | script.js:411-428 | a status move or a deletion, saved and then loaded, comes back as made |
| App.TaskManager.constructor | script.js:3-14 | the tasks are the loaded ones plus today's defaults when none is dated today; the store is saved only then; the timer is stopped, in work mode, with 25 minutes, unbound; the key order is the browser's |
| App.TaskManager.CreateBackup | script.js:671-693 | the descending slot-copy loop and the new slot 1 give the rotation `Rotated`; tasks and timer are untouched |
| App.TaskManager.SweepDaily | script.js:721-739 | the corrected loop: removing the matching keys from a snapshot of the key set leaves exactly `Swept`, every matching key gone and every other key kept |
| App.TaskManager.SweepDailyAsWritten | script.js:726-735 | the index loop as written, over the store in the browser's key order, removes exactly the keys `SweptAsWritten` names: only keys the sweep is after, with no value changed and every other key kept |
| App.TaskManager.CleanOldBackups | script.js:721-739 | runs the loop as written with the 30-day test: only snapshots dated before the window are removed, no value changes, every other key stays |
| App.TaskManager.AutoBackup | script.js:695-719 | the store becomes `AutoBackedUp` of the current tasks, with the prune as written in the browser's key order |
| App.TaskManager.SaveTasks | script.js:647-669 | rotation, live list, metadata and daily check in that order give `Saved`; tasks and timer unchanged |
| App.TaskManager.RestoreFromKey | script.js:756-780 | success exactly when the key holds non-empty text that parses to something other than `null`; then the tasks are the snapshot's own tasks, or the empty list for any other document, and the store is saved; on failure nothing changes |
| App.TaskManager.RestoreFromBackup | script.js:756-780 | as `RestoreFromKey` for `kanban_backup_<n>`, slot 1 when no number is given: a missing slot reports false and leaves tasks and store unchanged |
| App.TaskManager.RestoreFromDailyBackup | script.js:939-964 | as `RestoreFromKey` for `daily_backup_<date>` |
| App.TaskManager.DeleteBackup | script.js:966-973 | when confirmed, exactly that key is removed; otherwise nothing changes |
| App.TaskManager.ClearAllData | script.js:975-1011 | after both confirmations the list is empty and the store is `Cleared` (the daily loop as written, in the browser's key order); without them nothing changes; the timer is untouched |
| App.TaskManager.GenerateDailyTasks | script.js:160-186 | the loop appends the default batch after the existing tasks and then saves |
| App.TaskManager.LoadScheduleData | script.js:116-157 | the tasks become `WithDefaults` of the old ones; the store is saved only when defaults were added |
| App.TaskManager.AddTask | script.js:246-273 | the new task is appended and the list saved |
| App.TaskManager.UpdateTaskStatus | script.js:411-428 | the list becomes `StatusUpdated`; it is saved exactly when the id exists |
| App.TaskManager.DeleteTask | script.js:509-517 | when confirmed, the list loses the id's tasks and is saved; otherwise nothing changes |
| App.TaskManager.ResetToDefault | script.js:1013-1034 | when confirmed, the old list is backed up, the list becomes today's defaults alone, and it is saved |
| App.TaskManager.ImportData | script.js:1051-1069 | a parsed list replaces the tasks and is saved; a parse failure changes nothing |
| App.TaskManager.StartTaskTimer | script.js:430-438 | a known id binds the first task with it and loads its estimate in seconds; an unknown id changes nothing |
| App.TaskManager.StartTimer | script.js:440-457 | the timer runs afterwards; other fields, tasks and store unchanged |
| App.TaskManager.PauseTimer | script.js:459-467 | the timer is stopped; remaining time, mode and bound task kept |
| App.TaskManager.ResetTimer | script.js:469-475 | stopped, with the work duration (25 minutes by default) loaded |
| App.TaskManager.TimerComplete | script.js:477-498 | stopped, mode flipped, break duration loaded; a bound task is credited a work session and the list saved; unbound, tasks and store unchanged |
| App.TaskManager.Tick | script.js:445-451 | one second off; on reaching zero the timer completes as `TimerComplete` does |

## Left out

- Rendering, modals, event wiring, drag and drop, notifications, sounds and the service worker: browser side effects.
  Drag and drop is modelled only through the `updateTaskStatus` call it makes.
- `editTask` (script.js:519-533): it fills form fields and then calls `deleteTask`, which is modelled.
- `updateTimerDisplay`, `updateDataInfo`, `showBackupList`, `exportData`, `exportTodayData` and the `FileReader` part of
  `importData`: display text, Blob sizes and file I/O.
- `createManualBackup` is `createBackup` followed by a notification, so `App.TaskManager.CreateBackup` covers it.
- `setInterval`/`clearInterval`: the tick is a method the environment calls while the timer runs.
- JSON: stored values are abstract documents.
  - `Document` stands for any other text that parses to a value other than `null`, such as `{}` or `42`. It loads as
    the empty list and restores the empty list.
  - `Raw` stands for text that does not parse, or parses to `null`. A `Raw` live list loads as empty, and a `Raw`
    backup fails to restore.
  - Imports that parse to something other than an array of tasks are not modelled.
- Storage quota errors and the `try`/`catch` around failed writes: every write succeeds.
- `Storage.LoadTasks`: all stored entries are task records, so the `task &&` test against `null` entries is not modelled.
  An id or title counts as missing only when it is the empty text.
- `Tasks.NewTask` and `App.TaskManager.TimerComplete`: the estimate and the work-duration field are integers.
  - The NaN that `parseInt` gives for a blank field there (no `|| default`) is not modelled.
  - `timeSpent` never becomes NaN.
- `Stats.Productivity`: computed in exact integer arithmetic, rounding half up. Floating-point `(c / t) * 100` can round a
  value that should be exactly .5 down (for example 29 of 200), and that is not modelled.
- `Strings.ParseDate`: only `YYYY-MM-DD` text is read as a date.
  - Other formats that `new Date` accepts count as unparsable, and unparsable dates are kept, as an invalid `Date` compares false.
  - The time of day in "now minus 30 days" is folded into the `keepFrom` parameter.
  - Any day from 1 to 31 is accepted in every month, and `2024-02-30` reads as the number 20240230. A browser that rolls
    such a date over to March 1 can compare it differently with a boundary at the start of March. Only keys the board
    did not write reach this case, since the board names its snapshots by real dates.
- `App.TaskManager.StartTaskTimer`: the bound task is held by id, not by object reference.
  - The two differ only after the list is replaced (import, restore, reset) with a list that again contains that id.
  - There the original credits the detached old object, and the model credits the new task.
- Categories are compared as text, so names such as `constructor` that hit `Object.prototype` in `getEstimatedTime`'s
  table are not modelled.
- Ids, timestamps and template picks come from `Date.now`/`Math.random`; here they are method parameters.
- `Tasks.Status` and `Tasks.Priority` have three values each. The drop handler passes the column's `data-status`
  attribute to `updateTaskStatus` unchecked (script.js:398-414), so a page whose column carried another value
  would store that text as a status; the model's columns carry only the three names.
- `Stats.Tally`: categories are compared as text, so a category named after an `Object.prototype` member
  (`constructor`, `toString`), which makes `acc[task.category] || 0` start from that member rather than 0
  (script.js:749-751), is not modelled.
- `Storage.KeyOrder` is any function from store to key sequence. The browser lists each key once, and the model does not
  require that. The effect lemmas about the loops as written (`Storage.SweptAsWrittenEffect`, `Storage.AutoBackupEffect`,
  `Storage.ClearedAsWrittenKeys`) hold for every starting order.
- `Storage.SweptAsWritten`: after each `removeItem` the remaining keys are assumed to keep their relative order, as in
  a store listed in sorted or insertion order. The loop reads the order once and drops the removed key from it. The
  storage standard fixes the order of `key(i)` only while the number of keys stays the same, so a browser that
  reorders the rest after a removal could skip different keys. The exact ending stores that `SweepDailyAsWritten`,
  `CleanOldBackups`, `AutoBackup`, `ClearAllData` and every saving method state assume this. The "removes only
  matching keys" statements do not.

## Findings

| source | as written | input that shows it | evidently intended | confidence | as-written member | corrected member |
|---|---|---|---|---|---|---|
| script.js:726-735 | the prune loop removes keys while walking `localStorage.key(i)` by increasing index, so the key after each removed one shifts into the removed position and is never examined | a store whose key order has `daily_backup_2024-01-01` directly followed by `daily_backup_2024-01-02`, both older than the window: only the first is removed (`Storage.PruneSkipsAdjacentKey`) | every daily snapshot dated before the window is removed, every other key kept | not executed; key order is up to the browser | App.TaskManager.SweepDailyAsWritten | App.TaskManager.SweepDaily |
| script.js:997-1001 | the wipe's daily-snapshot loop has the same remove-while-indexing shape | two adjacent daily snapshot keys: the second survives the wipe (`Storage.WipeSkipsAdjacentKey`) | every daily snapshot is removed | not executed; key order is up to the browser | App.TaskManager.SweepDailyAsWritten | App.TaskManager.SweepDaily |

`App.TaskManager.CleanOldBackups` and `App.TaskManager.ClearAllData` run the loop as written
(`App.TaskManager.SweepDailyAsWritten`) over the store's keys in the browser's order, and `Storage.AutoBackedUp`,
`Storage.Saved` and `Storage.Cleared` state the resulting store the same way. That loop is proved to remove only matching
keys and to change no value (`Storage.SweptAsWrittenEffect`), so it never deletes anything it should keep. It only
fails to delete everything it should.

The corrected loop is `App.TaskManager.SweepDaily`. It collects the matching keys before it removes any of them, and is
proved to leave exactly `Storage.Swept`. `Storage.PruneSafety` and `Storage.ClearedKeys` (about
`Storage.ClearedIntended`) state what the corrected prune and wipe keep and remove.
