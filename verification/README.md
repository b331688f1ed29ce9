# To-do list task manager: a verified model of the task collection

The to-do list application keeps its tasks in one array, `tasks`, in the browser
page. Each task has:

- an id and a title;
- a description, a priority and a category;
- an optional due date;
- a completion flag and creation and completion timestamps.

The event handlers of `task-manager.js` change that array:

- add a task;
- toggle its completion;
- delete it;
- edit it;
- clear everything;
- clear the completed tasks.

Every render reads it back through `getFilteredTasks`, which applies a status filter, a
category filter and one of four sort orders. Each task is shown with a due-date label, a
colour badge and its title passed through `escapeHtml`. Beside each render, the handlers
refresh the counters of `updateStats` and the progress percentage.

This project models that logic as pure Dafny functions over an immutable
`seq<Task>`. The DOM reads and writes are stripped away: the values of the form
fields, the answer to a `confirm(...)` dialog and the current time `now` become
parameters.

| file | module | contents |
|---|---|---|
| `seqs.dfy` | `Seqs` | `Filter` (the model of `Array.prototype.filter`), the subsequence relation and the filter algebra |
| `tasks.dfy` | `Tasks` | the `Task` record, `trim`, `isOverdue`, `isDueToday`, `getDaysUntilDue` |
| `store.dfy` | `Store` | add, toggle, delete, edit, clear-all and clear-completed, with the invariant `Valid` they keep |
| `sorting.dfy` | `Sorting` | the four comparators and a stable insertion sort |
| `view.dfy` | `View` | `getFilteredTasks` |
| `stats.dfy` | `Stats` | the counters and the progress percentage |
| `duedates.dfy` | `DueDates` | `formatDueDate` buckets and `getDueBadgeClass` |
| `html.dfy` | `Html` | `escapeHtml` and its inverse |
| `scenarios.dfy` | `Scenarios` | properties linking the operations, the counters and the view |

Modelling conventions:

- **Time.** Timestamps are integers of milliseconds. `MsPerDay` is `1000 * 60 * 60 * 24`.
- **Missing values.** An empty due-date field or a null `completedAt` is `None`.
- **Priority.** It is the enumeration `Low | Medium | High | Urgent`, ranked 1 to 4.
- **Confirmation dialogs.** A `confirmed: bool` parameter stands for the answer. When it is false the operation returns the collection unchanged.
- **Duplicate ids.** The model does not assume ids are unique. Toggle and edit act on the first task with the id, as `Array.prototype.find` does. Delete removes every task with the id, as `filter` does. Uniqueness is part of the invariant `Valid`, which every operation is proved to keep when the new id is fresh.

## Model

| member | source | states |
|---|---|---|
| Tasks.Trim | task-manager.js:48-49 | the result is empty exactly when the text is all whitespace; otherwise it is the text minus a blank prefix and a blank suffix, and it neither starts nor ends with whitespace |
| Tasks.TrimIdempotent | task-manager.js:116 | trimming a trimmed text changes nothing |
| Tasks.IsOverdue | task-manager.js:29-32 | a task is overdue exactly when it has a due date, is pending, and its due instant is strictly before now |
| Tasks.OverdueHasNoDaysLeft | task-manager.js:29-45 | an overdue task has a rounded-up day count of at most 0 |
| Tasks.IsDueToday | task-manager.js:33-38 | a task is due today exactly when it has a due date, is pending, and the due instant falls on the same calendar day as now |
| Tasks.DueTodayWithinDay | task-manager.js:33-38 | a task due today lies less than one day before or after now |
| Tasks.CeilDiv | task-manager.js:44 | `Math.ceil(a / b)`: the least `q` with `a <= q * b` |
| Tasks.DaysUntilDue | task-manager.js:39-45 | absent exactly when there is no due date; otherwise the number of days rounded up, bracketing the remaining time between `(d - 1)` and `d` days |
| Store.FirstIndex | task-manager.js:74 | the position `find` stops at: no earlier task has the id, the task there has it, and it is past the end exactly when no task has the id |
| Store.NewTask | task-manager.js:18-28 | the constructed task carries the given id, title, description, priority, category and due date, is pending, has no completion time, and is created at `now` |
| Store.Add | task-manager.js:47-60 | a title that trims to nothing leaves the collection unchanged; otherwise the old tasks are kept as a prefix and one pending task is appended, with no completion time, created now, under the given id, with the trimmed title and description and the given priority, category and due date |
| Store.SnocValid | task-manager.js:60 | appending a task with a fresh id, a non-blank title and a consistent completion time keeps the collection valid |
| Store.AddValid | task-manager.js:54-60 | adding under a fresh id keeps ids distinct, titles non-blank and completion times consistent |
| Store.Flip | task-manager.js:76-77 | `completed` is negated, `completedAt` is set to `now` on completion and cleared on undo, and no other field changes |
| Store.Toggle | task-manager.js:73-77 | only the first task with the id changes; its `completed` is flipped, `completedAt` is present iff it is completed, and on completion it is stamped with `now`; an unknown id changes nothing; the invariant is kept |
| Store.ToggleTwice | task-manager.js:73-77 | toggling twice restores every `completed` flag and whether each task has a completion time, and restores a task that started pending exactly |
| Store.Delete | task-manager.js:88-90 | on confirmation no task with the id remains, the survivors keep their relative order, and every other task keeps its multiplicity; declining changes nothing |
| Store.DeleteRemovesOne | task-manager.js:90 | in a collection with distinct ids, deleting the id of a present task removes exactly one task |
| Store.OnlyOneWithId | task-manager.js:90 | with distinct ids, the tasks with a present task's id are that task alone |
| Store.DeleteValid | task-manager.js:90 | deleting keeps the invariant |
| Store.SubsequenceValid | task-manager.js:90 | every order-preserving selection from a valid collection is valid |
| Store.Edit | task-manager.js:111-127 | nothing changes when no edit is in progress (including an id of 0), when the id is gone or when the new title is blank; otherwise only the first task with the id changes, and only in title, description (both trimmed), priority, category and due date; id, completion and timestamps never change; the invariant is kept |
| Store.ClearAll | task-manager.js:463-465 | on confirmation the collection is empty; declining changes nothing |
| Store.ClearCompleted | task-manager.js:473-481 | with no completed task, or when declined, nothing changes; otherwise exactly the pending tasks remain, in their original order, and the number removed equals the completed count |
| Store.NothingCompleted | task-manager.js:474-478 | with no completed task, keeping the pending ones keeps the whole collection |
| Store.ClearCompletedValid | task-manager.js:481 | clearing completed tasks keeps the invariant |
| Sorting.LexCompare | task-manager.js:193 | the title comparison returns -1, 0 or 1, and 0 exactly for equal titles |
| Sorting.Compare | task-manager.js:182-198 | the comparator for each key: priority by rank, highest first; due date ascending with undated tasks after dated ones; title by `LexCompare`; creation time newest first |
| Sorting.LexAntisymmetric | task-manager.js:193 | swapping the titles negates the comparison |
| Sorting.LexTransitive | task-manager.js:193 | the title order is transitive |
| Sorting.InOrderTotal | task-manager.js:182-198 | every comparator orders any two tasks one way or the other |
| Sorting.InOrderTransitive | task-manager.js:182-198 | every comparator is transitive, so the sort is well defined |
| Sorting.Insert | task-manager.js:182 | inserting into a sorted sequence gives a sorted permutation of the sequence plus the element |
| Sorting.InsertionSort | task-manager.js:182-198 | the sort returns a permutation of its input that is sorted by the comparator |
| Sorting.InsertStable | task-manager.js:182 | insertion keeps the relative order of mutually tied tasks |
| Sorting.SortStable | task-manager.js:182-198 | the sort is stable: each class of tied tasks appears in its original relative order |
| View.GetFilteredTasks | task-manager.js:163-201 | the view holds each task with its multiplicity exactly when the status filter (pending, completed, overdue, or everything) and the category filter (any when `all`) both accept it. It is sorted by the chosen comparator: priority rank non-increasing; dated tasks before undated ones, in date order; creation time non-increasing; titles in order. Tied tasks keep the order of the collection |
| View.SelectionIsFilter | task-manager.js:164-180 | the status `switch` followed by the category test selects exactly the tasks accepted by both predicates, in their original order |
| View.StatusStepIsFilter | task-manager.js:166-176 | each branch of the status `switch` is a filter by the corresponding status predicate |
| View.CategoryStepIsFilter | task-manager.js:178-180 | the category step keeps every task for `all` and the exact matches otherwise |
| Stats.ComputeStats | task-manager.js:277-281 | total is the length; pending is total minus completed and equals the number of pending tasks; overdue counts the overdue tasks and never exceeds pending |
| Stats.ProgressPercentage | task-manager.js:309-311 | the percentage is between 0 and 100; it is 0 for an empty collection or when nothing is completed and 100 when everything is; it is the integer nearest to `100 * completed / total`, within half a unit |
| Stats.RoundedPercent | task-manager.js:311 | the rounded percentage of `part` out of `whole` lies within half a unit of the exact ratio |
| DueDates.LabelForDays | task-manager.js:256-266 | exactly one bucket applies: negative days give "overdue by" their absolute value, 0 today, 1 tomorrow, 2 to 7 "in N days", more than 7 the absolute date, carrying the due date itself |
| DueDates.FormatDueDate | task-manager.js:248-266 | no label exactly when there is no due date; each bucket is characterised by the remaining time measured in days: overdue at one day or more past due, today within the day just past, tomorrow within the next day, "in N days" up to a week, the date beyond. "Overdue by" shows the absolute value of the rounded-up day count, "in N days" shows the count itself, and the date label carries the task's due date |
| DueDates.DayBuckets | task-manager.js:254-263 | the rounded-up day count falls in a bucket exactly when the remaining time falls in the matching range of milliseconds |
| DueDates.JustPassedIsTodayLabelOverdueBadge | task-manager.js:254-258 | the label and the badge measure "today" differently. A pending task due one millisecond ago is labelled "Due today", because `Math.ceil` of the small negative quotient is 0. Yet it gets the overdue badge, because `isOverdue` tests first (line 272) |
| DueDates.DueBadgeClass | task-manager.js:269-275 | the badge is "overdue" exactly for overdue tasks and "today" exactly for tasks due today that are not overdue, so the two never both apply; no badge without a due date or once completed |
| Html.Entity | task-manager.js:368-374 | the replacement map: `&`, `<`, `>`, `"` and `'` become `&amp;`, `&lt;`, `&gt;`, `&quot;` and `&#039;`; every other character stays itself |
| Html.EscapeHtml | task-manager.js:367-376 | the escaped text is no shorter, contains no raw `<`, `>`, `"` or `'`, and equals the input when it has no special character |
| Html.UnescapeEscape | task-manager.js:367-376 | decoding the five entities recovers the original text, so escaping loses nothing |
| Html.EscapeConcat | task-manager.js:375 | escaping replaces each character independently: the escape of a concatenation is the concatenation of the escapes |
| Html.UnescapeEntity | task-manager.js:368-374 | each entity of the map decodes back to its character |
| Scenarios.AddCounts | task-manager.js:59-60 | adding a task raises total and pending by one and leaves completed as it was |
| Scenarios.ToggleCounts | task-manager.js:73-77 | toggling a present task moves one task between the completed and pending counts |
| Scenarios.ClearCompletedCounts | task-manager.js:481 | after clearing completed tasks nothing is completed, the total is the old pending count, and the overdue count is unchanged |
| Scenarios.OverdueViewAfterToggle | task-manager.js:29-31 | a pending task due yesterday is in the overdue view and, once toggled, no longer appears there |
| Scenarios.UndatedTaskSortsLast | task-manager.js:187-191 | sorting by due date puts the only undated task last |
| Scenarios.HigherPriorityFirst | task-manager.js:184-186 | sorting by priority shows every task of higher rank before every task of lower rank |
| Seqs.Filter | task-manager.js:168 | the filter keeps only accepted elements, keeps every accepted one, and keeps them in order |
| Seqs.FilterMultiset | task-manager.js:168 | an accepted element keeps its multiplicity and a rejected one is gone |
| Seqs.FilterSplit | task-manager.js:279-280 | the accepted and rejected parts together account for every element |
| Seqs.FilterFilter | task-manager.js:164-180 | two filters in turn are one filter by the conjunction |
| Seqs.FilterAppend | task-manager.js:60 | filtering distributes over concatenation |
| Seqs.FilterUpdateLength | task-manager.js:76 | replacing one element changes the filtered length by the change in acceptance of that element |

## Left out

- Rendering and page plumbing are left out. `renderTasks` builds HTML strings. `showNotification`, the edit modal, textarea resizing and the `setTimeout` notifications (including `checkOverdueTasks`) only touch the page.
- The event listeners are left out. They change nothing themselves; they only dispatch.
  - The Ctrl/Cmd+Enter and Enter listeners (task-manager.js:489-494, 508-512) call `addTask`, which is modelled by `Store.Add`.
  - Escape and the click outside the modal call `closeEditModal`. That clears `editingTaskId`, which is modelled as `None` in the `editing` parameter of `Store.Edit`.
- `editTask` is left out. It only copies a task's fields into the modal and records `editingTaskId`. The model takes that id as the `editing` parameter of `Store.Edit`.
- Persistence and transfer are left out: `saveTasks`, `loadTasks`, `exportTasks`, `importTasks`, `localStorage`, JSON and `FileReader`. They are browser and library calls.
- Id generation is left out. `Date.now() + Math.random()` is nondeterministic and floating point. Ids are given integers, and their freshness is a precondition of `Store.AddValid`.
- `script1.js` is left out. It only creates DOM elements, toggles classes and plays audio. It holds no task state.
- Sorting.LexCompare: this is code-point order. It stands in for `localeCompare`, which depends on the locale and is not modelled.
- Tasks.IsDueToday: the calendar day is the floor of the timestamp divided by `MsPerDay`, which is the UTC day. `toDateString` uses the local time zone, and time zones are not modelled.
- Tasks.DaysUntilDue: `Math.ceil(diff / 86400000)` is computed exactly on integers. This differs from the source only where the floating-point quotient rounds across an integer, and IEEE-754 rounding is not modelled.
- Stats.ProgressPercentage: `Math.round(completed / total * 100)` is computed exactly. Halves round up, as `Math.round` does for positive values. Floating-point error in the division is not modelled.
- DueDates.FormatDueDate: the result is the bucket, not the text. The wording, the "day"/"days" plural and the `toLocaleDateString` rendering of far dates are not modelled.
- Priorities outside the four offered by the form are left out. In the source such a value ranks as `undefined` and makes the priority comparator return `NaN`.
- Date strings are left out. `new Date(dueDate)` parsing is not modelled; a due date is already a timestamp.
- Filter and sort-key values outside the offered ones are covered only partly. An unknown status filter keeps everything, like `ShowAll`. An unknown sort key falls to the `default` branch, which is the creation order `ByCreated`.
- The sort is modelled as a stable insertion sort. `Array.prototype.sort` is stable since ES2019. The model proves the properties every stable sort by the same comparator shares: sorted, a permutation, and tied tasks kept in order.
