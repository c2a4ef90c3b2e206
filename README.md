# Kanban board: a verified model of the board, its columns and the add-task dialog

This project models the three components that hold the behaviour of a
single-page Kanban board written in React:

- **KanbanBoard** owns the task list. It filters and sorts each column's
  view by search term, priority and `order`. It runs the drag session:
  drag start, hover, drop and drag end. It adds and clears tasks and
  computes the header statistics.
- **Column** turns the pointer position into an insertion slot. It decides
  which insertion line is lit and which index a drop hands to the board.
- **AddTaskModal** edits a form, refuses blank titles and reacts to Enter
  and Escape.

## How the model is organised

- **Text** (`text.dfy`): ASCII case folding, `includes` with a positional
  characterisation, and `trim`.
- **Tasks** (`tasks.dfy`):
  - The task record.
  - `Select`, a first-order stand-in for `Array.prototype.filter`. Its
    conditions are a small `Test` datatype.
  - The stable sort by `order`, as an insertion sort. It is proved sorted,
    a permutation and stable. It is also proved to be the only sorted
    rearrangement that keeps tied tasks in list order. So it agrees with
    any stable sort, including JavaScript's.
- **KanbanBoard** (`kanban_board.dfy`):
  - The column view and the drop, as functions on the task list, with
    lemmas about them.
  - The in-place `splice` and renumbering loop of the drop, as array
    methods.
  - The component state as the class `Board`. Each handler changes only
    the fields it sets.
- **Column** (`column.dfy`): the hover loop as a method, the drop index,
  and the highlight lines.
- **AddTaskModal** (`add_task_modal.dfy`):
  - The submission gate.
  - The dialog as the class `Modal`. It keeps the form the `keydown`
    listener closed over next to the current form.
- **Scenarios** (`scenarios.dfy`): worked examples on three-task boards.

Clocks and identifiers are parameters: `now`, `id`, `createdAt` and
`updatedAt`. The geometry of the page is abstracted to the vertical
midpoints of the rendered cards and the pointer's vertical position.

Where a reading of the board's documentation and the code could differ,
the model follows the code:

- After a move to another column, only the target column is renumbered.
  The source column keeps its old `order` values, gaps included
  (`Scenarios.SourceColumnKeepsGap`).
- `handleDragStart` sets only the dragged id. The hover fields keep
  whatever the last drag left, until `handleDragEnd` clears them.
- The column view sorts by `order || 0`, and the drop sorts by
  `order ?? 0`. On integer or missing `order` values the two are the same
  key (`Tasks.OrderKey`).
- A task added while a search or priority filter hides part of its column
  gets the visible count as its `order`. That number can repeat an
  existing order (`Scenarios.FilteredAddRepeatsOrder`).
- The hover index is counted among the visible (filtered) cards. The drop
  applies it to the whole target column.

## Model

| member | source | states |
|---|---|---|
| Text.Lower | src/components/KanbanBoard.jsx:54-55 | `toLowerCase` keeps the length and folds each character on its own |
| Text.ContainsIff | src/components/KanbanBoard.jsx:54-55 | `includes` holds exactly when the term occurs at some position of the text |
| Text.TrimStart | src/components/AddTaskModal.jsx:12 | the result is a suffix that starts with a non-whitespace character, and only whitespace was dropped |
| Text.TrimEnd | src/components/AddTaskModal.jsx:12 | the result is a prefix that ends with a non-whitespace character, and only whitespace was dropped |
| Text.Trim | src/components/AddTaskModal.jsx:12 | `trim` is `trimEnd` after `trimStart`; its emptiness is characterised by `Text.TrimEmptyIff` |
| Text.TrimEmptyIff | src/components/AddTaskModal.jsx:12 | `title.trim()` is empty exactly when every character is whitespace |
| Tasks.Select | src/components/KanbanBoard.jsx:50-64 | `filter` keeps exactly the tasks that pass, and never more tasks than it was given |
| Tasks.SelectConcat | src/components/KanbanBoard.jsx:111-114 | filtering a concatenation filters each part |
| Tasks.SelectSplit | src/components/KanbanBoard.jsx:111-114 | a filter and its negation together account for every task |
| Tasks.OrderKey | src/components/KanbanBoard.jsx:65 | the sort key: the task's `order` when present and 0 otherwise, which is both `order \|\| 0` (line 65) and `order ?? 0` (line 98) on integer orders |
| Tasks.MatchesSearch | src/components/KanbanBoard.jsx:54-57 | a task passes the search when the term is empty, or its case-folded title contains the case-folded term, or it has a description that does |
| Tasks.MatchesPriority | src/components/KanbanBoard.jsx:59 | a task passes the priority filter when the filter is 'all' or equals its priority |
| Tasks.SortByOrder | src/components/KanbanBoard.jsx:65 | the sort by `order` returns a sorted permutation of its input |
| Tasks.SortStable | src/components/KanbanBoard.jsx:96-98 | tasks with equal `order` keep their list order, as in the stable `Array.prototype.sort` |
| Tasks.SortByOrderUnique | src/components/KanbanBoard.jsx:96-98 | every sorted rearrangement that keeps tied tasks in list order equals the sort, so any stable sort gives the same list |
| KanbanBoard.VisibleTasks | src/components/KanbanBoard.jsx:49-66 | `getTasksForColumn` is sorted by `order` and holds exactly the column's tasks that pass the search and priority tests, each as often as in the list |
| KanbanBoard.VisibleTasksStable | src/components/KanbanBoard.jsx:65 | visible tasks with equal `order` appear in list order |
| KanbanBoard.VisibleTasksUnfiltered | src/components/KanbanBoard.jsx:54-61 | with an empty search and 'all' priorities the view is the whole column, sorted |
| KanbanBoard.FindDragged | src/components/KanbanBoard.jsx:88 | `find` returns the first task with the dragged id, or nothing when no task has it |
| KanbanBoard.Min | src/components/KanbanBoard.jsx:100 | `Math.min` of the drop index and the queue length |
| KanbanBoard.Splice | src/components/KanbanBoard.jsx:101-105 | `splice(i, 0, x)`: the first `i` tasks, then `x`, then the rest |
| KanbanBoard.Renumber | src/components/KanbanBoard.jsx:107-109 | the `forEach` pass: each task keeps its fields and gets its index as `order` |
| KanbanBoard.DropResult | src/components/KanbanBoard.jsx:88-114 | the list `handleDrop` saves: unchanged when no task has the dragged id, else the tasks outside the target column (the dragged one removed) followed by the sorted target column with the moved task spliced in and renumbered; characterised by the `Drop*` lemmas below |
| KanbanBoard.DropStaleIsNoOp | src/components/KanbanBoard.jsx:88-92 | a drop whose dragged id matches no task leaves the list unchanged |
| KanbanBoard.DropColumns | src/components/KanbanBoard.jsx:94-114 | after a drop the target column is the renumbered spliced queue, and every other column is that column without the dragged task |
| KanbanBoard.DropRenumbersTarget | src/components/KanbanBoard.jsx:107-109 | the target column has one more task than before and its orders are exactly 0, 1, 2, … in list order |
| KanbanBoard.DropPlacesMoved | src/components/KanbanBoard.jsx:100-105 | the moved task sits at `min(targetIndex, length)` with the target column, the new `updatedAt`, that order, and its id, title, description and priority unchanged |
| KanbanBoard.DropKeepsQueueOrder | src/components/KanbanBoard.jsx:96-101 | the other tasks of the target column keep their sorted relative order around the inserted task |
| KanbanBoard.DropLeavesOtherColumns | src/components/KanbanBoard.jsx:111-114 | a column other than the target loses only the dragged task, and its tasks keep their fields and order |
| KanbanBoard.DropCount | src/components/KanbanBoard.jsx:94-114 | a drop removes every copy of the dragged id and adds the moved task once |
| KanbanBoard.DropKeepsCount | src/components/KanbanBoard.jsx:94-114 | with unique ids a drop keeps the number of tasks |
| KanbanBoard.UniqueIdOnce | src/components/KanbanBoard.jsx:94 | with unique ids, exactly one task carries a given task's id |
| KanbanBoard.DropContiguity | src/components/KanbanBoard.jsx:107-114 | after a drop the target column is numbered 0..n-1, and a contiguous column other than the source stays contiguous |
| KanbanBoard.OtherColumnKeepsTasks | src/components/KanbanBoard.jsx:94 | with unique ids, filtering out the dragged id leaves every other column exactly as it was |
| KanbanBoard.SameColumnDropKeepsBoardContiguous | src/components/KanbanBoard.jsx:94-114 | a reorder within one column keeps every column of a contiguous board contiguous |
| KanbanBoard.NewTask | src/components/KanbanBoard.jsx:127-136 | a new task lands in the requested column with `order` equal to the column's visible count |
| KanbanBoard.AppendKeepsContiguity | src/components/KanbanBoard.jsx:133-138 | appending a task whose `order` is its column's full size keeps every contiguous column contiguous |
| KanbanBoard.AddKeepsContiguity | src/components/KanbanBoard.jsx:127-139 | with no search or priority filter, appending the new task keeps every contiguous column contiguous |
| KanbanBoard.CompletionRate | src/components/KanbanBoard.jsx:166 | the rate is 0 for an empty board and otherwise `Math.round(100 * done / total)`: the integer within one half of the exact ratio, at most 100 |
| KanbanBoard.CompletionRateExtremes | src/components/KanbanBoard.jsx:166 | the rate is 100 exactly when at most total/200 tasks are not done, 0 exactly when fewer than total/200 are done, and 100 when all are done |
| KanbanBoard.SelectDisjoint | src/components/KanbanBoard.jsx:164-165 | the 'done' and 'in-progress' counts together never exceed the total |
| KanbanBoard.GetStats | src/components/KanbanBoard.jsx:162-169 | the totals are the list length and the counts of the 'done' and 'in-progress' columns, their sum is at most the total, and the rate is at most 100 and 0 on an empty board |
| KanbanBoard.SpliceInPlace | src/components/KanbanBoard.jsx:101-105 | the in-place `splice(at, 0, x)` shifts the tail right and places `x` at `at` |
| KanbanBoard.RenumberInPlace | src/components/KanbanBoard.jsx:107-109 | the `forEach` sets each task's `order` to its index and changes nothing else |
| KanbanBoard.SpliceAndRenumber | src/components/KanbanBoard.jsx:96-109 | the new column array is the queue with the placed task spliced in, then renumbered |
| KanbanBoard.Board.constructor | src/components/KanbanBoard.jsx:7-14 | the initial state: no tasks, no drag, empty search, all priorities, dialog closed |
| KanbanBoard.Board.SaveTasks | src/components/KanbanBoard.jsx:43-46 | the list is replaced by the updated one |
| KanbanBoard.Board.SetSearchTerm | src/components/KanbanBoard.jsx:208 | only the search term changes |
| KanbanBoard.Board.SetFilterPriority | src/components/KanbanBoard.jsx:217 | only the priority filter changes |
| KanbanBoard.Board.HandleDragStart | src/components/KanbanBoard.jsx:68-76 | only the dragged id is set |
| KanbanBoard.Board.HandleDragOver | src/components/KanbanBoard.jsx:78-83 | records the hovered column, and the given index or by default the column's visible count |
| KanbanBoard.Board.HandleDragEnd | src/components/KanbanBoard.jsx:120-125 | clears the dragged id and both hover fields |
| KanbanBoard.Board.HandleDrop | src/components/KanbanBoard.jsx:85-118 | the list becomes the drop result (unchanged for a stale id) and the drag session is cleared |
| KanbanBoard.Board.AddTask | src/components/KanbanBoard.jsx:127-141 | appends and returns the new task, and leaves the rest of the list as it was |
| KanbanBoard.Board.OpenModal | src/components/KanbanBoard.jsx:143-146 | remembers the column and opens the dialog |
| KanbanBoard.Board.CloseModal | src/components/KanbanBoard.jsx:148-151 | closes the dialog and forgets the column |
| KanbanBoard.Board.HandleAddTask | src/components/KanbanBoard.jsx:153-156 | adds the task to the remembered column when there is one with a non-empty id, and closes the dialog either way |
| KanbanBoard.Board.ClearAllTasks | src/components/KanbanBoard.jsx:158-160 | the list becomes empty |
| Column.ComputeHoverIndex | src/components/Column.jsx:56-68 | the loop returns the first card whose midpoint is below the pointer, or the slot after the last card |
| Column.HoverIndexUnique | src/components/Column.jsx:58-67 | at most one slot meets the hover conditions |
| Column.OnDragOver | src/components/Column.jsx:52-71 | the board records this column and the hover slot |
| Column.DropIndex | src/components/Column.jsx:75 | `dragOverIndex ?? tasks.length` |
| Column.OnDrop | src/components/Column.jsx:72-76 | the board drops at the recorded slot, or at the end of the visible list, and ends the drag |
| Column.HighlightLine | src/components/Column.jsx:19-22 | the line at `index` is lit exactly when this column is the hovered column and `index` is the hovered index |
| Column.LitSlotsExact | src/components/Column.jsx:78-93 | of the n + 1 insertion lines, exactly the hovered slot is lit when the column is hovered within range, and none otherwise |
| AddTaskModal.InitialForm | src/components/AddTaskModal.jsx:5-9 | the dialog opens with an empty title and description and priority medium |
| AddTaskModal.TitleValid | src/components/AddTaskModal.jsx:12 | the gate `formData.title.trim()` is truthy, i.e. the trimmed title is non-empty (also at lines 17 and 65) |
| AddTaskModal.SubmitDisabled | src/components/AddTaskModal.jsx:110 | the Add Task button is disabled exactly when the title fails the gate |
| AddTaskModal.ShowsTitleRequired | src/components/AddTaskModal.jsx:67-69 | the "Title is required" message is shown exactly when the title fails the gate |
| AddTaskModal.TitleValidIff | src/components/AddTaskModal.jsx:12 | a title passes the gate exactly when it has a non-whitespace character |
| AddTaskModal.Submission | src/components/AddTaskModal.jsx:11-14 | `handleSubmit` forwards the form untrimmed exactly when the title has a non-whitespace character |
| AddTaskModal.GateAgreesWithSubmission | src/components/AddTaskModal.jsx:110 | the submit button is disabled, and the "Title is required" message is shown, exactly when a submission would be refused |
| AddTaskModal.InitialFormRefused | src/components/AddTaskModal.jsx:5-12 | the dialog as first shown refuses to submit |
| AddTaskModal.KeyPressEffect | src/components/AddTaskModal.jsx:16-22 | Enter submits the given form exactly when its title is valid, Escape closes, and any other key does nothing |
| AddTaskModal.Modal.constructor | src/components/AddTaskModal.jsx:5-9 | the form and the listener's form both start as the initial form |
| AddTaskModal.Modal.ChangeTitle | src/components/AddTaskModal.jsx:61 | the title changes and the listener is registered again with the new form |
| AddTaskModal.Modal.ChangeDescription | src/components/AddTaskModal.jsx:78 | only the description changes, and the listener keeps its form |
| AddTaskModal.Modal.ChangePriority | src/components/AddTaskModal.jsx:91 | only the priority changes, and the listener keeps its form |
| AddTaskModal.Modal.HandleSubmit | src/components/AddTaskModal.jsx:11-14 | forwards the current form exactly when its title is valid |
| AddTaskModal.Modal.TitleKeyPress | src/components/AddTaskModal.jsx:65 | Enter in the title field submits the current form exactly when its title is valid |
| AddTaskModal.Modal.HandleKeyDown | src/components/AddTaskModal.jsx:24-28 | the document listener decides on the current title but submits the form of the last title edit |
| AddTaskModal.FixIsValid | src/components/AddTaskModal.jsx:12 | the title "Fix" passes the gate |
| AddTaskModal.StaleListenerScenario | src/components/AddTaskModal.jsx:24-28 | after typing a title and then choosing High, Enter submits priority medium |
| Scenarios.DropOfHead | src/components/KanbanBoard.jsx:94-114 | dragging into a sorted column that holds all other tasks splices into it and renumbers |
| Scenarios.ReorderWithinColumn | src/components/KanbanBoard.jsx:94-114 | dropping the first of three tasks at index 2 of its column yields the other two, then the moved task, numbered 0, 1, 2 |
| Scenarios.MoveAcrossColumns | src/components/KanbanBoard.jsx:94-114 | moving a task into a two-task column at index 1 puts it in the middle with orders 0, 1, 2 |
| Scenarios.MoveEmptiesSource | src/components/KanbanBoard.jsx:111-114 | the source column, where the task was alone, is then empty |
| Scenarios.SourceColumnKeepsGap | src/components/KanbanBoard.jsx:111-114 | moving the task numbered 0 away leaves its old column with the single order 1, no longer contiguous |
| Scenarios.FilteredAddRepeatsOrder | src/components/KanbanBoard.jsx:127-133 | when the search hides the column's only task, the new task repeats that task's order 0 |
| Scenarios.SearchKeepsMatches | src/components/KanbanBoard.jsx:49-65 | the search "bug" shows "Fix bug" and hides "Write docs" |

## Left out

- Persistence is not modelled: reading the list from `localStorage` and `JSON.parse`, and writing it with `JSON.stringify`. `SaveTasks` only replaces the list. A malformed stored blob makes `JSON.parse` throw in the code; nothing models that.
- `generateTaskId`, `Date.now`, `Math.random` and `new Date().toISOString()` become the parameters `id`, `createdAt`, `updatedAt` and `now`.
- The DOM is abstracted:
  - `getBoundingClientRect` and `clientY` become a sequence of integer card midpoints and a pointer position. The halving of the height is folded into the midpoints, so no fractions arise.
  - `dataTransfer`, `preventDefault`, `stopPropagation` and the opacity changes in `setTimeout` have no effect on state and are left out.
- Rendering, styling, icons and the column headers are left out. So are the empty-column placeholder and the effect that toggles `document.body.style.overflow`.
- The dialog's close paths (backdrop click, the X button, Cancel) all call `closeModal`, modelled as `KanbanBoard.Board.CloseModal`. Escape is modelled as the `Close` effect.
- The order of the browser's `keydown` and `keypress` events is not modelled. Neither is React's batching between them, which decides whether one Enter press can reach both the listener and the input's `onKeyPress`.
- TaskCard.jsx, the card component, is not part of this model. It only forwards its drag events to the handlers modelled here.
- Case folding and `trim` are ASCII-only. Unicode case mapping and Unicode whitespace are not modelled.
- `KanbanBoard.CompletionRate` computes `Math.round(done / total * 100)` exactly in integers, as `(200 * done + total) / (2 * total)`. Floating-point error can push a result that lies exactly halfway to the other neighbour. Its requirement `completed <= total` always holds for the counts `getStats` passes it.
- `Tasks.SortByOrder` is an insertion sort, not the engine's sort. `Tasks.SortByOrderUnique` shows that every stable sort by the same key gives the same list.
- Tasks are values, not shared objects. The drop's `task.order = index` also changes the objects that the previous `tasks` state still holds. The new list is the same either way, but that in-place change to the old state is not captured.
- `priority` is one of three values, and the filter is 'all' or one of them. Other strings cannot come from the selects.
- `KanbanBoard.AddKeepsContiguity`: proved only with an empty search and 'all' priorities. With a filter active the new `order` can repeat an existing one (`Scenarios.FilteredAddRepeatsOrder`).
- `KanbanBoard.DropContiguity`: does not claim the source column stays contiguous after a move to another column, because the code does not renumber it (`Scenarios.SourceColumnKeepsGap`).

## Findings

| source | as written | input that shows it | evidently intended | confidence | as-written member | corrected member |
|---|---|---|---|---|---|---|
| src/components/AddTaskModal.jsx:24-28 | The document `keydown` listener is registered again only when the title changes. It therefore calls the `handleKeyPress` of the render of the last title edit, and submits the description and priority the form had then. | Type the title "Fix", then choose priority High, then press Enter. The task is submitted with priority medium. | Enter submits the form as it currently is, as the Add Task button and the title field's Enter do. | high; not executed | AddTaskModal.StaleListenerScenario | AddTaskModal.KeyPressEffect |
