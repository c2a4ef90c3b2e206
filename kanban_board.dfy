/** The board: the list of tasks, the derived per-column view, the drag
    session fields and the drop that reorders a column. */
module KanbanBoard {
  import opened Tasks
  import opened AddTaskModal

  const DoneColumn: string := "done"
  const InProgressColumn: string := "in-progress"

  // ---------------------------------------------------------------------
  // The column view

  /** `getTasksForColumn`: the tasks of one column that pass the search and
      the priority filter, in ascending `order`. */
  function VisibleTasks(tasks: seq<Task>, columnId: string, searchTerm: string, filter: PriorityFilter): (r: seq<Task>)
    ensures Sorted(r)
    ensures multiset(r) == multiset(Select(tasks, Visible(columnId, searchTerm, filter)))
    ensures forall t :: t in r <==>
      t in tasks && t.columnId == columnId && MatchesSearch(t, searchTerm) && MatchesPriority(t, filter)
  {
    var passing := Select(tasks, Visible(columnId, searchTerm, filter));
    SortedMembers(passing);
    SortByOrder(passing)
  }

  /** Visible tasks with the same `order` keep the order they have in the list. */
  lemma VisibleTasksStable(tasks: seq<Task>, columnId: string, searchTerm: string, filter: PriorityFilter, k: int)
    ensures Select(VisibleTasks(tasks, columnId, searchTerm, filter), KeyIs(k))
         == Select(Select(tasks, Visible(columnId, searchTerm, filter)), KeyIs(k))
  {
    SortStable(Select(tasks, Visible(columnId, searchTerm, filter)), k);
  }

  /** With no search term and every priority, the view is the whole column,
      sorted by `order`. */
  lemma VisibleTasksUnfiltered(tasks: seq<Task>, columnId: string)
    ensures VisibleTasks(tasks, columnId, "", AllPriorities) == SortByOrder(Select(tasks, ColumnIs(columnId)))
    ensures multiset(VisibleTasks(tasks, columnId, "", AllPriorities)) == multiset(Select(tasks, ColumnIs(columnId)))
    ensures |VisibleTasks(tasks, columnId, "", AllPriorities)| == |Select(tasks, ColumnIs(columnId))|
  {
    SelectSame(tasks, Visible(columnId, "", AllPriorities), ColumnIs(columnId));
  }

  // ---------------------------------------------------------------------
  // The drop

  /** `tasks.find(t => t.id === draggedTask)`, as the index of the first match. */
  function FindDragged(tasks: seq<Task>, dragged: Option<string>): (r: Option<nat>)
    ensures r.Some? ==> r.value < |tasks| && dragged == Some(tasks[r.value].id)
    ensures r.Some? ==> forall j :: 0 <= j < r.value ==> dragged != Some(tasks[j].id)
    ensures r.None? ==> forall j :: 0 <= j < |tasks| ==> dragged != Some(tasks[j].id)
  {
    if dragged.None? || tasks == [] then None
    else if tasks[0].id == dragged.value then Some(0)
    else
      match FindDragged(tasks[1..], dragged)
      case None => None
      case Some(i) => Some(i + 1)
  }

  /** `Math.min` on the non-negative drop index. */
  function Min(a: nat, b: nat): nat {
    if a < b then a else b
  }

  /** `splice(i, 0, x)` on a list. */
  function Splice(s: seq<Task>, i: nat, x: Task): seq<Task>
    requires i <= |s|
  {
    s[..i] + [x] + s[i..]
  }

  /** The `forEach((task, index) => task.order = index)` pass. */
  function Renumber(s: seq<Task>): seq<Task> {
    seq(|s|, i requires 0 <= i < |s| => s[i].(order := Some(i)))
  }

  /** The list once the dragged task is taken out. */
  function Remaining(tasks: seq<Task>, id: string): seq<Task> {
    Select(tasks, Not(IdIs(id)))
  }

  /** `tasksInTargetColumn` before the splice: the target column without the
      dragged task, sorted by `order`. */
  function TargetQueue(tasks: seq<Task>, id: string, target: string): seq<Task> {
    SortByOrder(Select(Remaining(tasks, id), ColumnIs(target)))
  }

  /** The dragged task as it is spliced in. */
  function Placed(t: Task, target: string, now: string): Task {
    t.(columnId := target, updatedAt := now)
  }

  /** The target column after the drop of `tasks[i]`. */
  function DroppedColumn(tasks: seq<Task>, i: nat, target: string, targetIndex: nat, now: string): seq<Task>
    requires i < |tasks|
  {
    var queue := TargetQueue(tasks, tasks[i].id, target);
    Renumber(Splice(queue, Min(targetIndex, |queue|), Placed(tasks[i], target, now)))
  }

  /** What `handleDrop` hands to `saveTasksToStorage`: the tasks outside the
      target column, then the renumbered target column. */
  function DropResult(tasks: seq<Task>, dragged: Option<string>, target: string, targetIndex: nat, now: string): seq<Task> {
    match FindDragged(tasks, dragged)
    case None => tasks
    case Some(i) =>
      Select(Remaining(tasks, tasks[i].id), Not(ColumnIs(target))) + DroppedColumn(tasks, i, target, targetIndex, now)
  }

  /** A drop whose dragged id matches no task changes nothing. */
  lemma DropStaleIsNoOp(tasks: seq<Task>, dragged: Option<string>, target: string, targetIndex: nat, now: string)
    requires forall j :: 0 <= j < |tasks| ==> dragged != Some(tasks[j].id)
    ensures DropResult(tasks, dragged, target, targetIndex, now) == tasks
  {
  }

  /** Splicing `x` in at `at` and renumbering: where each task ends up. */
  lemma SpliceRenumbered(queue: seq<Task>, at: nat, x: Task)
    requires at <= |queue|
    ensures var col := Renumber(Splice(queue, at, x));
      && |col| == |queue| + 1
      && col[at] == x.(order := Some(at))
      && (forall j :: 0 <= j < |col| ==> col[j].order == Some(j))
      && (forall j :: 0 <= j < |queue| ==>
            var p := if j < at then j else j + 1;
            col[p] == queue[j].(order := Some(p)))
  {
    var s := Splice(queue, at, x);
    assert forall j :: 0 <= j < at ==> s[j] == queue[j];
    assert forall j :: at <= j < |queue| ==> s[j + 1] == queue[j];
  }

  /** Every task of the dropped column belongs to the target column. */
  lemma DroppedColumnInTarget(tasks: seq<Task>, i: nat, target: string, targetIndex: nat, now: string)
    requires i < |tasks|
    ensures forall j :: 0 <= j < |DroppedColumn(tasks, i, target, targetIndex, now)| ==>
      DroppedColumn(tasks, i, target, targetIndex, now)[j].columnId == target
  {
    var sel := Select(Remaining(tasks, tasks[i].id), ColumnIs(target));
    SortedMembers(sel);
    var queue := TargetQueue(tasks, tasks[i].id, target);
    var x := Placed(tasks[i], target, now);
    var at := Min(targetIndex, |queue|);
    assert forall t :: t in queue ==> t.columnId == target;
    var spliced := Splice(queue, at, x);
    assert forall t :: t in spliced ==> t in queue || t == x;
    assert forall j :: 0 <= j < |spliced| ==> spliced[j].columnId == target;
  }

  /** Selecting a column from "the rest outside the target, then the target
      column" gives the target column or that column of the rest. */
  lemma SelectAfterDrop(rest: seq<Task>, column: seq<Task>, target: string, c: string)
    requires forall j :: 0 <= j < |column| ==> column[j].columnId == target
    ensures Select(Select(rest, Not(ColumnIs(target))) + column, ColumnIs(c))
         == if c == target then column else Select(rest, ColumnIs(c))
  {
    var others := Select(rest, Not(ColumnIs(target)));
    SelectConcat(others, column, ColumnIs(c));
    if c == target {
      assert forall j :: 0 <= j < |others| ==> others[j] in others;
      SelectNone(others, ColumnIs(c));
      SelectAll(column, ColumnIs(c));
    } else {
      SelectImplied(rest, Not(ColumnIs(target)), ColumnIs(c));
      SelectNone(column, ColumnIs(c));
    }
  }

  /** The drop splits the list into the renumbered target column and the
      untouched rest: selecting any column of the result shows which. */
  lemma DropColumns(tasks: seq<Task>, dragged: Option<string>, target: string, targetIndex: nat, now: string, c: string)
    requires FindDragged(tasks, dragged).Some?
    ensures var i := FindDragged(tasks, dragged).value;
      Select(DropResult(tasks, dragged, target, targetIndex, now), ColumnIs(c))
      == if c == target then DroppedColumn(tasks, i, target, targetIndex, now)
         else Select(Remaining(tasks, tasks[i].id), ColumnIs(c))
  {
    var i := FindDragged(tasks, dragged).value;
    DroppedColumnInTarget(tasks, i, target, targetIndex, now);
    SelectAfterDrop(Remaining(tasks, tasks[i].id), DroppedColumn(tasks, i, target, targetIndex, now), target, c);
  }

  /** After a drop the target column carries `order` 0, 1, ..., k-1 in list
      order, where k counts the moved task with the column's other tasks. */
  lemma DropRenumbersTarget(tasks: seq<Task>, dragged: Option<string>, target: string, targetIndex: nat, now: string)
    requires FindDragged(tasks, dragged).Some?
    ensures var i := FindDragged(tasks, dragged).value;
      var col := Select(DropResult(tasks, dragged, target, targetIndex, now), ColumnIs(target));
      && |col| == |Select(Remaining(tasks, tasks[i].id), ColumnIs(target))| + 1
      && forall j :: 0 <= j < |col| ==> col[j].order == Some(j)
  {
    DropColumns(tasks, dragged, target, targetIndex, now, target);
    var i := FindDragged(tasks, dragged).value;
    var queue := TargetQueue(tasks, tasks[i].id, target);
    SpliceRenumbered(queue, Min(targetIndex, |queue|), Placed(tasks[i], target, now));
  }

  /** The moved task lands at `min(targetIndex, k)` of the target column, where
      k counts the column's other tasks; it keeps its id, title, description,
      priority and creation time, and takes the target column and `now`. */
  lemma DropPlacesMoved(tasks: seq<Task>, dragged: Option<string>, target: string, targetIndex: nat, now: string)
    requires FindDragged(tasks, dragged).Some?
    ensures var i := FindDragged(tasks, dragged).value;
      var col := Select(DropResult(tasks, dragged, target, targetIndex, now), ColumnIs(target));
      var k := |Select(Remaining(tasks, tasks[i].id), ColumnIs(target))|;
      var at := if targetIndex < k then targetIndex else k;
      && at < |col|
      && col[at] == tasks[i].(columnId := target, order := Some(at), updatedAt := now)
      && col[at].id == tasks[i].id && col[at].title == tasks[i].title
      && col[at].description == tasks[i].description && col[at].priority == tasks[i].priority
  {
    DropColumns(tasks, dragged, target, targetIndex, now, target);
    var i := FindDragged(tasks, dragged).value;
    var queue := TargetQueue(tasks, tasks[i].id, target);
    SpliceRenumbered(queue, Min(targetIndex, |queue|), Placed(tasks[i], target, now));
  }

  /** The other tasks of the target column keep the sequence of the stable
      sort by their previous `order`; only their `order` changes. */
  lemma DropKeepsQueueOrder(tasks: seq<Task>, dragged: Option<string>, target: string, targetIndex: nat, now: string)
    requires FindDragged(tasks, dragged).Some?
    ensures var i := FindDragged(tasks, dragged).value;
      var col := Select(DropResult(tasks, dragged, target, targetIndex, now), ColumnIs(target));
      var queue := TargetQueue(tasks, tasks[i].id, target);
      var at := if targetIndex < |queue| then targetIndex else |queue|;
      && Sorted(queue)
      && multiset(queue) == multiset(Select(Remaining(tasks, tasks[i].id), ColumnIs(target)))
      && forall j :: 0 <= j < |queue| ==>
           var p := if j < at then j else j + 1;
           p < |col| && col[p] == queue[j].(order := Some(p))
  {
    DropColumns(tasks, dragged, target, targetIndex, now, target);
    var i := FindDragged(tasks, dragged).value;
    var queue := TargetQueue(tasks, tasks[i].id, target);
    SpliceRenumbered(queue, Min(targetIndex, |queue|), Placed(tasks[i], target, now));
  }

  /** Columns other than the target keep exactly their tasks, minus the
      dragged one, in the same sequence and with the same `order` values:
      in particular the column the task left is not renumbered. */
  lemma DropLeavesOtherColumns(tasks: seq<Task>, dragged: Option<string>, target: string, targetIndex: nat, now: string, c: string)
    requires FindDragged(tasks, dragged).Some?
    requires c != target
    ensures var i := FindDragged(tasks, dragged).value;
      Select(DropResult(tasks, dragged, target, targetIndex, now), ColumnIs(c))
      == Select(Select(tasks, Not(IdIs(tasks[i].id))), ColumnIs(c))
  {
    DropColumns(tasks, dragged, target, targetIndex, now, c);
  }

  /** The drop removes every task with the dragged id and adds one back. */
  lemma DropCount(tasks: seq<Task>, dragged: Option<string>, target: string, targetIndex: nat, now: string)
    requires FindDragged(tasks, dragged).Some?
    ensures var i := FindDragged(tasks, dragged).value;
      |DropResult(tasks, dragged, target, targetIndex, now)| == |tasks| - |Select(tasks, IdIs(tasks[i].id))| + 1
  {
    var i := FindDragged(tasks, dragged).value;
    var rest := Remaining(tasks, tasks[i].id);
    SelectSplit(tasks, IdIs(tasks[i].id));
    SelectSplit(rest, ColumnIs(target));
  }

  /** No two tasks share an id. */
  predicate UniqueIds(tasks: seq<Task>) {
    forall i, j :: 0 <= i < j < |tasks| ==> tasks[i].id != tasks[j].id
  }

  /** With unique ids, an id present in the list occurs once. */
  lemma {:induction false} UniqueIdOnce(tasks: seq<Task>, i: nat)
    requires UniqueIds(tasks) && i < |tasks|
    ensures Select(tasks, IdIs(tasks[i].id)) == [tasks[i]]
  {
    if i == 0 {
      SelectNone(tasks[1..], IdIs(tasks[0].id));
    } else {
      UniqueIdOnce(tasks[1..], i - 1);
    }
  }

  /** With unique ids the drop keeps the number of tasks. */
  lemma DropKeepsCount(tasks: seq<Task>, dragged: Option<string>, target: string, targetIndex: nat, now: string)
    requires UniqueIds(tasks)
    ensures |DropResult(tasks, dragged, target, targetIndex, now)| == |tasks|
  {
    if FindDragged(tasks, dragged).Some? {
      DropCount(tasks, dragged, target, targetIndex, now);
      UniqueIdOnce(tasks, FindDragged(tasks, dragged).value);
    }
  }

  // ---------------------------------------------------------------------
  // Contiguous order values per column

  function Orders(s: seq<Task>): seq<Option<int>> {
    seq(|s|, i requires 0 <= i < |s| => s[i].order)
  }

  function Numbering(n: nat): seq<Option<int>> {
    seq(n, i requires 0 <= i < n => Some(i))
  }

  /** The `order` values of column `c` are 0, ..., n-1, each once. */
  predicate ColumnContiguous(tasks: seq<Task>, c: string) {
    var col := Select(tasks, ColumnIs(c));
    multiset(Orders(col)) == multiset(Numbering(|col|))
  }

  /** A drop leaves every column contiguous that was contiguous before,
      except possibly the column the task left; the target column is
      contiguous whatever it was before. */
  lemma DropContiguity(tasks: seq<Task>, dragged: Option<string>, target: string, targetIndex: nat, now: string, c: string)
    requires UniqueIds(tasks)
    requires FindDragged(tasks, dragged).Some?
    requires c == target || (ColumnContiguous(tasks, c) && c != tasks[FindDragged(tasks, dragged).value].columnId)
    ensures ColumnContiguous(DropResult(tasks, dragged, target, targetIndex, now), c)
  {
    var i := FindDragged(tasks, dragged).value;
    if c == target {
      DropRenumbersTarget(tasks, dragged, target, targetIndex, now);
      var col := Select(DropResult(tasks, dragged, target, targetIndex, now), ColumnIs(c));
      assert Orders(col) == Numbering(|col|);
    } else {
      DropLeavesOtherColumns(tasks, dragged, target, targetIndex, now, c);
      OtherColumnKeepsTasks(tasks, i, c);
    }
  }

  /** With unique ids, taking out task `i` leaves every other column as it was. */
  lemma OtherColumnKeepsTasks(tasks: seq<Task>, i: nat, c: string)
    requires UniqueIds(tasks) && i < |tasks|
    requires c != tasks[i].columnId
    ensures Select(Select(tasks, Not(IdIs(tasks[i].id))), ColumnIs(c)) == Select(tasks, ColumnIs(c))
  {
    forall j | 0 <= j < |tasks| && Satisfies(tasks[j], ColumnIs(c))
      ensures Satisfies(tasks[j], Not(IdIs(tasks[i].id)))
    {
      if j < i {
        assert tasks[j].id != tasks[i].id;
      } else if j > i {
        assert tasks[i].id != tasks[j].id;
      }
    }
    SelectImplied(tasks, Not(IdIs(tasks[i].id)), ColumnIs(c));
  }

  /** A reorder within one column keeps every column contiguous. */
  lemma SameColumnDropKeepsBoardContiguous(tasks: seq<Task>, dragged: Option<string>, target: string, targetIndex: nat, now: string)
    requires UniqueIds(tasks)
    requires FindDragged(tasks, dragged).Some?
    requires tasks[FindDragged(tasks, dragged).value].columnId == target
    requires forall c :: ColumnContiguous(tasks, c)
    ensures forall c :: ColumnContiguous(DropResult(tasks, dragged, target, targetIndex, now), c)
  {
    forall c ensures ColumnContiguous(DropResult(tasks, dragged, target, targetIndex, now), c) {
      DropContiguity(tasks, dragged, target, targetIndex, now, c);
    }
  }

  // ---------------------------------------------------------------------
  // Adding a task

  /** The record `addTask` builds: the form's fields, the column, and as
      `order` the number of tasks the column currently shows. */
  function NewTask(tasks: seq<Task>, columnId: string, taskData: FormData, searchTerm: string,
                   filter: PriorityFilter, id: string, createdAt: string, updatedAt: string): (t: Task)
    ensures t.columnId == columnId && t.order == Some(|VisibleTasks(tasks, columnId, searchTerm, filter)|)
  {
    Task(id, taskData.title, Some(taskData.description), taskData.priority, columnId,
         Some(|VisibleTasks(tasks, columnId, searchTerm, filter)|), createdAt, updatedAt)
  }

  lemma OrdersAppend(s: seq<Task>, t: Task)
    ensures Orders(s + [t]) == Orders(s) + [t.order]
  {
  }

  lemma NumberingAppend(n: nat)
    ensures Numbering(n + 1) == Numbering(n) + [Some(n)]
  {
  }

  /** Appending a task whose `order` is its column's size keeps every
      contiguous column contiguous. */
  lemma AppendKeepsContiguity(tasks: seq<Task>, t: Task, c: string)
    requires ColumnContiguous(tasks, c)
    requires t.order == Some(|Select(tasks, ColumnIs(t.columnId))|)
    ensures ColumnContiguous(tasks + [t], c)
  {
    var col := Select(tasks, ColumnIs(c));
    SelectConcat(tasks, [t], ColumnIs(c));
    assert [t][1..] == [];
    if t.columnId == c {
      assert Select(tasks + [t], ColumnIs(c)) == col + [t];
      OrdersAppend(col, t);
      NumberingAppend(|col|);
      assert multiset(Orders(col + [t])) == multiset(Orders(col)) + multiset{Some(|col|)};
    } else {
      assert Select(tasks + [t], ColumnIs(c)) == col;
    }
  }

  /** With no search and no priority filter, adding a task keeps every column
      contiguous. */
  lemma AddKeepsContiguity(tasks: seq<Task>, columnId: string, taskData: FormData, id: string,
                           createdAt: string, updatedAt: string, c: string)
    requires ColumnContiguous(tasks, c)
    ensures ColumnContiguous(tasks + [NewTask(tasks, columnId, taskData, "", AllPriorities, id, createdAt, updatedAt)], c)
  {
    VisibleTasksUnfiltered(tasks, columnId);
    AppendKeepsContiguity(tasks, NewTask(tasks, columnId, taskData, "", AllPriorities, id, createdAt, updatedAt), c);
  }

  // ---------------------------------------------------------------------
  // Statistics

  datatype Stats = Stats(totalTasks: nat, completedTasks: nat, inProgressTasks: nat, completionRate: nat)

  /** `Math.round((completed / total) * 100)`, or 0 for an empty board: the
      nearest whole percentage, halves rounded up. */
  function CompletionRate(completed: nat, total: nat): (r: nat)
    requires completed <= total
    ensures total == 0 ==> r == 0
    ensures total > 0 ==> r <= 100
    ensures total > 0 ==> 2 * total * r <= 200 * completed + total < 2 * total * (r + 1)
  {
    if total > 0 then
      var r := (200 * completed + total) / (2 * total);
      assert 200 * completed + total < 2 * total * 101;
      r
    else 0
  }

  /** The percentage reads 100 exactly when at most half a percent of the
      tasks is not done (so 100 also for 199 done of 200), and 0 exactly when
      less than half a percent is done. */
  lemma CompletionRateExtremes(completed: nat, total: nat)
    requires completed <= total && total > 0
    ensures CompletionRate(completed, total) == 100 <==> 200 * (total - completed) <= total
    ensures CompletionRate(completed, total) == 0 <==> 200 * completed < total
    ensures completed == total ==> CompletionRate(completed, total) == 100
  {
    var r := CompletionRate(completed, total);
    if r < 100 {
      MulMonotone(2 * total, r + 1, 100);
    }
    if r > 0 {
      MulMonotone(2 * total, 1, r);
    }
  }

  lemma MulMonotone(a: nat, b: nat, c: nat)
    requires b <= c
    ensures a * b <= a * c
  {
  }

  /** Two tests no task passes together pick at most the whole list between them. */
  lemma {:induction false} SelectDisjoint(s: seq<Task>, a: string, b: string)
    requires a != b
    ensures |Select(s, ColumnIs(a))| + |Select(s, ColumnIs(b))| <= |s|
  {
    if s != [] {
      SelectDisjoint(s[1..], a, b);
    }
  }

  /** `getStats`. */
  function GetStats(tasks: seq<Task>): (s: Stats)
    ensures s.totalTasks == |tasks|
    ensures s.completedTasks + s.inProgressTasks <= s.totalTasks
    ensures s.completionRate <= 100
    ensures s.totalTasks == 0 ==> s.completionRate == 0
    ensures s.completedTasks == |Select(tasks, ColumnIs(DoneColumn))|
    ensures s.inProgressTasks == |Select(tasks, ColumnIs(InProgressColumn))|
    ensures s.completionRate == CompletionRate(s.completedTasks, s.totalTasks)
  {
    var completed := |Select(tasks, ColumnIs(DoneColumn))|;
    var inProgress := |Select(tasks, ColumnIs(InProgressColumn))|;
    SelectDisjoint(tasks, DoneColumn, InProgressColumn);
    Stats(|tasks|, completed, inProgress, CompletionRate(completed, |tasks|))
  }

  // ---------------------------------------------------------------------
  // The array steps of the drop

  /** `tasksInTargetColumn.splice(at, 0, x)` on an array whose last slot is
      spare: the tail moves one slot right and `x` fills the gap. */
  method SpliceInPlace(a: array<Task>, at: nat, x: Task)
    requires at < a.Length
    modifies a
    ensures a[..] == Splice(old(a[..a.Length - 1]), at, x)
  {
    ghost var before := a[..a.Length - 1];
    var j := a.Length - 1;
    while j > at
      invariant at <= j <= a.Length - 1
      invariant forall m :: 0 <= m < j ==> a[m] == before[m]
      invariant forall m :: j < m < a.Length ==> a[m] == before[m - 1]
    {
      a[j] := a[j - 1];
      j := j - 1;
    }
    a[at] := x;
    assert a[..] == Splice(before, at, x);
  }

  /** `tasksInTargetColumn` as an array with room for the dragged task, which
      is spliced in at `at` before the whole column is renumbered. */
  method SpliceAndRenumber(inTarget: seq<Task>, at: nat, placed: Task) returns (column: array<Task>)
    requires at <= |inTarget|
    ensures fresh(column)
    ensures column[..] == Renumber(Splice(inTarget, at, placed))
  {
    var k := |inTarget|;
    column := new Task[k + 1](m requires 0 <= m <= k => if m < k then inTarget[m] else placed);
    assert column[..k] == inTarget;
    SpliceInPlace(column, at, placed);
    RenumberInPlace(column);
  }

  /** `forEach((task, index) => { task.order = index; })` on an array. */
  method RenumberInPlace(a: array<Task>)
    modifies a
    ensures a[..] == Renumber(old(a[..]))
  {
    for m := 0 to a.Length
      invariant forall p :: 0 <= p < m ==> a[p] == old(a[p]).(order := Some(p))
      invariant forall p :: m <= p < a.Length ==> a[p] == old(a[p])
    {
      a[m] := a[m].(order := Some(m));
    }
  }

  // ---------------------------------------------------------------------
  // The component state

  class Board {
    var tasks: seq<Task>
    var draggedTask: Option<string>
    var dragOverColumn: Option<string>
    var dragOverIndex: Option<nat>
    var searchTerm: string
    var filterPriority: PriorityFilter
    var isModalOpen: bool
    var activeColumnId: Option<string>

    constructor ()
      ensures tasks == [] && draggedTask == None && dragOverColumn == None && dragOverIndex == None
      ensures searchTerm == [] && filterPriority == AllPriorities
      ensures !isModalOpen && activeColumnId == None
    {
      tasks := [];
      draggedTask := None;
      dragOverColumn := None;
      dragOverIndex := None;
      searchTerm := [];
      filterPriority := AllPriorities;
      isModalOpen := false;
      activeColumnId := None;
    }

    /** `saveTasksToStorage`: replace the task list (the storage write is not modelled). */
    method SaveTasks(updated: seq<Task>)
      modifies this`tasks
      ensures tasks == updated
    {
      tasks := updated;
    }

    /** The search box's `onChange`. */
    method SetSearchTerm(term: string)
      modifies this`searchTerm
      ensures searchTerm == term
    {
      searchTerm := term;
    }

    /** The priority select's `onChange`. */
    method SetFilterPriority(filter: PriorityFilter)
      modifies this`filterPriority
      ensures filterPriority == filter
    {
      filterPriority := filter;
    }

    /** `handleDragStart`: remember the dragged task; the hover fields are left as they are. */
    method HandleDragStart(taskId: string)
      modifies this`draggedTask
      ensures draggedTask == Some(taskId)
    {
      draggedTask := Some(taskId);
    }

    /** `handleDragOver`: record the hovered column and index, defaulting the
        index to the column's visible count. */
    method HandleDragOver(columnId: string, index: Option<nat>)
      modifies this`dragOverColumn, this`dragOverIndex
      ensures dragOverColumn == Some(columnId)
      ensures index.Some? ==> dragOverIndex == index
      ensures index.None? ==> dragOverIndex == Some(|VisibleTasks(tasks, columnId, searchTerm, filterPriority)|)
    {
      dragOverColumn := Some(columnId);
      if index.Some? {
        dragOverIndex := index;
      } else {
        dragOverIndex := Some(|VisibleTasks(tasks, columnId, searchTerm, filterPriority)|);
      }
    }

    /** `handleDragEnd`: forget the drag session. */
    method HandleDragEnd()
      modifies this`draggedTask, this`dragOverColumn, this`dragOverIndex
      ensures draggedTask == None && dragOverColumn == None && dragOverIndex == None
    {
      draggedTask := None;
      dragOverColumn := None;
      dragOverIndex := None;
    }

    /** `handleDrop`: move the dragged task to position `targetIndex` of the
        target column, renumber that column, save, and end the drag. */
    method HandleDrop(targetColumnId: string, targetIndex: nat, now: string)
      modifies this`tasks, this`draggedTask, this`dragOverColumn, this`dragOverIndex
      ensures tasks == DropResult(old(tasks), old(draggedTask), targetColumnId, targetIndex, now)
      ensures draggedTask == None && dragOverColumn == None && dragOverIndex == None
    {
      var found := FindDragged(tasks, draggedTask);
      if found.None? {
        HandleDragEnd();
        return;
      }
      ghost var before := tasks;
      var taskToMove := tasks[found.value];
      var updatedTasks := Remaining(tasks, taskToMove.id);
      var inTarget := TargetQueue(tasks, taskToMove.id, targetColumnId);
      var k := |inTarget|;
      var finalIndex := Min(targetIndex, k);
      var placed := Placed(taskToMove, targetColumnId, now);

      var column := SpliceAndRenumber(inTarget, finalIndex, placed);
      assert column[..] == DroppedColumn(before, found.value, targetColumnId, targetIndex, now);
      SaveTasks(Select(updatedTasks, Not(ColumnIs(targetColumnId))) + column[..]);
      HandleDragEnd();
    }

    /** `addTask`: append one task whose `order` is the column's visible count. */
    method AddTask(columnId: string, taskData: FormData, id: string, createdAt: string, updatedAt: string)
      returns (newTask: Task)
      modifies this`tasks
      ensures newTask == NewTask(old(tasks), columnId, taskData, searchTerm, filterPriority, id, createdAt, updatedAt)
      ensures tasks == old(tasks) + [newTask]
    {
      newTask := NewTask(tasks, columnId, taskData, searchTerm, filterPriority, id, createdAt, updatedAt);
      SaveTasks(tasks + [newTask]);
    }

    /** `openModal`. */
    method OpenModal(columnId: string)
      modifies this`activeColumnId, this`isModalOpen
      ensures activeColumnId == Some(columnId) && isModalOpen
    {
      activeColumnId := Some(columnId);
      isModalOpen := true;
    }

    /** `closeModal`. */
    method CloseModal()
      modifies this`activeColumnId, this`isModalOpen
      ensures activeColumnId == None && !isModalOpen
    {
      isModalOpen := false;
      activeColumnId := None;
    }

    /** `handleAddTask`: add the submitted task to the column the dialog was
        opened for, if any, and close the dialog. */
    method HandleAddTask(taskData: FormData, id: string, createdAt: string, updatedAt: string)
      modifies this`tasks, this`activeColumnId, this`isModalOpen
      ensures old(activeColumnId).Some? && old(activeColumnId).value != [] ==>
        tasks == old(tasks) + [NewTask(old(tasks), old(activeColumnId).value, taskData, searchTerm, filterPriority, id, createdAt, updatedAt)]
      ensures !(old(activeColumnId).Some? && old(activeColumnId).value != []) ==> tasks == old(tasks)
      ensures activeColumnId == None && !isModalOpen
    {
      if activeColumnId.Some? && activeColumnId.value != [] {
        var _ := AddTask(activeColumnId.value, taskData, id, createdAt, updatedAt);
      }
      CloseModal();
    }

    /** `clearAllTasks`. */
    method ClearAllTasks()
      modifies this`tasks
      ensures tasks == []
    {
      SaveTasks([]);
    }
  }
}
