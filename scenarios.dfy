/** Worked examples of the board's behaviour on small boards: two drops, a
    search, and the two places where the code leaves a column's `order`
    values with a gap or a duplicate. */
module Scenarios {
  import opened Text
  import opened Tasks
  import opened AddTaskModal
  import opened KanbanBoard

  /** Taking out the first task leaves the rest when no other task shares its id. */
  lemma RemainingAfterHead(t: Task, rest: seq<Task>)
    requires forall j :: 0 <= j < |rest| ==> rest[j].id != t.id
    ensures Remaining([t] + rest, t.id) == rest
  {
    var s := [t] + rest;
    assert s[0] == t && s[1..] == rest;
    assert !Satisfies(t, Not(IdIs(t.id)));
    SelectAll(rest, Not(IdIs(t.id)));
  }

  /** Dragging the first task of a board into a column that already holds
      every other task, in `order` order, splices it into that list and
      renumbers the result. */
  lemma DropOfHead(a: Task, rest: seq<Task>, target: string, targetIndex: nat, now: string)
    requires forall j :: 0 <= j < |rest| ==> rest[j].id != a.id && rest[j].columnId == target
    requires Sorted(rest)
    ensures DropResult([a] + rest, Some(a.id), target, targetIndex, now)
         == Renumber(Splice(rest, Min(targetIndex, |rest|), Placed(a, target, now)))
  {
    var tasks := [a] + rest;
    assert tasks[0] == a;
    assert FindDragged(tasks, Some(a.id)) == Some(0);
    RemainingAfterHead(a, rest);
    SelectAll(rest, ColumnIs(target));
    SelectNone(rest, Not(ColumnIs(target)));
    SortByOrderUnique(rest, rest);
  }

  /** Renumbering three tasks gives them the orders 0, 1, 2. */
  lemma RenumberThree(x: Task, y: Task, z: Task)
    ensures Renumber([x, y, z]) == [x.(order := Some(0)), y.(order := Some(1)), z.(order := Some(2))]
  {
  }

  /** Dropping the first of three tasks of a column, ordered 0, 1, 2, at
      index 2 of the same column moves it last and renumbers the column. */
  lemma ReorderWithinColumn(a: Task, b: Task, c: Task, now: string)
    requires a.columnId == b.columnId == c.columnId
    requires a.order == Some(0) && b.order == Some(1) && c.order == Some(2)
    requires b.id != a.id && c.id != a.id
    ensures DropResult([a, b, c], Some(a.id), a.columnId, 2, now)
         == [b.(order := Some(0)), c.(order := Some(1)), a.(order := Some(2), updatedAt := now)]
  {
    assert [a, b, c] == [a] + [b, c];
    DropOfHead(a, [b, c], a.columnId, 2, now);
    var p := Placed(a, a.columnId, now);
    assert p == a.(updatedAt := now);
    assert Splice([b, c], 2, p) == [b, c, p];
    RenumberThree(b, c, p);
  }

  /** Moving a task into a column of two tasks ordered 0, 1 at index 1 puts
      it between them and renumbers that column 0, 1, 2. */
  lemma MoveAcrossColumns(a: Task, x: Task, y: Task, target: string, now: string)
    requires a.columnId != target && x.columnId == target && y.columnId == target
    requires x.order == Some(0) && y.order == Some(1)
    requires x.id != a.id && y.id != a.id
    ensures DropResult([a, x, y], Some(a.id), target, 1, now)
         == [x, a.(columnId := target, order := Some(1), updatedAt := now), y.(order := Some(2))]
  {
    assert [a, x, y] == [a] + [x, y];
    DropOfHead(a, [x, y], target, 1, now);
    var p := Placed(a, target, now);
    assert Splice([x, y], 1, p) == [x, p, y];
    RenumberThree(x, p, y);
  }

  /** After that move the source column, where the task was alone, is empty. */
  lemma MoveEmptiesSource(a: Task, x: Task, y: Task, target: string, now: string)
    requires a.columnId != target && x.columnId == target && y.columnId == target
    requires x.order == Some(0) && y.order == Some(1)
    requires x.id != a.id && y.id != a.id
    ensures Select(DropResult([a, x, y], Some(a.id), target, 1, now), ColumnIs(a.columnId)) == []
  {
    MoveAcrossColumns(a, x, y, target, now);
    var r := [x, a.(columnId := target, order := Some(1), updatedAt := now), y.(order := Some(2))];
    assert DropResult([a, x, y], Some(a.id), target, 1, now) == r;
    OutsideColumn(r, target, a.columnId);
  }

  /** A list whose tasks all sit in one column has none in another. */
  lemma OutsideColumn(r: seq<Task>, target: string, c: string)
    requires c != target
    requires forall j :: 0 <= j < |r| ==> r[j].columnId == target
    ensures Select(r, ColumnIs(c)) == []
  {
    SelectNone(r, ColumnIs(c));
  }

  /** Moving a task out of its column leaves the tasks behind with their old
      `order`: a column numbered 0, 1 keeps only the task numbered 1. */
  lemma SourceColumnKeepsGap(a: Task, b: Task, target: string, now: string)
    requires a.columnId == b.columnId != target
    requires a.order == Some(0) && b.order == Some(1)
    requires b.id != a.id
    ensures ColumnContiguous([a, b], a.columnId)
    ensures Select(DropResult([a, b], Some(a.id), target, 0, now), ColumnIs(a.columnId)) == [b]
    ensures !ColumnContiguous(DropResult([a, b], Some(a.id), target, 0, now), a.columnId)
  {
    var tasks := [a, b];
    SelectAll(tasks, ColumnIs(a.columnId));
    assert Orders(tasks) == Numbering(2);
    assert tasks == [a] + [b];
    RemainingAfterHead(a, [b]);
    DropLeavesOtherColumns(tasks, Some(a.id), target, 0, now, a.columnId);
    SelectAll([b], ColumnIs(a.columnId));
    assert Orders([b]) == [Some(1)];
    assert Numbering(1) == [Some(0)];
    assert Some(0) !in multiset(Orders([b]));
  }

  /** When the search hides the only task of a column, a task added there
      gets `order` 0, the order that hidden task already has. */
  lemma FilteredAddRepeatsOrder(hidden: Task, columnId: string, taskData: FormData, searchTerm: string,
                                id: string, createdAt: string, updatedAt: string)
    requires hidden.columnId == columnId && hidden.order == Some(0)
    requires !MatchesSearch(hidden, searchTerm)
    ensures NewTask([hidden], columnId, taskData, searchTerm, AllPriorities, id, createdAt, updatedAt).order
         == hidden.order
  {
    assert [hidden][1..] == [];
    assert Select([hidden], Visible(columnId, searchTerm, AllPriorities)) == [];
  }

  /** A title none of whose characters folds to the first character of the
      term does not match the term, whatever the case. */
  lemma LacksFirstChar(s: string, p: string)
    requires p != []
    requires forall i :: 0 <= i < |s| ==> LowerChar(s[i]) != LowerChar(p[0])
    ensures !Contains(Lower(s), Lower(p))
  {
    ContainsIff(Lower(s), Lower(p));
  }

  /** The term "bug" occurs in the title "Fix bug". */
  lemma FixBugMatches(fix: Task)
    requires fix.title == "Fix bug"
    ensures MatchesSearch(fix, "bug")
  {
    var lt, lp := Lower("Fix bug"), Lower("bug");
    assert lt[4] == 'b' && lt[5] == 'u' && lt[6] == 'g';
    assert lp[0] == 'b' && lp[1] == 'u' && lp[2] == 'g';
    assert lt[4..7] == lp;
    ContainsIff(lt, lp);
    assert OccursAt(lt, lp, 4);
  }

  /** The term "bug" occurs in neither the title "Write docs" nor a missing
      description. */
  lemma WriteDocsMisses(docs: Task)
    requires docs.title == "Write docs" && docs.description.None?
    ensures !MatchesSearch(docs, "bug")
  {
    LacksFirstChar("Write docs", "bug");
  }

  /** The term "bug" finds "Fix bug" and not "Write docs", so a column holding
      both shows only the first. */
  lemma SearchKeepsMatches(fix: Task, docs: Task)
    requires fix.title == "Fix bug" && docs.title == "Write docs"
    requires docs.description.None?
    requires fix.columnId == docs.columnId
    ensures VisibleTasks([fix, docs], fix.columnId, "bug", AllPriorities) == [fix]
  {
    FixBugMatches(fix);
    WriteDocsMisses(docs);
    var test := Visible(fix.columnId, "bug", AllPriorities);
    assert Satisfies(fix, test) && !Satisfies(docs, test);
    assert [fix, docs][1..] == [docs];
    assert [docs][1..] == [];
    assert Select([fix, docs], test) == [fix];
    assert SortByOrder([fix]) == [fix];
  }
}
