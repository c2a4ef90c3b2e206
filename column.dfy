/** One column of the board: where a hovering pointer would insert, which
    insertion line is lit, and what index a drop hands to the board. The
    on-screen geometry is abstracted to the vertical midpoints of the rendered
    task cards, top to bottom, and the pointer's vertical position. */
module Column {
  import opened Tasks
  import opened KanbanBoard

  /** `k` is the slot the hover loop picks: the first card whose midpoint is
      below the pointer, or the slot after the last card when there is none. */
  predicate IsHoverIndex(midpoints: seq<int>, pointer: int, k: int) {
    && 0 <= k <= |midpoints|
    && (k < |midpoints| ==> pointer < midpoints[k])
    && (forall j :: 0 <= j < k ==> midpoints[j] <= pointer)
  }

  /** The `onDragOver` loop: scan the cards from the top and stop at the first
      one whose midpoint lies below the pointer. */
  method ComputeHoverIndex(midpoints: seq<int>, pointer: int) returns (closestIndex: nat)
    ensures IsHoverIndex(midpoints, pointer, closestIndex)
    ensures (forall j :: 0 <= j < |midpoints| ==> midpoints[j] <= pointer) ==> closestIndex == |midpoints|
  {
    closestIndex := |midpoints|;
    var i := 0;
    while i < |midpoints|
      invariant 0 <= i <= |midpoints|
      invariant closestIndex == |midpoints|
      invariant forall j :: 0 <= j < i ==> midpoints[j] <= pointer
    {
      if pointer < midpoints[i] {
        closestIndex := i;
        break;
      }
      i := i + 1;
    }
  }

  /** Only one slot meets the hover conditions: the first match wins. */
  lemma HoverIndexUnique(midpoints: seq<int>, pointer: int, k1: int, k2: int)
    requires IsHoverIndex(midpoints, pointer, k1) && IsHoverIndex(midpoints, pointer, k2)
    ensures k1 == k2
  {
  }

  /** `onDragOver`: compute the slot and report it to the board. */
  method OnDragOver(board: Board, columnId: string, midpoints: seq<int>, pointer: int)
    modifies board`dragOverColumn, board`dragOverIndex
    ensures board.dragOverColumn == Some(columnId)
    ensures board.dragOverIndex.Some? && IsHoverIndex(midpoints, pointer, board.dragOverIndex.value)
  {
    var closestIndex := ComputeHoverIndex(midpoints, pointer);
    board.HandleDragOver(columnId, Some(closestIndex));
  }

  /** `dragOverIndex ?? tasks.length`: the hovered slot, or the end of the
      visible list when no slot is recorded. */
  function DropIndex(dragOverIndex: Option<nat>, visibleCount: nat): (r: nat)
    ensures dragOverIndex.Some? ==> r == dragOverIndex.value
    ensures dragOverIndex.None? ==> r == visibleCount
  {
    match dragOverIndex
    case Some(i) => i
    case None => visibleCount
  }

  /** `onDrop`: drop the dragged task at the recorded slot, or at the end of
      the column's visible list. */
  method OnDrop(board: Board, columnId: string, now: string)
    modifies board`tasks, board`draggedTask, board`dragOverColumn, board`dragOverIndex
    ensures board.tasks == DropResult(old(board.tasks), old(board.draggedTask), columnId,
      DropIndex(old(board.dragOverIndex), |VisibleTasks(old(board.tasks), columnId, board.searchTerm, board.filterPriority)|), now)
    ensures board.draggedTask == None && board.dragOverColumn == None && board.dragOverIndex == None
  {
    var visible := VisibleTasks(board.tasks, columnId, board.searchTerm, board.filterPriority);
    board.HandleDrop(columnId, DropIndex(board.dragOverIndex, |visible|), now);
  }

  /** `HighlightLine`: the insertion line at `index` is lit when this column
      is hovered at that slot. */
  predicate HighlightLine(dragOverColumn: Option<string>, dragOverIndex: Option<nat>, columnId: string, index: nat) {
    dragOverColumn == Some(columnId) && dragOverIndex == Some(index)
  }

  /** The lit slots among the n + 1 lines a column of n visible cards draws:
      one before the first card and one after each card. */
  function LitSlots(dragOverColumn: Option<string>, dragOverIndex: Option<nat>, columnId: string, n: nat): set<nat> {
    set i: nat | i <= n && HighlightLine(dragOverColumn, dragOverIndex, columnId, i)
  }

  /** Exactly the hovered slot is lit when this column is hovered within its
      slots, and nothing otherwise; so at most one line is lit per column. */
  lemma LitSlotsExact(dragOverColumn: Option<string>, dragOverIndex: Option<nat>, columnId: string, n: nat)
    ensures LitSlots(dragOverColumn, dragOverIndex, columnId, n)
         == if dragOverColumn == Some(columnId) && dragOverIndex.Some? && dragOverIndex.value <= n
            then {dragOverIndex.value} else {}
    ensures |LitSlots(dragOverColumn, dragOverIndex, columnId, n)| <= 1
  {
    var lit := LitSlots(dragOverColumn, dragOverIndex, columnId, n);
    if dragOverColumn == Some(columnId) && dragOverIndex.Some? && dragOverIndex.value <= n {
      assert dragOverIndex.value in lit;
      assert lit == {dragOverIndex.value};
    } else {
      assert lit == {};
    }
  }
}
