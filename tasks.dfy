/** The task record of the board and the list operations every component
    shares: filtering by a condition on a task, and the stable sort by `order`
    that both the column view and the drop use. */
module Tasks {
  import opened Text

  datatype Option<T> = None | Some(value: T)

  datatype Priority = Low | Medium | High

  /** The priority drop-down of the board: 'all' or one priority. */
  datatype PriorityFilter = AllPriorities | OnlyPriority(priority: Priority)

  /** One task as the board stores it. `description` and `order` may be absent
      in records read back from storage; the JavaScript guards for both. */
  datatype Task = Task(
    id: string,
    title: string,
    description: Option<string>,
    priority: Priority,
    columnId: string,
    order: Option<int>,
    createdAt: string,
    updatedAt: string)

  /** The sort key `order ?? 0` (equivalently `order || 0` on integers). */
  function OrderKey(t: Task): int {
    if t.order.Some? then t.order.value else 0
  }

  /** The search filter of the board: an empty term keeps everything; otherwise
      the case-folded term must occur in the title or in a present description. */
  predicate MatchesSearch(t: Task, term: string) {
    term == []
    || Contains(Lower(t.title), Lower(term))
    || (t.description.Some? && Contains(Lower(t.description.value), Lower(term)))
  }

  predicate MatchesPriority(t: Task, filter: PriorityFilter) {
    filter.AllPriorities? || t.priority == filter.priority
  }

  /** The conditions the board filters tasks by, as first-order values. */
  datatype Test =
    | ColumnIs(columnId: string)
    | IdIs(id: string)
    | KeyIs(key: int)
    | Visible(column: string, term: string, filter: PriorityFilter)
    | Not(test: Test)

  predicate Satisfies(t: Task, test: Test) {
    match test
    case ColumnIs(c) => t.columnId == c
    case IdIs(id) => t.id == id
    case KeyIs(k) => OrderKey(t) == k
    case Visible(c, term, filter) => t.columnId == c && MatchesSearch(t, term) && MatchesPriority(t, filter)
    case Not(inner) => !Satisfies(t, inner)
  }

  /** `Array.prototype.filter`: the tasks that pass, in their original order. */
  function Select(s: seq<Task>, test: Test): (r: seq<Task>)
    ensures |r| <= |s|
    ensures forall t :: t in r <==> t in s && Satisfies(t, test)
  {
    if s == [] then []
    else if Satisfies(s[0], test) then [s[0]] + Select(s[1..], test)
    else Select(s[1..], test)
  }

  lemma {:induction false} SelectConcat(a: seq<Task>, b: seq<Task>, test: Test)
    ensures Select(a + b, test) == Select(a, test) + Select(b, test)
  {
    if a == [] {
      assert a + b == b;
    } else {
      assert (a + b)[1..] == a[1..] + b;
      SelectConcat(a[1..], b, test);
    }
  }

  /** Every task passes: nothing is dropped. */
  lemma {:induction false} SelectAll(s: seq<Task>, test: Test)
    requires forall i :: 0 <= i < |s| ==> Satisfies(s[i], test)
    ensures Select(s, test) == s
  {
    if s != [] {
      SelectAll(s[1..], test);
    }
  }

  /** No task passes: the result is empty. */
  lemma {:induction false} SelectNone(s: seq<Task>, test: Test)
    requires forall i :: 0 <= i < |s| ==> !Satisfies(s[i], test)
    ensures Select(s, test) == []
  {
    if s != [] {
      SelectNone(s[1..], test);
    }
  }

  /** Two conditions that agree on every task select the same tasks. */
  lemma {:induction false} SelectSame(s: seq<Task>, t1: Test, t2: Test)
    requires forall i :: 0 <= i < |s| ==> Satisfies(s[i], t1) == Satisfies(s[i], t2)
    ensures Select(s, t1) == Select(s, t2)
  {
    if s != [] {
      SelectSame(s[1..], t1, t2);
    }
  }

  /** Selecting twice is selecting by the conjunction: when the second
      condition implies the first, the first selection changes nothing. */
  lemma {:induction false} SelectImplied(s: seq<Task>, outer: Test, inner: Test)
    requires forall i :: 0 <= i < |s| ==> Satisfies(s[i], inner) ==> Satisfies(s[i], outer)
    ensures Select(Select(s, outer), inner) == Select(s, inner)
  {
    if s != [] {
      SelectImplied(s[1..], outer, inner);
    }
  }

  /** A condition and its negation split the list. */
  lemma {:induction false} SelectSplit(s: seq<Task>, test: Test)
    ensures |Select(s, test)| + |Select(s, Not(test))| == |s|
  {
    if s != [] {
      SelectSplit(s[1..], test);
    }
  }

  // ---------------------------------------------------------------------
  // Sorting by order key

  /** Ascending by `OrderKey`. */
  predicate Sorted(s: seq<Task>) {
    forall i, j :: 0 <= i < j < |s| ==> OrderKey(s[i]) <= OrderKey(s[j])
  }

  /** Place `x` before the first task whose key is not smaller than its own. */
  function Insert(x: Task, s: seq<Task>): (r: seq<Task>)
    ensures |r| == |s| + 1
    ensures multiset(r) == multiset(s) + multiset{x}
    ensures r[0] == x || (s != [] && r[0] == s[0])
  {
    if s == [] || OrderKey(x) <= OrderKey(s[0]) then [x] + s
    else
      assert s == [s[0]] + s[1..];
      [s[0]] + Insert(x, s[1..])
  }

  lemma {:induction false} InsertSorted(x: Task, s: seq<Task>)
    requires Sorted(s)
    ensures Sorted(Insert(x, s))
  {
    if s != [] && OrderKey(x) > OrderKey(s[0]) {
      var rest := Insert(x, s[1..]);
      InsertSorted(x, s[1..]);
      assert Insert(x, s) == [s[0]] + rest;
      forall t | t in rest ensures OrderKey(s[0]) <= OrderKey(t) {
        assert t in multiset(rest);
        assert t in s[1..] || t == x;
      }
    }
  }

  /** The comparator `(a, b) => (a.order ?? 0) - (b.order ?? 0)` handed to the
      stable `Array.prototype.sort`, as an insertion sort. */
  function SortByOrder(s: seq<Task>): (r: seq<Task>)
    ensures |r| == |s|
    ensures multiset(r) == multiset(s)
    ensures Sorted(r)
  {
    if s == [] then []
    else
      assert s == [s[0]] + s[1..];
      var rest := SortByOrder(s[1..]);
      InsertSorted(s[0], rest);
      Insert(s[0], rest)
  }

  lemma SortedMembers(s: seq<Task>)
    ensures forall t :: t in SortByOrder(s) <==> t in s
  {
    var r := SortByOrder(s);
    forall t ensures t in r <==> t in s {
      assert t in r <==> t in multiset(r);
      assert t in s <==> t in multiset(s);
    }
  }

  /** Inserting `x` puts it in front of every task of equal key. */
  lemma {:induction false} InsertKeepsTies(x: Task, s: seq<Task>, k: int)
    ensures Select(Insert(x, s), KeyIs(k))
         == if OrderKey(x) == k then [x] + Select(s, KeyIs(k)) else Select(s, KeyIs(k))
  {
    if s == [] || OrderKey(x) <= OrderKey(s[0]) {
      assert ([x] + s)[1..] == s;
    } else {
      var rest := Insert(x, s[1..]);
      assert ([s[0]] + rest)[1..] == rest;
      InsertKeepsTies(x, s[1..], k);
    }
  }

  /** The sort is stable: tasks that share a key keep their list order. */
  lemma {:induction false} SortStable(s: seq<Task>, k: int)
    ensures Select(SortByOrder(s), KeyIs(k)) == Select(s, KeyIs(k))
  {
    if s != [] {
      SortStable(s[1..], k);
      InsertKeepsTies(s[0], SortByOrder(s[1..]), k);
    }
  }

  /** The first task of a list heads the tasks of its own key. */
  lemma HeadLeadsItsKey(r: seq<Task>)
    requires r != []
    ensures Select(r, KeyIs(OrderKey(r[0]))) == [r[0]] + Select(r[1..], KeyIs(OrderKey(r[0])))
  {
  }

  /** Dropping the first task drops it from the tasks of its key only. */
  lemma SelectTail(r: seq<Task>, k: int)
    requires r != []
    ensures Select(r, KeyIs(k))
         == if OrderKey(r[0]) == k then [r[0]] + Select(r[1..], KeyIs(k)) else Select(r[1..], KeyIs(k))
  {
  }

  /** In a sorted list no task has a key below the first task's. */
  lemma SortedHeadIsLeast(r: seq<Task>, k: int)
    requires Sorted(r) && r != []
    requires Select(r, KeyIs(k)) != []
    ensures OrderKey(r[0]) <= k
  {
    var t := Select(r, KeyIs(k))[0];
    assert t in Select(r, KeyIs(k));
    var i :| 0 <= i < |r| && r[i] == t;
  }

  /** Two sorted lists with the same tasks of every key start alike. */
  lemma SortedHeadsAgree(r1: seq<Task>, r2: seq<Task>)
    requires Sorted(r1) && Sorted(r2) && r1 != [] && r2 != []
    requires forall k :: Select(r1, KeyIs(k)) == Select(r2, KeyIs(k))
    ensures r1[0] == r2[0]
  {
    var m1, m2 := OrderKey(r1[0]), OrderKey(r2[0]);
    HeadLeadsItsKey(r1);
    HeadLeadsItsKey(r2);
    assert Select(r2, KeyIs(m1)) == Select(r1, KeyIs(m1)) != [];
    assert Select(r1, KeyIs(m2)) == Select(r2, KeyIs(m2)) != [];
    SortedHeadIsLeast(r2, m1);
    SortedHeadIsLeast(r1, m2);
  }

  /** Lists that share their first task and their tasks of every key also
      share the tasks of every key after the first. */
  lemma TailsShareTies(r1: seq<Task>, r2: seq<Task>, k: int)
    requires r1 != [] && r2 != [] && r1[0] == r2[0]
    requires Select(r1, KeyIs(k)) == Select(r2, KeyIs(k))
    ensures Select(r1[1..], KeyIs(k)) == Select(r2[1..], KeyIs(k))
  {
    SelectTail(r1, k);
    SelectTail(r2, k);
    if OrderKey(r1[0]) == k {
      assert Select(r1[1..], KeyIs(k)) == Select(r1, KeyIs(k))[1..];
      assert Select(r2[1..], KeyIs(k)) == Select(r2, KeyIs(k))[1..];
    }
  }

  /** A sorted list is determined by its tasks of each key: two sorted lists
      with the same tasks of every key, in the same order, are equal. */
  lemma {:induction false} SortedByTiesUnique(r1: seq<Task>, r2: seq<Task>)
    requires Sorted(r1) && Sorted(r2)
    requires forall k :: Select(r1, KeyIs(k)) == Select(r2, KeyIs(k))
    ensures r1 == r2
    decreases |r1|
  {
    if r1 == [] || r2 == [] {
      if r1 != [] {
        HeadLeadsItsKey(r1);
        assert false;
      }
      if r2 != [] {
        HeadLeadsItsKey(r2);
        assert false;
      }
    } else {
      SortedHeadsAgree(r1, r2);
      forall k ensures Select(r1[1..], KeyIs(k)) == Select(r2[1..], KeyIs(k)) {
        TailsShareTies(r1, r2, k);
      }
      SortedByTiesUnique(r1[1..], r2[1..]);
      assert r1 == [r1[0]] + r1[1..];
      assert r2 == [r2[0]] + r2[1..];
    }
  }

  /** The sort is the only sorted, tie-preserving rearrangement of its input. */
  lemma SortByOrderUnique(s: seq<Task>, r: seq<Task>)
    requires Sorted(r)
    requires forall k :: Select(r, KeyIs(k)) == Select(s, KeyIs(k))
    ensures r == SortByOrder(s)
  {
    forall k ensures Select(r, KeyIs(k)) == Select(SortByOrder(s), KeyIs(k)) {
      SortStable(s, k);
    }
    SortedByTiesUnique(r, SortByOrder(s));
  }
}
