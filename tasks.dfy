/**
 * The task list behind the task hook (lib/hooks/useTasks.ts): the `tasks`
 * table of the hosted database, held in memory, and the hook's local copy
 * of the list, which the four operations read and replace.
 *
 * The database generates a new row's id and its `created_at`; here the id
 * comes from a counter and the timestamp is a parameter, as is the clock
 * reading that `removeTask` stores. The columns the insert leaves to the
 * database's defaults are `frequency`, taken from the store, and
 * `removed_at`, which starts out null. Whether a request fails for a reason
 * outside the store is an explicit parameter of each operation.
 */
module TaskList {
  import opened Types
  import opened SeqFacts

  // ---------------------------------------------------------------------------
  // Reading: fetchTasks
  // ---------------------------------------------------------------------------

  /** The rows the query's filters keep: the user's, and only live ones unless `includeRemoved`. */
  function OfUser(rows: seq<Task>, userId: Id, includeRemoved: bool): (r: seq<Task>)
    ensures |r| <= |rows|
    ensures forall t :: t in r <==> t in rows && t.userId == userId && (includeRemoved || t.removedAt.None?)
    ensures multiset(r) <= multiset(rows)
    ensures forall t :: t in r ==> multiset(r)[t] == multiset(rows)[t]
  {
    if rows == [] then []
    else
      var rest := OfUser(rows[1..], userId, includeRemoved);
      assert rows == [rows[0]] + rows[1..];
      if rows[0].userId == userId && (includeRemoved || rows[0].removedAt.None?) then [rows[0]] + rest
      else rest
  }

  /** Non-decreasing `sort_order`. */
  predicate InOrder(s: seq<Task>) {
    forall i, j :: 0 <= i < j < |s| ==> s[i].sortOrder <= s[j].sortOrder
  }

  /** Inserting before the first row whose `sort_order` is not below the new one's. */
  function InsertByOrder(x: Task, s: seq<Task>): seq<Task>
  {
    if s == [] then [x]
    else if x.sortOrder <= s[0].sortOrder then [x] + s
    else [s[0]] + InsertByOrder(x, s[1..])
  }

  /**
   * `order('sort_order', { ascending: true })`. The database leaves the order
   * of rows with equal `sort_order` unspecified; this sort keeps them in
   * table order.
   */
  function SortByOrder(s: seq<Task>): seq<Task>
  {
    if s == [] then [] else InsertByOrder(s[0], SortByOrder(s[1..]))
  }

  lemma ConsInOrder(h: Task, s: seq<Task>)
    requires InOrder(s)
    requires forall j :: 0 <= j < |s| ==> h.sortOrder <= s[j].sortOrder
    ensures InOrder([h] + s)
  {
    var t := [h] + s;
    forall i, j | 0 <= i < j < |t| ensures t[i].sortOrder <= t[j].sortOrder {
      assert t[j] == s[j - 1];
      if i > 0 {
        assert t[i] == s[i - 1];
      }
    }
  }

  lemma InOrderTail(s: seq<Task>)
    requires InOrder(s) && s != []
    ensures InOrder(s[1..])
  {
    forall i, j | 0 <= i < j < |s[1..]| ensures s[1..][i].sortOrder <= s[1..][j].sortOrder {
      assert s[1..][i] == s[i + 1] && s[1..][j] == s[j + 1];
    }
  }

  lemma HeadBelowRest(s: seq<Task>, x: Task, rest: seq<Task>)
    requires InOrder(s) && s != [] && s[0].sortOrder < x.sortOrder
    requires multiset(rest) == multiset(s[1..]) + multiset{x}
    ensures forall j :: 0 <= j < |rest| ==> s[0].sortOrder <= rest[j].sortOrder
  {
    forall j | 0 <= j < |rest| ensures s[0].sortOrder <= rest[j].sortOrder {
      assert rest[j] in multiset(rest);
      if rest[j] != x {
        assert rest[j] in multiset(s[1..]);
        var k :| 0 <= k < |s[1..]| && s[1..][k] == rest[j];
        assert s[k + 1] == rest[j];
      }
    }
  }

  lemma {:induction false} InsertByOrderCorrect(x: Task, s: seq<Task>)
    requires InOrder(s)
    ensures InOrder(InsertByOrder(x, s))
    ensures multiset(InsertByOrder(x, s)) == multiset(s) + multiset{x}
  {
    if s == [] {
    } else if x.sortOrder <= s[0].sortOrder {
      ConsInOrder(x, s);
    } else {
      var rest := InsertByOrder(x, s[1..]);
      InOrderTail(s);
      InsertByOrderCorrect(x, s[1..]);
      HeadBelowRest(s, x, rest);
      ConsInOrder(s[0], rest);
      assert s == [s[0]] + s[1..];
      assert multiset([s[0]] + rest) == multiset{s[0]} + multiset(rest);
    }
  }

  /** The sorted copy is in `sort_order` and a permutation of its input. */
  lemma {:induction false} SortByOrderCorrect(s: seq<Task>)
    ensures InOrder(SortByOrder(s))
    ensures multiset(SortByOrder(s)) == multiset(s)
  {
    if s != [] {
      SortByOrderCorrect(s[1..]);
      InsertByOrderCorrect(s[0], SortByOrder(s[1..]));
      assert s == [s[0]] + s[1..];
    }
  }

  /** The answer of the query of fetchTasks. */
  function Selected(rows: seq<Task>, userId: Id, includeRemoved: bool): seq<Task>
  {
    SortByOrder(OfUser(rows, userId, includeRemoved))
  }

  /**
   * The fetched list is in ascending `sort_order` and holds every row of the
   * user exactly as often as the table does, leaving out removed rows unless
   * they are asked for.
   */
  lemma FetchedOrdered(rows: seq<Task>, userId: Id, includeRemoved: bool)
    ensures InOrder(Selected(rows, userId, includeRemoved))
    ensures multiset(Selected(rows, userId, includeRemoved)) == multiset(OfUser(rows, userId, includeRemoved))
    ensures forall t :: t in Selected(rows, userId, includeRemoved) <==>
      t in rows && t.userId == userId && (includeRemoved || t.removedAt.None?)
    ensures forall t :: t in Selected(rows, userId, includeRemoved) ==>
      multiset(Selected(rows, userId, includeRemoved))[t] == multiset(rows)[t]
  {
    var kept := OfUser(rows, userId, includeRemoved);
    SortByOrderCorrect(kept);
    forall t ensures t in Selected(rows, userId, includeRemoved) <==> t in kept {
      assert t in SortByOrder(kept) <==> t in multiset(SortByOrder(kept));
      assert t in kept <==> t in multiset(kept);
    }
  }

  /** A removed row is listed only when removed rows are asked for. */
  lemma FetchedExcludesRemoved(rows: seq<Task>, userId: Id, t: Task)
    requires t in rows && t.userId == userId && t.removedAt.Some?
    ensures t !in Selected(rows, userId, false)
    ensures t in Selected(rows, userId, true)
  {
    FetchedOrdered(rows, userId, false);
    FetchedOrdered(rows, userId, true);
  }

  // ---------------------------------------------------------------------------
  // Writing: addTask
  // ---------------------------------------------------------------------------

  /** The `sort_order` addTask gives a new task: one past the largest in the list, or 0. */
  function NextSortOrder(tasks: seq<Task>): (r: int)
    ensures forall t :: t in tasks ==> t.sortOrder < r
    ensures tasks == [] ==> r == 0
    ensures tasks != [] ==> exists i :: 0 <= i < |tasks| && r == tasks[i].sortOrder + 1
  {
    if tasks == [] then 0
    else if |tasks| == 1 then tasks[0].sortOrder + 1
    else
      var rest := NextSortOrder(tasks[1..]);
      assert tasks == [tasks[0]] + tasks[1..];
      if tasks[0].sortOrder + 1 > rest then tasks[0].sortOrder + 1 else rest
  }

  /** No smaller value is above every existing `sort_order`. */
  lemma NextSortOrderLeast(tasks: seq<Task>, k: int)
    requires forall t :: t in tasks ==> t.sortOrder < k
    requires tasks != [] || k >= 0
    ensures NextSortOrder(tasks) <= k
  {
    if tasks != [] {
      var i :| 0 <= i < |tasks| && NextSortOrder(tasks) == tasks[i].sortOrder + 1;
      assert tasks[i] in tasks;
    }
  }

  /** A new task is listed by a fetch that follows its insertion. */
  lemma AddedIsFetched(rows: seq<Task>, task: Task, includeRemoved: bool)
    requires task.removedAt.None?
    ensures task in Selected(rows + [task], task.userId, includeRemoved)
  {
    FetchedOrdered(rows + [task], task.userId, includeRemoved);
  }

  // ---------------------------------------------------------------------------
  // Writing: removeTask
  // ---------------------------------------------------------------------------

  /** The update of removeTask: every row with that id gets `removed_at`; no row is deleted. */
  function MarkRemoved(rows: seq<Task>, taskId: Id, now: string): (r: seq<Task>)
    ensures |r| == |rows|
    ensures forall k :: 0 <= k < |rows| ==>
      r[k] == if rows[k].id == taskId then rows[k].(removedAt := Some(now)) else rows[k]
  {
    if rows == [] then []
    else
      var head := if rows[0].id == taskId then rows[0].(removedAt := Some(now)) else rows[0];
      [head] + MarkRemoved(rows[1..], taskId, now)
  }

  /** The filter of the local list after a successful removeTask. */
  function Without(tasks: seq<Task>, taskId: Id): (r: seq<Task>)
    ensures |r| <= |tasks|
    ensures forall t :: t in r <==> t in tasks && t.id != taskId
  {
    if tasks == [] then []
    else
      var rest := Without(tasks[1..], taskId);
      assert tasks == [tasks[0]] + tasks[1..];
      if tasks[0].id == taskId then rest else [tasks[0]] + rest
  }

  /** The filter keeps the other tasks in their order: it distributes over concatenation. */
  lemma {:induction false} WithoutAppend(a: seq<Task>, b: seq<Task>, taskId: Id)
    ensures Without(a + b, taskId) == Without(a, taskId) + Without(b, taskId)
  {
    if a != [] {
      assert (a + b)[0] == a[0] && (a + b)[1..] == a[1..] + b;
      WithoutAppend(a[1..], b, taskId);
    } else {
      assert a + b == b;
    }
  }

  /** A list without that id is left as it is. */
  lemma {:induction false} WithoutAbsent(tasks: seq<Task>, taskId: Id)
    requires forall t :: t in tasks ==> t.id != taskId
    ensures Without(tasks, taskId) == tasks
  {
    if tasks != [] {
      assert tasks[1..] == tasks[1..] && forall t :: t in tasks[1..] ==> t in tasks;
      WithoutAbsent(tasks[1..], taskId);
      assert tasks == [tasks[0]] + tasks[1..];
    }
  }

  /** When the id occurs once, at `k`, the list loses exactly that entry. */
  lemma DropsExactlyOne(tasks: seq<Task>, taskId: Id, k: nat)
    requires k < |tasks| && tasks[k].id == taskId
    requires forall j :: 0 <= j < |tasks| && j != k ==> tasks[j].id != taskId
    ensures Without(tasks, taskId) == tasks[..k] + tasks[k + 1..]
  {
    assert tasks == tasks[..k] + ([tasks[k]] + tasks[k + 1..]);
    WithoutAppend(tasks[..k], [tasks[k]] + tasks[k + 1..], taskId);
    WithoutAppend([tasks[k]], tasks[k + 1..], taskId);
    WithoutAbsent(tasks[..k], taskId);
    WithoutAbsent(tasks[k + 1..], taskId);
    assert Without([tasks[k]], taskId) == [];
  }

  /** After the update, a fetch of live tasks no longer lists that id. */
  lemma RemovedNotFetched(rows: seq<Task>, taskId: Id, now: string, userId: Id)
    ensures forall t :: t in Selected(MarkRemoved(rows, taskId, now), userId, false) ==> t.id != taskId
  {
    var after := MarkRemoved(rows, taskId, now);
    FetchedOrdered(after, userId, false);
    forall t | t in Selected(after, userId, false) ensures t.id != taskId {
      var k :| 0 <= k < |after| && after[k] == t;
    }
  }

  // ---------------------------------------------------------------------------
  // Writing: reorderTasks
  // ---------------------------------------------------------------------------

  /** One update of reorderTasks: the rows with that id get the new `sort_order`. */
  function SetSortOrder(rows: seq<Task>, taskId: Id, order: int): (r: seq<Task>)
    ensures |r| == |rows|
    ensures forall k :: 0 <= k < |rows| ==>
      r[k] == if rows[k].id == taskId then rows[k].(sortOrder := order) else rows[k]
  {
    if rows == [] then []
    else
      var head := if rows[0].id == taskId then rows[0].(sortOrder := order) else rows[0];
      [head] + SetSortOrder(rows[1..], taskId, order)
  }

  /**
   * The table after the updates of reorderTasks, issued in index order: the
   * i-th task's rows get `sort_order` i, except that the updates whose index
   * is in `failing` do not take effect.
   */
  function Reorder(rows: seq<Task>, ordered: seq<Task>, failing: set<nat>): (r: seq<Task>)
    ensures |r| == |rows|
    ensures forall k :: 0 <= k < |rows| ==> r[k] == rows[k].(sortOrder := r[k].sortOrder)
  {
    if ordered == [] then rows
    else
      var n := |ordered| - 1;
      var before := Reorder(rows, ordered[..n], failing);
      if n in failing then before else SetSortOrder(before, ordered[n].id, n)
  }

  predicate DistinctIds(ts: seq<Task>) {
    forall i, j :: 0 <= i < j < |ts| ==> ts[i].id != ts[j].id
  }

  /** Each id's rows get its index in the new order, when its update goes through. */
  lemma {:induction false} ReorderSets(rows: seq<Task>, ordered: seq<Task>, failing: set<nat>, i: nat, k: nat)
    requires DistinctIds(ordered)
    requires i < |ordered| && i !in failing
    requires k < |rows| && rows[k].id == ordered[i].id
    ensures Reorder(rows, ordered, failing)[k] == rows[k].(sortOrder := i)
  {
    var n := |ordered| - 1;
    var front := ordered[..n];
    var before := Reorder(rows, front, failing);
    if i < n {
      assert front[i] == ordered[i];
      ReorderSets(rows, front, failing, i, k);
      assert before[k].id == ordered[i].id != ordered[n].id;
    }
  }

  /** Rows of ids outside the new order, or whose updates fail, keep their `sort_order`. */
  lemma {:induction false} ReorderKeeps(rows: seq<Task>, ordered: seq<Task>, failing: set<nat>, k: nat)
    requires k < |rows|
    requires forall i :: 0 <= i < |ordered| && ordered[i].id == rows[k].id ==> i in failing
    ensures Reorder(rows, ordered, failing)[k] == rows[k]
  {
    if ordered != [] {
      var n := |ordered| - 1;
      var front := ordered[..n];
      forall i | 0 <= i < |front| && front[i].id == rows[k].id ensures i in failing {
        assert front[i] == ordered[i];
      }
      ReorderKeeps(rows, front, failing, k);
    }
  }

  // ---------------------------------------------------------------------------
  // The store
  // ---------------------------------------------------------------------------

  /** The `tasks` table and the hook's list. */
  class TaskStore {
    /** The table, in insertion order. */
    var rows: seq<Task>
    /** The hook's `tasks` state. */
    var tasks: seq<Task>
    var nextId: nat
    /** The column default of `frequency`. */
    const defaultFrequency: string

    /** Every row's id was handed out before, so the next id is fresh. */
    predicate Valid()
      reads this
    {
      forall t :: t in rows ==> t.id < nextId
    }

    constructor (defaultFrequency: string)
      ensures rows == [] && tasks == [] && nextId == 0
      ensures this.defaultFrequency == defaultFrequency
      ensures Valid()
    {
      rows, tasks, nextId := [], [], 0;
      this.defaultFrequency := defaultFrequency;
    }

    /**
     * fetchTasks: with no signed-in user nothing is read and the list stays;
     * otherwise the list becomes the query's answer, or empty when the
     * request fails.
     */
    method FetchTasks(userId: Option<Id>, includeRemoved: bool, queryFails: bool) returns (r: seq<Task>)
      modifies this`tasks
      ensures userId.None? ==> r == [] && tasks == old(tasks)
      ensures userId.Some? ==> r == tasks
      ensures userId.Some? && queryFails ==> r == []
      ensures userId.Some? && !queryFails ==> r == Selected(rows, userId.value, includeRemoved)
    {
      if userId.None? {
        return [];
      }
      r := if queryFails then [] else Selected(rows, userId.value, includeRemoved);
      tasks := r;
    }

    /**
     * addTask: inserts a row one past the largest `sort_order` of the list
     * and appends it to the list; with no user, or when the insert fails, it
     * answers None and changes nothing.
     */
    method AddTask(userId: Option<Id>, name: string, emoji: string, createdAt: string, insertFails: bool)
      returns (r: Option<Task>)
      requires Valid()
      modifies this`rows, this`tasks, this`nextId
      ensures Valid()
      ensures userId.None? || insertFails ==>
        r.None? && rows == old(rows) && tasks == old(tasks) && nextId == old(nextId)
      ensures userId.Some? && !insertFails ==>
        && r == Some(Task(old(nextId), userId.value, name, emoji, NextSortOrder(old(tasks)),
                          defaultFrequency, createdAt, None))
        && rows == old(rows) + [r.value]
        && tasks == old(tasks) + [r.value]
        && nextId == old(nextId) + 1
      ensures r.Some? ==> forall t :: t in old(rows) ==> t.id != r.value.id
    {
      if userId.None? {
        return None;
      }
      var maxOrder := -1;
      if |tasks| > 0 {
        maxOrder := MaxSortOrder(tasks);
      }
      if insertFails {
        return None;
      }
      var newTask := Task(nextId, userId.value, name, emoji, maxOrder + 1, defaultFrequency, createdAt, None);
      rows := rows + [newTask];
      nextId := nextId + 1;
      tasks := tasks + [newTask];
      return Some(newTask);
    }

    /**
     * removeTask: stamps `removed_at` on the row and, when that succeeds,
     * drops the task from the list; a failed update changes nothing.
     */
    method RemoveTask(taskId: Id, now: string, updateFails: bool)
      requires Valid()
      modifies this`rows, this`tasks
      ensures Valid()
      ensures updateFails ==> rows == old(rows) && tasks == old(tasks)
      ensures !updateFails ==> rows == MarkRemoved(old(rows), taskId, now) && tasks == Without(old(tasks), taskId)
    {
      if !updateFails {
        rows := MarkRemoved(rows, taskId, now);
        tasks := Without(tasks, taskId);
      }
    }

    /**
     * reorderTasks: the list becomes the given sequence at once; then one
     * update per position sets that task's `sort_order` to its index. No
     * failure is reported; a failed update leaves its row as it was.
     */
    method ReorderTasks(reordered: seq<Task>, failing: set<nat>)
      requires Valid()
      modifies this`rows, this`tasks
      ensures Valid()
      ensures tasks == reordered
      ensures rows == Reorder(old(rows), reordered, failing)
    {
      tasks := reordered;
      ghost var start := rows;
      var i := 0;
      while i < |reordered|
        invariant 0 <= i <= |reordered|
        invariant rows == Reorder(start, reordered[..i], failing)
        invariant tasks == reordered
        invariant Valid()
      {
        PrefixStep(reordered, i);
        if i !in failing {
          rows := SetSortOrder(rows, reordered[i].id, i);
        }
        i := i + 1;
      }
      WholePrefix(reordered);
    }
  }

  /** `Math.max(...tasks.map((t) => t.sort_order))`, a loop over the list. */
  method MaxSortOrder(tasks: seq<Task>) returns (m: int)
    requires tasks != []
    ensures m + 1 == NextSortOrder(tasks)
  {
    m := tasks[0].sortOrder;
    var i := 1;
    while i < |tasks|
      invariant 1 <= i <= |tasks|
      invariant forall j :: 0 <= j < i ==> tasks[j].sortOrder <= m
      invariant exists j :: 0 <= j < i && tasks[j].sortOrder == m
    {
      if tasks[i].sortOrder > m {
        m := tasks[i].sortOrder;
      }
      i := i + 1;
    }
    NextSortOrderLeast(tasks, m + 1);
  }
}
