/** Properties that relate several operations: what the store operations do to the
    counters and to the filtered view, and a worked case: clearing five tasks of which
    three are completed. */
module Scenarios {

  import opened Seqs
  import opened Tasks
  import opened Store
  import opened Sorting
  import opened View
  import opened Stats

  // ----- store operations and the counters ---------------------------------------

  /** Adding a task adds one to the total and to the pending count. */
  lemma AddCounts(tasks: seq<Task>, id: int, title: string, description: string,
                  priority: Priority, category: string, dueDate: Option<int>, now: int)
    requires !IsBlank(title)
    ensures var before := ComputeStats(tasks, now);
      var after := ComputeStats(Add(tasks, id, title, description, priority, category, dueDate, now), now);
      && after.total == before.total + 1
      && after.completed == before.completed
      && after.pending == before.pending + 1
  {
    var r := Add(tasks, id, title, description, priority, category, dueDate, now);
    var t := r[|tasks|];
    assert r == tasks + [t];
    PendingSnoc(tasks, t);
  }

  lemma PendingSnoc(tasks: seq<Task>, t: Task)
    requires !t.completed
    ensures CompletedCount(tasks + [t]) == CompletedCount(tasks)
  {
    FilterAppend(tasks, [t], Done);
    FilterCons(t, [], Done);
  }

  /** Toggling an existing task moves it between the completed and pending counts. */
  lemma ToggleCounts(tasks: seq<Task>, id: int, now: int)
    requires id in Ids(tasks)
    ensures var i := FirstIndex(tasks, id);
      var before := ComputeStats(tasks, now);
      var after := ComputeStats(Toggle(tasks, id, now), now);
      && after.total == before.total
      && after.completed == before.completed + (if tasks[i].completed then -1 else 1)
      && after.pending == before.pending - (if tasks[i].completed then -1 else 1)
  {
    var i := FirstIndex(tasks, id);
    FilterUpdateLength(tasks, i, Flip(tasks[i], now), Done);
  }

  /** After clearing the completed tasks nothing is completed, the pending tasks are
      all that is left, and the overdue count is unchanged. */
  lemma ClearCompletedCounts(tasks: seq<Task>, now: int)
    ensures var before := ComputeStats(tasks, now);
      var after := ComputeStats(ClearCompleted(tasks, true), now);
      && after.completed == 0
      && after.total == before.pending
      && after.overdue == before.overdue
  {
    var r := ClearCompleted(tasks, true);
    var pending := Filter(tasks, Not(Done));
    if CompletedCount(tasks) > 0 {
      assert r == pending;
    } else {
      NothingCompleted(tasks);
    }
    assert r == pending;
    FilterKeepsNone(r, Done);
    FilterFilter(tasks, Not(Done), OverdueAt(now));
    FilterCongruent(tasks, And(Not(Done), OverdueAt(now)), OverdueAt(now));
  }

  /** After clearing everything, every counter and the progress are 0. */
  lemma ClearAllCounts(tasks: seq<Task>, now: int)
    ensures ComputeStats(ClearAll(tasks, true), now) == Counters(0, 0, 0, 0)
    ensures ProgressPercentage(ClearAll(tasks, true)) == 0
  {
  }

  // ----- store operations and the view -------------------------------------------

  /** A pending task due yesterday is in the overdue view; once toggled to completed it
      is not. */
  lemma OverdueViewAfterToggle(tasks: seq<Task>, k: nat, key: SortKey, now: int)
    requires Valid(tasks) && k < |tasks|
    requires tasks[k].dueDate == Some(now - MsPerDay) && !tasks[k].completed
    ensures tasks[k] in GetFilteredTasks(tasks, ShowOverdue, AnyCategory, key, now)
    ensures forall t :: t in GetFilteredTasks(Toggle(tasks, tasks[k].id, now), ShowOverdue, AnyCategory, key, now)
                        ==> t.id != tasks[k].id
  {
    var id := tasks[k].id;
    var r := Toggle(tasks, id, now);
    assert tasks[k] in tasks;
    assert FirstIndex(tasks, id) == k;
    forall t | t in r && t.id == id
      ensures t.completed
    {
      var j :| 0 <= j < |r| && r[j] == t;
      assert j == k;
    }
  }

  /** Sorting by due date puts the one task without a due date last, wherever it was. */
  lemma UndatedTaskSortsLast(tasks: seq<Task>, u: Task, now: int)
    requires u in tasks && u.dueDate.None?
    requires forall t :: t in tasks && t != u ==> t.dueDate.Some?
    ensures var r := GetFilteredTasks(tasks, ShowAll, AnyCategory, ByDueDate, now);
      |r| > 0 && r[|r| - 1] == u
  {
    var r := GetFilteredTasks(tasks, ShowAll, AnyCategory, ByDueDate, now);
    assert u in r;
    UndatedLast(r, u);
  }

  lemma UndatedLast(r: seq<Task>, u: Task)
    requires u in r && u.dueDate.None?
    requires forall t :: t in r && t != u ==> t.dueDate.Some?
    requires forall i, j :: 0 <= i < j < |r| && r[j].dueDate.Some? ==> r[i].dueDate.Some?
    ensures |r| > 0 && r[|r| - 1] == u
  {
    var i :| 0 <= i < |r| && r[i] == u;
    var last := r[|r| - 1];
    assert last in r;
    if last != u {
      assert false;
    }
  }

  /** In the priority order every task of higher priority is shown before every task of
      lower priority, whatever the order of the collection. */
  lemma HigherPriorityFirst(tasks: seq<Task>, a: Task, b: Task, now: int)
    requires a in tasks && b in tasks && Rank(a.priority) > Rank(b.priority)
    ensures var r := GetFilteredTasks(tasks, ShowAll, AnyCategory, ByPriority, now);
      exists i, j :: 0 <= i < j < |r| && r[i] == a && r[j] == b
  {
    var r := GetFilteredTasks(tasks, ShowAll, AnyCategory, ByPriority, now);
    assert a in r && b in r;
    RankedBefore(r, a, b);
  }

  lemma RankedBefore(r: seq<Task>, a: Task, b: Task)
    requires a in r && b in r && Rank(a.priority) > Rank(b.priority)
    requires forall i, j :: 0 <= i < j < |r| ==> Rank(r[i].priority) >= Rank(r[j].priority)
    ensures exists i, j :: 0 <= i < j < |r| && r[i] == a && r[j] == b
  {
    var i :| 0 <= i < |r| && r[i] == a;
    var j :| 0 <= j < |r| && r[j] == b;
    assert i < j;
  }

  // ----- worked cases ------------------------------------------------------------

  function Sample(id: int, priority: Priority, completed: bool): Task
  {
    Task(id, "t", "", priority, "work", None, completed, id, if completed then Some(0) else None)
  }

  /** Of five tasks of which three are completed, clearing the completed ones leaves
      the two pending tasks in their original order. */
  lemma ClearCompletedExample()
    ensures ClearCompleted([Sample(1, Low, true), Sample(2, Low, false), Sample(3, High, true),
                            Sample(4, High, false), Sample(5, Urgent, true)], true)
         == [Sample(2, Low, false), Sample(4, High, false)]
  {
  }
}
