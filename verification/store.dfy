/** The list transformations performed by the event handlers of task-manager.js
    (add, toggle, delete, edit, clear all, clear completed), as pure functions from
    the old collection to the new one. A `confirmed` parameter stands for the
    answer to the `confirm(...)` dialog; a declined dialog changes nothing. */
module Store {

  import opened Seqs
  import opened Tasks

  /** The ids present in the collection. */
  function Ids(tasks: seq<Task>): set<int>
  {
    set t | t in tasks :: t.id
  }

  predicate UniqueIds(tasks: seq<Task>)
  {
    forall i, j :: 0 <= i < j < |tasks| ==> tasks[i].id != tasks[j].id
  }

  /** `completedAt` is set exactly when the task is completed. */
  predicate CompletionConsistent(t: Task)
  {
    t.completed <==> t.completedAt.Some?
  }

  /** What every operation of the store keeps: distinct ids, non-blank titles and
      a completion time exactly on the completed tasks. */
  predicate Valid(tasks: seq<Task>)
  {
    && UniqueIds(tasks)
    && forall i :: 0 <= i < |tasks| ==> !IsBlank(tasks[i].title) && CompletionConsistent(tasks[i])
  }

  /** The position `Array.prototype.find` stops at: the first task with the id,
      or `|tasks|` when there is none. */
  function FirstIndex(tasks: seq<Task>, id: int): (i: nat)
    ensures i <= |tasks|
    ensures forall k :: 0 <= k < i ==> tasks[k].id != id
    ensures i < |tasks| ==> tasks[i].id == id
    ensures i == |tasks| <==> id !in Ids(tasks)
  {
    if tasks == [] then 0
    else if tasks[0].id == id then 0
    else
      var k := FirstIndex(tasks[1..], id);
      assert Ids(tasks) == {tasks[0].id} + Ids(tasks[1..]) by {
        assert tasks == [tasks[0]] + tasks[1..];
      }
      k + 1
  }

  // ----- add -------------------------------------------------------------------

  /** The task the constructor builds: pending, created now, never completed. */
  function NewTask(id: int, title: string, description: string, priority: Priority,
                   category: string, dueDate: Option<int>, now: int): Task
  {
    Task(id, title, description, priority, category, dueDate, false, now, None)
  }

  /** `addTask`: a title that trims to nothing is refused and nothing changes;
      otherwise a new pending task with the trimmed title and description is appended. */
  function Add(tasks: seq<Task>, id: int, title: string, description: string,
               priority: Priority, category: string, dueDate: Option<int>, now: int): (r: seq<Task>)
    ensures IsBlank(title) ==> r == tasks
    ensures !IsBlank(title) ==>
      && |r| == |tasks| + 1
      && r[..|tasks|] == tasks
      && r[|tasks|].id == id
      && r[|tasks|].title == Trim(title) && !IsBlank(r[|tasks|].title)
      && r[|tasks|].description == Trim(description)
      && r[|tasks|].priority == priority && r[|tasks|].category == category
      && r[|tasks|].dueDate == dueDate
      && !r[|tasks|].completed && r[|tasks|].completedAt == None
      && r[|tasks|].createdAt == now
  {
    var t := Trim(title);
    if t == [] then tasks
    else tasks + [NewTask(id, t, Trim(description), priority, category, dueDate, now)]
  }

  /** Adding under a fresh id keeps the store valid. */
  lemma AddValid(tasks: seq<Task>, id: int, title: string, description: string,
                 priority: Priority, category: string, dueDate: Option<int>, now: int)
    requires Valid(tasks) && id !in Ids(tasks)
    ensures Valid(Add(tasks, id, title, description, priority, category, dueDate, now))
  {
    if !IsBlank(title) {
      var t := NewTask(id, Trim(title), Trim(description), priority, category, dueDate, now);
      SnocValid(tasks, t);
    }
  }

  /** Appending a valid task under a fresh id keeps the collection valid. */
  lemma SnocValid(tasks: seq<Task>, t: Task)
    requires Valid(tasks) && t.id !in Ids(tasks)
    requires !IsBlank(t.title) && CompletionConsistent(t)
    ensures Valid(tasks + [t])
  {
    var r := tasks + [t];
    forall i, j | 0 <= i < j < |r|
      ensures r[i].id != r[j].id
    {
      assert r[i] == tasks[i];
      if j == |tasks| {
        assert tasks[i] in tasks;
      } else {
        assert r[j] == tasks[j];
      }
    }
  }

  // ----- toggle ----------------------------------------------------------------

  /** Flip `completed`, stamping `completedAt` with `now` on completion and clearing it on undo. */
  function Flip(t: Task, now: int): (u: Task)
    ensures u.completed == !t.completed
    ensures CompletionConsistent(u)
    ensures u.completed ==> u.completedAt == Some(now)
    ensures u.(completed := t.completed, completedAt := t.completedAt) == t
  {
    var done := !t.completed;
    t.(completed := done, completedAt := if done then Some(now) else None)
  }

  /** `toggleTask`: flips the first task with the id; an unknown id changes nothing. */
  function Toggle(tasks: seq<Task>, id: int, now: int): (r: seq<Task>)
    ensures |r| == |tasks|
    ensures id !in Ids(tasks) ==> r == tasks
    ensures forall k :: 0 <= k < |r| && k != FirstIndex(tasks, id) ==> r[k] == tasks[k]
    ensures FirstIndex(tasks, id) < |tasks| ==>
      var i := FirstIndex(tasks, id);
      && r[i].completed == !tasks[i].completed
      && CompletionConsistent(r[i])
      && (r[i].completed ==> r[i].completedAt == Some(now))
      && r[i].(completed := tasks[i].completed, completedAt := tasks[i].completedAt) == tasks[i]
    ensures Valid(tasks) ==> Valid(r)
  {
    var i := FirstIndex(tasks, id);
    if i == |tasks| then tasks else tasks[i := Flip(tasks[i], now)]
  }

  /** Toggling twice gives every task back its `completed` flag and whether it has a
      completion time; a task that started pending comes back exactly as it was. */
  lemma ToggleTwice(tasks: seq<Task>, id: int, now1: int, now2: int)
    requires Valid(tasks)
    ensures var r := Toggle(Toggle(tasks, id, now1), id, now2);
      && |r| == |tasks|
      && (forall k :: 0 <= k < |r| ==>
            && r[k].(completedAt := tasks[k].completedAt) == tasks[k]
            && (r[k].completedAt.Some? <==> tasks[k].completedAt.Some?))
      && (id in Ids(tasks) && !tasks[FirstIndex(tasks, id)].completed ==> r == tasks)
  {
    var once := Toggle(tasks, id, now1);
    var i := FirstIndex(tasks, id);
    if i < |tasks| {
      assert FirstIndex(once, id) == i by {
        assert forall k :: 0 <= k < |once| ==> once[k].id == tasks[k].id;
      }
    }
  }

  // ----- delete ----------------------------------------------------------------

  function HasId(id: int): Task -> bool
  {
    (t: Task) => t.id == id
  }

  /** `deleteTask`: on confirmation, every task with the id is removed and the others
      keep their relative order. */
  function Delete(tasks: seq<Task>, id: int, confirmed: bool): (r: seq<Task>)
    ensures !confirmed ==> r == tasks
    ensures confirmed ==>
      && id !in Ids(r)
      && SubsequenceOf(r, tasks)
      && forall t :: multiset(r)[t] == if t.id == id then 0 else multiset(tasks)[t]
  {
    FilterMultiset(tasks, Not(HasId(id)));
    if confirmed then Filter(tasks, Not(HasId(id))) else tasks
  }

  /** Deleting by the id of the `k`-th task removes exactly one task. */
  lemma DeleteRemovesOne(tasks: seq<Task>, k: nat)
    requires Valid(tasks) && k < |tasks|
    ensures |Delete(tasks, tasks[k].id, true)| == |tasks| - 1
  {
    var id := tasks[k].id;
    FilterSplit(tasks, HasId(id));
    OnlyOneWithId(tasks, k);
  }

  lemma {:induction false} OnlyOneWithId(tasks: seq<Task>, k: nat)
    requires UniqueIds(tasks) && k < |tasks|
    ensures Filter(tasks, HasId(tasks[k].id)) == [tasks[k]]
  {
    var id := tasks[k].id;
    assert tasks == [tasks[0]] + tasks[1..];
    assert forall i :: 0 <= i < |tasks[1..]| ==> tasks[1..][i] == tasks[i + 1];
    if k == 0 {
      FilterNoneWithId(tasks[1..], id);
    } else {
      assert tasks[1..][k - 1] == tasks[k];
      OnlyOneWithId(tasks[1..], k - 1);
    }
  }

  lemma {:induction false} FilterNoneWithId(tasks: seq<Task>, id: int)
    requires forall i :: 0 <= i < |tasks| ==> tasks[i].id != id
    ensures Filter(tasks, HasId(id)) == []
  {
    if tasks != [] {
      FilterNoneWithId(tasks[1..], id);
    }
  }

  /** Deleting keeps the store valid. */
  lemma DeleteValid(tasks: seq<Task>, id: int, confirmed: bool)
    requires Valid(tasks)
    ensures Valid(Delete(tasks, id, confirmed))
  {
    if confirmed {
      SubsequenceValid(Delete(tasks, id, confirmed), tasks);
    }
  }

  /** Any subsequence of a valid collection is valid. */
  lemma {:induction false} SubsequenceValid(a: seq<Task>, b: seq<Task>)
    requires Valid(b) && SubsequenceOf(a, b)
    ensures Valid(a)
    decreases |b|
  {
    if a != [] {
      if a[0] == b[0] && SubsequenceOf(a[1..], b[1..]) {
        SubsequenceValid(a[1..], b[1..]);
        assert a[0] in b;
        forall j | 0 < j < |a|
          ensures a[0].id != a[j].id
        {
          assert a[j] == a[1..][j - 1];
          SubsequenceMember(a[1..], b[1..], j - 1);
        }
      } else {
        SubsequenceValid(a, b[1..]);
      }
    }
  }

  /** An element of a subsequence sits at some position of the original. */
  lemma {:induction false} SubsequenceMember(a: seq<Task>, b: seq<Task>, j: nat)
    requires SubsequenceOf(a, b) && j < |a|
    ensures exists i :: 0 <= i < |b| && b[i] == a[j]
    decreases |b|
  {
    if a[0] == b[0] && SubsequenceOf(a[1..], b[1..]) {
      if j > 0 {
        SubsequenceMember(a[1..], b[1..], j - 1);
        var i :| 0 <= i < |b[1..]| && b[1..][i] == a[1..][j - 1];
        assert b[i + 1] == a[j];
      } else {
        assert b[0] == a[0];
      }
    } else {
      SubsequenceMember(a, b[1..], j);
      var i :| 0 <= i < |b[1..]| && b[1..][i] == a[j];
      assert b[i + 1] == a[j];
    }
  }

  // ----- edit ------------------------------------------------------------------

  /** The handler runs only while an edit is in progress; JavaScript's falsy test on
      `editingTaskId` also treats an id of 0 as "no edit". */
  predicate Editing(editing: Option<int>)
  {
    editing.Some? && editing.value != 0
  }

  /** `saveEditedTask`: rewrites the five editable fields of the task being edited.
      Nothing changes when no edit is in progress, the id is gone, or the new title is blank. */
  function Edit(tasks: seq<Task>, editing: Option<int>, title: string, description: string,
                priority: Priority, category: string, dueDate: Option<int>): (r: seq<Task>)
    ensures |r| == |tasks|
    ensures !Editing(editing) || IsBlank(title) || editing.value !in Ids(tasks) ==> r == tasks
    ensures forall k :: 0 <= k < |r| ==>
      && r[k].id == tasks[k].id && r[k].completed == tasks[k].completed
      && r[k].createdAt == tasks[k].createdAt && r[k].completedAt == tasks[k].completedAt
    ensures Editing(editing) ==>
      var i := FirstIndex(tasks, editing.value);
      && (forall k :: 0 <= k < |r| && k != i ==> r[k] == tasks[k])
      && (i < |tasks| && !IsBlank(title) ==>
            && r[i].title == Trim(title) && r[i].description == Trim(description)
            && r[i].priority == priority && r[i].category == category && r[i].dueDate == dueDate)
    ensures Valid(tasks) ==> Valid(r)
  {
    if !Editing(editing) then tasks
    else
      var i := FirstIndex(tasks, editing.value);
      var t := Trim(title);
      if i == |tasks| || t == [] then tasks
      else tasks[i := tasks[i].(title := t, description := Trim(description),
                                priority := priority, category := category, dueDate := dueDate)]
  }

  // ----- clear -----------------------------------------------------------------

  /** `clearAllTasks`: on confirmation the collection becomes empty. */
  function ClearAll(tasks: seq<Task>, confirmed: bool): (r: seq<Task>)
    ensures confirmed ==> |r| == 0 && Valid(r)
    ensures !confirmed ==> r == tasks
  {
    if confirmed then [] else tasks
  }

  /** `clearCompletedTasks`: with nothing completed it changes nothing (and asks nothing);
      otherwise, on confirmation, exactly the pending tasks remain, in their order. */
  function ClearCompleted(tasks: seq<Task>, confirmed: bool): (r: seq<Task>)
    ensures CompletedCount(tasks) == 0 || !confirmed ==> r == tasks
    ensures confirmed ==>
      && SubsequenceOf(r, tasks)
      && |tasks| - |r| == CompletedCount(tasks)
      && forall t :: multiset(r)[t] == if t.completed then 0 else multiset(tasks)[t]
  {
    var completedCount := CompletedCount(tasks);
    FilterSplit(tasks, Done);
    FilterMultiset(tasks, Not(Done));
    if completedCount == 0 then
      NothingCompleted(tasks);
      tasks
    else if confirmed then Filter(tasks, Not(Done))
    else tasks
  }

  /** With no completed task, keeping the pending ones keeps everything. */
  lemma NothingCompleted(tasks: seq<Task>)
    requires CompletedCount(tasks) == 0
    ensures Filter(tasks, Not(Done)) == tasks
  {
    FilterKeepsAll(tasks, Not(Done));
  }

  /** Clearing completed tasks keeps the store valid. */
  lemma ClearCompletedValid(tasks: seq<Task>, confirmed: bool)
    requires Valid(tasks)
    ensures Valid(ClearCompleted(tasks, confirmed))
  {
    if confirmed {
      SubsequenceValid(ClearCompleted(tasks, confirmed), tasks);
    }
  }
}
