/** `getFilteredTasks`: the view of the collection the page shows, computed from the
    status filter, the category filter and the sort key. */
module View {

  import opened Seqs
  import opened Tasks
  import opened Sorting

  /** The status filter buttons. `ShowAll` also stands for any value the `switch`
      does not name, since those fall through and keep every task. */
  datatype StatusFilter = ShowAll | ShowPending | ShowCompleted | ShowOverdue

  /** The category-select value that disables the category filter. */
  const AnyCategory: string := "all"

  predicate KeepsStatus(f: StatusFilter, t: Task, now: int)
  {
    match f
    case ShowAll => true
    case ShowPending => !t.completed
    case ShowCompleted => t.completed
    case ShowOverdue => IsOverdue(t, now)
  }

  predicate KeepsCategory(category: string, t: Task)
  {
    category == AnyCategory || t.category == category
  }

  /** The status `switch` of `getFilteredTasks`. */
  function ByStatus(tasks: seq<Task>, f: StatusFilter, now: int): seq<Task>
  {
    match f
    case ShowAll => tasks
    case ShowPending => Filter(tasks, Not(Done))
    case ShowCompleted => Filter(tasks, Done)
    case ShowOverdue => Filter(tasks, OverdueAt(now))
  }

  /** The category step of `getFilteredTasks`, applied after the status step. */
  function ByCategory(tasks: seq<Task>, category: string): seq<Task>
  {
    if category != AnyCategory then Filter(tasks, CategoryKept(category)) else tasks
  }

  /** `getFilteredTasks`: filter by status, then by category, then sort stably. */
  function GetFilteredTasks(tasks: seq<Task>, f: StatusFilter, category: string,
                            key: SortKey, now: int): (r: seq<Task>)
    ensures forall t :: multiset(r)[t]
                     == if KeepsStatus(f, t, now) && KeepsCategory(category, t) then multiset(tasks)[t] else 0
    ensures forall t :: t in r <==> t in tasks && KeepsStatus(f, t, now) && KeepsCategory(category, t)
    ensures Sorted(key, r)
    ensures key == ByPriority ==>
      forall i, j :: 0 <= i < j < |r| ==> Rank(r[i].priority) >= Rank(r[j].priority)
    ensures key == ByDueDate ==>
      forall i, j :: 0 <= i < j < |r| && r[j].dueDate.Some? ==>
        r[i].dueDate.Some? && r[i].dueDate.value <= r[j].dueDate.value
    ensures key == ByCreated ==>
      forall i, j :: 0 <= i < j < |r| ==> r[i].createdAt >= r[j].createdAt
    ensures key == ByTitle ==>
      forall i, j :: 0 <= i < j < |r| ==> LexCompare(r[i].title, r[j].title) <= 0
    ensures forall k :: Filter(r, TiedWith(key, k))
                     == Filter(Filter(tasks, Selects(f, category, now)), TiedWith(key, k))
  {
    var selected := ByCategory(ByStatus(tasks, f, now), category);
    SelectionIsFilter(tasks, f, category, now);
    SortStableAll(key, selected);
    var r := InsertionSort(key, selected);
    ViewContents(tasks, f, category, now, r);
    SortedMeaning(key, r);
    r
  }

  /** A permutation of the selection holds each selected task as often as the collection does. */
  lemma ViewContents(tasks: seq<Task>, f: StatusFilter, category: string, now: int, r: seq<Task>)
    requires multiset(r) == multiset(Filter(tasks, Selects(f, category, now)))
    ensures forall t :: multiset(r)[t]
                     == if KeepsStatus(f, t, now) && KeepsCategory(category, t) then multiset(tasks)[t] else 0
    ensures forall t :: t in r <==> t in tasks && KeepsStatus(f, t, now) && KeepsCategory(category, t)
  {
    var p := Selects(f, category, now);
    FilterMultiset(tasks, p);
    forall t
      ensures multiset(r)[t]
           == if KeepsStatus(f, t, now) && KeepsCategory(category, t) then multiset(tasks)[t] else 0
      ensures t in r <==> t in tasks && KeepsStatus(f, t, now) && KeepsCategory(category, t)
    {
      assert p(t) == (KeepsStatus(f, t, now) && KeepsCategory(category, t));
      assert t in r <==> multiset(r)[t] > 0;
      assert t in tasks <==> multiset(tasks)[t] > 0;
    }
  }

  /** What sortedness says for each key, stated on the task fields. */
  lemma SortedMeaning(key: SortKey, r: seq<Task>)
    requires Sorted(key, r)
    ensures key == ByPriority ==>
      forall i, j :: 0 <= i < j < |r| ==> Rank(r[i].priority) >= Rank(r[j].priority)
    ensures key == ByDueDate ==>
      forall i, j :: 0 <= i < j < |r| && r[j].dueDate.Some? ==>
        r[i].dueDate.Some? && r[i].dueDate.value <= r[j].dueDate.value
    ensures key == ByCreated ==>
      forall i, j :: 0 <= i < j < |r| ==> r[i].createdAt >= r[j].createdAt
    ensures key == ByTitle ==>
      forall i, j :: 0 <= i < j < |r| ==> LexCompare(r[i].title, r[j].title) <= 0
  {
  }

  /** The sort keeps the order of tied tasks, for every tie class at once. */
  lemma SortStableAll(key: SortKey, s: seq<Task>)
    ensures forall k :: Filter(InsertionSort(key, s), TiedWith(key, k)) == Filter(s, TiedWith(key, k))
  {
    forall k {
      SortStable(key, s, k);
    }
  }

  function StatusKept(f: StatusFilter, now: int): Task -> bool
  {
    (t: Task) => KeepsStatus(f, t, now)
  }

  function CategoryKept(category: string): Task -> bool
  {
    (t: Task) => KeepsCategory(category, t)
  }

  /** The selection both filters make together, as one predicate. */
  function Selects(f: StatusFilter, category: string, now: int): Task -> bool
  {
    And(StatusKept(f, now), CategoryKept(category))
  }

  /** The status `switch` selects the tasks `KeepsStatus` accepts. */
  lemma StatusStepIsFilter(tasks: seq<Task>, f: StatusFilter, now: int)
    ensures ByStatus(tasks, f, now) == Filter(tasks, StatusKept(f, now))
  {
    match f
    case ShowAll => FilterKeepsAll(tasks, StatusKept(f, now));
    case ShowPending => PendingStep(tasks, now);
    case ShowCompleted => CompletedStep(tasks, now);
    case ShowOverdue => OverdueStep(tasks, now);
  }

  lemma PendingStep(tasks: seq<Task>, now: int)
    ensures Filter(tasks, Not(Done)) == Filter(tasks, StatusKept(ShowPending, now))
  {
    forall i | 0 <= i < |tasks|
      ensures Not(Done)(tasks[i]) == StatusKept(ShowPending, now)(tasks[i])
    {
      var t := tasks[i];
      assert Not(Done)(t) == !Done(t);
      assert Done(t) == t.completed;
      assert StatusKept(ShowPending, now)(t) == KeepsStatus(ShowPending, t, now);
    }
    FilterCongruent(tasks, Not(Done), StatusKept(ShowPending, now));
  }

  lemma CompletedStep(tasks: seq<Task>, now: int)
    ensures Filter(tasks, Done) == Filter(tasks, StatusKept(ShowCompleted, now))
  {
    forall i | 0 <= i < |tasks|
      ensures Done(tasks[i]) == StatusKept(ShowCompleted, now)(tasks[i])
    {
      var t := tasks[i];
      assert Done(t) == t.completed;
      assert StatusKept(ShowCompleted, now)(t) == KeepsStatus(ShowCompleted, t, now);
    }
    FilterCongruent(tasks, Done, StatusKept(ShowCompleted, now));
  }

  lemma OverdueStep(tasks: seq<Task>, now: int)
    ensures Filter(tasks, OverdueAt(now)) == Filter(tasks, StatusKept(ShowOverdue, now))
  {
    forall i | 0 <= i < |tasks|
      ensures OverdueAt(now)(tasks[i]) == StatusKept(ShowOverdue, now)(tasks[i])
    {
      var t := tasks[i];
      assert OverdueAt(now)(t) == IsOverdue(t, now);
      assert StatusKept(ShowOverdue, now)(t) == KeepsStatus(ShowOverdue, t, now);
    }
    FilterCongruent(tasks, OverdueAt(now), StatusKept(ShowOverdue, now));
  }

  /** The category step selects the tasks `KeepsCategory` accepts. */
  lemma CategoryStepIsFilter(tasks: seq<Task>, category: string)
    ensures ByCategory(tasks, category) == Filter(tasks, CategoryKept(category))
  {
    if category == AnyCategory {
      FilterKeepsAll(tasks, CategoryKept(category));
    }
  }

  /** The status step followed by the category step is the single selection `Selects`. */
  lemma SelectionIsFilter(tasks: seq<Task>, f: StatusFilter, category: string, now: int)
    ensures ByCategory(ByStatus(tasks, f, now), category) == Filter(tasks, Selects(f, category, now))
  {
    StatusStepIsFilter(tasks, f, now);
    CategoryStepIsFilter(Filter(tasks, StatusKept(f, now)), category);
    FilterFilter(tasks, StatusKept(f, now), CategoryKept(category));
  }
}
