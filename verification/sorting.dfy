/** The four sort orders of the task view and the stable sort that applies them.
    Each order is given, as in task-manager.js, by a comparator whose sign says
    which task goes first; the sort itself is an insertion sort proved to return a
    sorted permutation of its input that keeps tied tasks in their original order
    (the stability `Array.prototype.sort` guarantees). */
module Sorting {

  import opened Seqs
  import opened Tasks

  datatype SortKey = ByCreated | ByPriority | ByDueDate | ByTitle

  /** Lexicographic comparison of code points, standing in for `localeCompare`:
      negative, zero or positive as `a` sorts before, equal to or after `b`. */
  function LexCompare(a: string, b: string): (c: int)
    ensures -1 <= c <= 1
    ensures c == 0 <==> a == b
  {
    if a == [] then (if b == [] then 0 else -1)
    else if b == [] then 1
    else if a[0] < b[0] then -1
    else if a[0] > b[0] then 1
    else
      var c := LexCompare(a[1..], b[1..]);
      assert a == [a[0]] + a[1..] && b == [b[0]] + b[1..];
      c
  }

  /** Swapping the arguments negates the comparison. */
  lemma {:induction false} LexAntisymmetric(a: string, b: string)
    ensures LexCompare(a, b) == -LexCompare(b, a)
  {
    if a != [] && b != [] && a[0] == b[0] {
      LexAntisymmetric(a[1..], b[1..]);
    }
  }

  lemma {:induction false} LexTransitive(a: string, b: string, c: string)
    requires LexCompare(a, b) <= 0 && LexCompare(b, c) <= 0
    ensures LexCompare(a, c) <= 0
  {
    if a != [] && b != [] && c != [] && a[0] == b[0] && b[0] == c[0] {
      LexTransitive(a[1..], b[1..], c[1..]);
    }
  }

  /** The comparator of `getFilteredTasks` for each sort key. */
  function Compare(key: SortKey, a: Task, b: Task): int
  {
    match key
    case ByPriority => Rank(b.priority) - Rank(a.priority)
    case ByDueDate =>
      if a.dueDate.None? && b.dueDate.None? then 0
      else if a.dueDate.None? then 1
      else if b.dueDate.None? then -1
      else a.dueDate.value - b.dueDate.value
    case ByTitle => LexCompare(a.title, b.title)
    case ByCreated => b.createdAt - a.createdAt
  }

  /** `a` may precede `b`: the comparator does not ask to swap them. */
  predicate InOrder(key: SortKey, a: Task, b: Task)
  {
    Compare(key, a, b) <= 0
  }

  /** Every comparator orders any two tasks one way or the other. */
  lemma InOrderTotal(key: SortKey, a: Task, b: Task)
    ensures InOrder(key, a, b) || InOrder(key, b, a)
  {
    if key == ByTitle {
      LexAntisymmetric(a.title, b.title);
    }
  }

  lemma InOrderTransitive(key: SortKey, a: Task, b: Task, c: Task)
    requires InOrder(key, a, b) && InOrder(key, b, c)
    ensures InOrder(key, a, c)
  {
    if key == ByTitle {
      LexTransitive(a.title, b.title, c.title);
    }
  }

  ghost predicate Sorted(key: SortKey, s: seq<Task>)
  {
    forall i, j :: 0 <= i < j < |s| ==> InOrder(key, s[i], s[j])
  }

  /** Neither task goes before the other: the comparator returns 0. */
  predicate Tied(key: SortKey, a: Task, b: Task)
  {
    InOrder(key, a, b) && InOrder(key, b, a)
  }

  function TiedWith(key: SortKey, k: Task): Task -> bool
  {
    (t: Task) => Tied(key, t, k)
  }

  /** Putting in front an element that may precede everything keeps a sequence sorted. */
  lemma ConsSorted(key: SortKey, x: Task, s: seq<Task>)
    requires Sorted(key, s)
    requires forall j :: 0 <= j < |s| ==> InOrder(key, x, s[j])
    ensures Sorted(key, [x] + s)
  {
    var r := [x] + s;
    forall i, j | 0 <= i < j < |r|
      ensures InOrder(key, r[i], r[j])
    {
      if i > 0 {
        assert r[i] == s[i - 1] && r[j] == s[j - 1];
      } else {
        assert r[j] == s[j - 1];
      }
    }
  }

  /** If `h` may precede `x` and every element of `tail`, it may precede every element
      of any arrangement of them. */
  lemma PrecedesAll(key: SortKey, h: Task, x: Task, tail: seq<Task>, rest: seq<Task>)
    requires InOrder(key, h, x)
    requires forall j :: 0 <= j < |tail| ==> InOrder(key, h, tail[j])
    requires multiset(rest) == multiset(tail) + multiset{x}
    ensures forall j :: 0 <= j < |rest| ==> InOrder(key, h, rest[j])
  {
    forall j | 0 <= j < |rest|
      ensures InOrder(key, h, rest[j])
    {
      assert rest[j] in multiset(rest);
      if rest[j] != x {
        assert rest[j] in multiset(tail);
        var i :| 0 <= i < |tail| && tail[i] == rest[j];
      }
    }
  }

  lemma SortedTail(key: SortKey, s: seq<Task>)
    requires Sorted(key, s) && s != []
    ensures Sorted(key, s[1..])
  {
  }

  /** Insert `x` into a sorted sequence before the first element it may precede. */
  function Insert(key: SortKey, x: Task, s: seq<Task>): (r: seq<Task>)
    requires Sorted(key, s)
    ensures multiset(r) == multiset(s) + multiset{x}
    ensures Sorted(key, r)
  {
    if s == [] then [x]
    else if InOrder(key, x, s[0]) then
      assert forall j :: 0 <= j < |s| ==> InOrder(key, x, s[j]) by {
        forall j | 0 < j < |s|
          ensures InOrder(key, x, s[j])
        {
          InOrderTransitive(key, x, s[0], s[j]);
        }
      }
      ConsSorted(key, x, s);
      [x] + s
    else
      SortedTail(key, s);
      var rest := Insert(key, x, s[1..]);
      assert s == [s[0]] + s[1..];
      InOrderTotal(key, x, s[0]);
      PrecedesAll(key, s[0], x, s[1..], rest);
      ConsSorted(key, s[0], rest);
      [s[0]] + rest
  }

  /** Stable insertion sort by the comparator of `key`. */
  function InsertionSort(key: SortKey, s: seq<Task>): (r: seq<Task>)
    ensures multiset(r) == multiset(s)
    ensures Sorted(key, r)
  {
    if s == [] then []
    else
      assert s == [s[0]] + s[1..];
      Insert(key, s[0], InsertionSort(key, s[1..]))
  }

  lemma TiedTransitive(key: SortKey, a: Task, b: Task, c: Task)
    requires Tied(key, a, b) && Tied(key, b, c)
    ensures Tied(key, a, c)
  {
    InOrderTransitive(key, a, b, c);
    InOrderTransitive(key, c, b, a);
  }

  /** Inserting `x` puts it before every element tied with it. */
  lemma {:induction false} InsertStable(key: SortKey, x: Task, s: seq<Task>, k: Task)
    requires Sorted(key, s)
    ensures Filter(Insert(key, x, s), TiedWith(key, k))
         == (if Tied(key, x, k) then [x] else []) + Filter(s, TiedWith(key, k))
  {
    var p := TiedWith(key, k);
    if s == [] {
      FilterCons(x, [], p);
    } else if InOrder(key, x, s[0]) {
      FilterCons(x, s, p);
    } else {
      SortedTail(key, s);
      var rest := Insert(key, x, s[1..]);
      assert Insert(key, x, s) == [s[0]] + rest;
      InsertStable(key, x, s[1..], k);
      NotBothTied(key, x, s[0], k);
      assert s == [s[0]] + s[1..];
      FilterPastHead(p, x, s[0], rest, s[1..]);
    }
  }

  /** `x` passes over a head `h` when not both are kept: filtering keeps `x` in front. */
  lemma FilterPastHead<T(!new)>(p: T -> bool, x: T, h: T, rest: seq<T>, tail: seq<T>)
    requires Filter(rest, p) == (if p(x) then [x] else []) + Filter(tail, p)
    requires !(p(x) && p(h))
    ensures Filter([h] + rest, p) == (if p(x) then [x] else []) + Filter([h] + tail, p)
  {
    FilterCons(h, rest, p);
    FilterCons(h, tail, p);
  }

  /** Two tasks the comparator keeps apart are not both tied with a third. */
  lemma NotBothTied(key: SortKey, x: Task, y: Task, k: Task)
    requires !InOrder(key, x, y)
    ensures !(Tied(key, x, k) && Tied(key, y, k))
  {
    if Tied(key, x, k) && Tied(key, y, k) {
      TiedTransitive(key, x, k, y);
    }
  }

  /** The sort is stable: the tasks tied with any `k` come out in their input order. */
  lemma {:induction false} SortStable(key: SortKey, s: seq<Task>, k: Task)
    ensures Filter(InsertionSort(key, s), TiedWith(key, k)) == Filter(s, TiedWith(key, k))
  {
    if s != [] {
      SortStable(key, s[1..], k);
      InsertStable(key, s[0], InsertionSort(key, s[1..]), k);
      assert s == [s[0]] + s[1..];
      FilterCons(s[0], s[1..], TiedWith(key, k));
    }
  }
}
