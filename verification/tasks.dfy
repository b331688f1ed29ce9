/** The task record of task-manager.js, its title validation, and the status
    predicates derived from it on every read (overdue, due today, days until due).
    Timestamps are integers of milliseconds; "now" is always a parameter. */
module Tasks {

  import opened Seqs

  datatype Option<T> = None | Some(value: T)

  /** The four priorities offered by the form. */
  datatype Priority = Low | Medium | High | Urgent

  /** Severity rank used by the priority sort: urgent 4 > high 3 > medium 2 > low 1. */
  function Rank(p: Priority): int
  {
    match p
    case Low => 1
    case Medium => 2
    case High => 3
    case Urgent => 4
  }

  /** Milliseconds in a day, the divisor of every day computation. */
  const MsPerDay: int := 1000 * 60 * 60 * 24

  /** A task. An empty due-date field is `None`; a pending task has `completedAt == None`. */
  datatype Task = Task(
    id: int,
    title: string,
    description: string,
    priority: Priority,
    category: string,
    dueDate: Option<int>,
    completed: bool,
    createdAt: int,
    completedAt: Option<int>)

  /** The characters `String.prototype.trim` strips: the white space and line
      terminators of the ECMAScript grammar (TAB, LF, VT, FF, CR, SPACE, NBSP, the
      Unicode space separators, LS, PS and the byte-order mark). */
  predicate IsWhitespace(c: char)
  {
    c == ' ' || '\t' <= c <= '\r' || c == '\U{00A0}' || c == '\U{1680}'
    || '\U{2000}' <= c <= '\U{200A}' || c == '\U{2028}' || c == '\U{2029}'
    || c == '\U{202F}' || c == '\U{205F}' || c == '\U{3000}' || c == '\U{FEFF}'
  }

  /** A text that `trim` reduces to the empty string. */
  predicate IsBlank(s: string)
  {
    forall i :: 0 <= i < |s| ==> IsWhitespace(s[i])
  }

  /** Number of leading whitespace characters. */
  function LeadingSpace(s: string): (n: nat)
    ensures n <= |s|
    ensures IsBlank(s[..n])
    ensures n < |s| ==> !IsWhitespace(s[n])
  {
    if s == [] || !IsWhitespace(s[0]) then 0
    else
      var k := LeadingSpace(s[1..]);
      assert s[..k + 1] == [s[0]] + s[1..][..k];
      k + 1
  }

  /** Number of trailing whitespace characters. */
  function TrailingSpace(s: string): (n: nat)
    ensures n <= |s|
    ensures IsBlank(s[|s| - n..])
    ensures n < |s| ==> !IsWhitespace(s[|s| - n - 1])
  {
    if s == [] || !IsWhitespace(s[|s| - 1]) then 0
    else
      var init := s[..|s| - 1];
      var k := TrailingSpace(init);
      assert s[|s| - (k + 1)..] == init[|init| - k..] + [s[|s| - 1]];
      k + 1
  }

  /** `s` with leading and trailing whitespace removed. */
  function Trim(s: string): (r: string)
    ensures r == [] <==> IsBlank(s)
    ensures r != [] ==> !IsWhitespace(r[0]) && !IsWhitespace(r[|r| - 1])
    ensures exists a, m :: Strips(s, a, m) && r == s[a..m]
  {
    var a := LeadingSpace(s);
    var b := TrailingSpace(s[a..]);
    assert s[|s| - b..] == s[a..][|s[a..]| - b..];
    TrimSlice(s, a, b);
    s[a..|s| - b]
  }

  /** `s[a..m]` is `s` without a blank prefix and a blank suffix. */
  ghost predicate Strips(s: string, a: int, m: int)
  {
    0 <= a <= m <= |s| && IsBlank(s[..a]) && IsBlank(s[m..])
  }

  /** The facts `Trim` promises, for the slice between a maximal blank prefix of
      length `a` and a maximal blank suffix of length `b`. */
  lemma TrimSlice(s: string, a: nat, b: nat)
    requires a + b <= |s|
    requires IsBlank(s[..a]) && (a < |s| ==> !IsWhitespace(s[a]))
    requires IsBlank(s[|s| - b..]) && (a + b < |s| ==> !IsWhitespace(s[|s| - b - 1]))
    ensures s[a..|s| - b] == [] <==> IsBlank(s)
    ensures Strips(s, a, |s| - b)
  {
    if a < |s| - b {
      NotBlank(s, a);
    } else {
      assert s[..a] == s;
    }
  }

  lemma NotBlank(s: string, i: nat)
    requires i < |s| && !IsWhitespace(s[i])
    ensures !IsBlank(s)
  {
  }

  /** Trimming twice is trimming once. */
  lemma TrimIdempotent(s: string)
    ensures Trim(Trim(s)) == Trim(s)
  {
    var r := Trim(s);
    if r != [] {
      assert LeadingSpace(r) == 0;
      assert r[0..] == r;
      assert TrailingSpace(r) == 0;
    }
  }

  /** Overdue: a due date is set, the task is pending and the due instant has passed. */
  predicate IsOverdue(t: Task, now: int)
  {
    t.dueDate.Some? && !t.completed && t.dueDate.value < now
  }

  /** The calendar day a timestamp falls on (floor division). */
  function Day(time: int): int
  {
    time / MsPerDay
  }

  /** Due today: a due date is set, the task is pending and the due date falls on today's calendar day. */
  predicate IsDueToday(t: Task, now: int)
  {
    t.dueDate.Some? && !t.completed && Day(t.dueDate.value) == Day(now)
  }

  /** A task due today lies less than a day away from now, on either side. */
  lemma DueTodayWithinDay(t: Task, now: int)
    requires IsDueToday(t, now)
    ensures -MsPerDay < t.dueDate.value - now < MsPerDay
  {
    var due := t.dueDate.value;
    var k := Day(now);
    assert k * MsPerDay <= due < (k + 1) * MsPerDay;
    assert k * MsPerDay <= now < (k + 1) * MsPerDay;
  }

  /** `Math.ceil(a / b)` for a positive divisor. */
  function CeilDiv(a: int, b: int): (q: int)
    requires b > 0
    ensures (q - 1) * b < a <= q * b
  {
    var f := (-a) / b;
    assert f * b <= -a < (f + 1) * b;
    -f
  }

  /** Whole days until the due date, rounded up; absent when there is no due date. */
  function DaysUntilDue(t: Task, now: int): (d: Option<int>)
    ensures d.Some? <==> t.dueDate.Some?
    ensures d.Some? ==> (d.value - 1) * MsPerDay < t.dueDate.value - now <= d.value * MsPerDay
  {
    match t.dueDate
    case None => None
    case Some(due) => Some(CeilDiv(due - now, MsPerDay))
  }

  /** An overdue task has no whole day left: its rounded-up day count is at most 0. */
  lemma OverdueHasNoDaysLeft(t: Task, now: int)
    requires IsOverdue(t, now)
    ensures DaysUntilDue(t, now).Some? && DaysUntilDue(t, now).value <= 0
  {
  }

  function Done(t: Task): bool
  {
    t.completed
  }

  /** The tasks matched by `isOverdue` at time `now`. */
  function OverdueAt(now: int): Task -> bool
  {
    (t: Task) => IsOverdue(t, now)
  }

  /** How many tasks are completed (the count behind the stats and clear-completed). */
  function CompletedCount(tasks: seq<Task>): nat
  {
    |Filter(tasks, Done)|
  }
}
