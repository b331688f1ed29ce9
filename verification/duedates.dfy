/** The due-date badge of a rendered task: its label (`formatDueDate`) and its
    colour class (`getDueBadgeClass`). */
module DueDates {

  import opened Tasks

  /** The label buckets. `OnDate` is rendered with `toLocaleDateString`. */
  datatype DueLabel =
    | NoLabel
    | OverdueBy(days: nat)
    | DueToday
    | DueTomorrow
    | DueInDays(days: nat)
    | OnDate(due: int)

  /** The bucket for a whole number of days until the due date. */
  function LabelForDays(diffDays: int, due: int): (l: DueLabel)
    ensures l.OverdueBy? <==> diffDays < 0
    ensures l.OverdueBy? ==> l.days == -diffDays && l.days >= 1
    ensures l == DueToday <==> diffDays == 0
    ensures l == DueTomorrow <==> diffDays == 1
    ensures l.DueInDays? <==> 2 <= diffDays <= 7
    ensures l.DueInDays? ==> l.days == diffDays
    ensures l.OnDate? <==> diffDays > 7
    ensures l.OnDate? ==> l.due == due
    ensures l != NoLabel
  {
    if diffDays < 0 then OverdueBy(-diffDays)
    else if diffDays == 0 then DueToday
    else if diffDays == 1 then DueTomorrow
    else if diffDays <= 7 then DueInDays(diffDays)
    else OnDate(due)
  }

  /** `formatDueDate`: the label as a function of the time left until the due instant,
      in whole days rounded up. */
  function FormatDueDate(t: Task, now: int): (l: DueLabel)
    ensures l == NoLabel <==> t.dueDate.None?
    ensures l.OverdueBy? <==> t.dueDate.Some? && t.dueDate.value - now <= -MsPerDay
    ensures l == DueToday <==> t.dueDate.Some? && -MsPerDay < t.dueDate.value - now <= 0
    ensures l == DueTomorrow <==> t.dueDate.Some? && 0 < t.dueDate.value - now <= MsPerDay
    ensures l.DueInDays? <==> t.dueDate.Some? && MsPerDay < t.dueDate.value - now <= 7 * MsPerDay
    ensures l.OnDate? <==> t.dueDate.Some? && t.dueDate.value - now > 7 * MsPerDay
    ensures l.OverdueBy? ==> l.days == -DaysUntilDue(t, now).value
    ensures l.DueInDays? ==> l.days == DaysUntilDue(t, now).value
    ensures l.OnDate? ==> l.due == t.dueDate.value
  {
    match t.dueDate
    case None => NoLabel
    case Some(due) =>
      var d := DaysUntilDue(t, now).value;
      DayBuckets(due - now, d);
      LabelForDays(d, due)
  }

  /** How the rounded-up day count falls into the buckets, stated on the raw difference. */
  lemma DayBuckets(diff: int, d: int)
    requires (d - 1) * MsPerDay < diff <= d * MsPerDay
    ensures d < 0 <==> diff <= -MsPerDay
    ensures d == 0 <==> -MsPerDay < diff <= 0
    ensures d == 1 <==> 0 < diff <= MsPerDay
    ensures 2 <= d <= 7 <==> MsPerDay < diff <= 7 * MsPerDay
    ensures d > 7 <==> diff > 7 * MsPerDay
  {
    if d < 0 {
      assert d * MsPerDay <= -MsPerDay;
    } else if d > 7 {
      assert (d - 1) * MsPerDay >= 7 * MsPerDay;
    } else {
      assert d == 0 || d == 1 || d == 2 || d == 3 || d == 4 || d == 5 || d == 6 || d == 7;
    }
  }

  /** The colour class of the due badge. */
  datatype Badge = NoBadge | OverdueBadge | TodayBadge

  /** `getDueBadgeClass`: overdue is tested first, so a task due earlier today that has
      passed is shown as overdue, never as today. */
  function DueBadgeClass(t: Task, now: int): (b: Badge)
    ensures b == OverdueBadge <==> IsOverdue(t, now)
    ensures b == TodayBadge <==> IsDueToday(t, now) && !IsOverdue(t, now)
    ensures t.dueDate.None? || t.completed ==> b == NoBadge
  {
    if t.dueDate.None? then NoBadge
    else if IsOverdue(t, now) then OverdueBadge
    else if IsDueToday(t, now) then TodayBadge
    else NoBadge
  }

  /** A pending task labelled "Overdue by N days" has the overdue badge. */
  lemma OverdueLabelHasOverdueBadge(t: Task, now: int)
    requires !t.completed && FormatDueDate(t, now).OverdueBy?
    ensures IsOverdue(t, now) && DueBadgeClass(t, now) == OverdueBadge
  {
  }

  /** The label and the badge measure "today" differently: a pending task whose due
      instant passed a moment ago is labelled "Due today" yet badged overdue. */
  lemma JustPassedIsTodayLabelOverdueBadge(t: Task, now: int)
    requires t.dueDate == Some(now - 1) && !t.completed
    ensures FormatDueDate(t, now) == DueToday
    ensures DueBadgeClass(t, now) == OverdueBadge
  {
  }
}
