/** What the manager derives for display: which tasks the two filter
    selects let through, the three summary counts, and the relative-date
    bucket shown under each task. */
module TaskView {
  import opened Seqs
  import opened Tasks

  /** The value of one filter select: "all", or one particular value. */
  datatype Choice<T> = All | Only(value: T)

  datatype TaskFilter = TaskFilter(priority: Choice<Priority>, status: Choice<Status>)

  /** The predicate `filterTasks` applies to every task element: the
      priority matches AND the status matches, where "all" matches anything. */
  predicate Shows(f: TaskFilter, t: Task) {
    && (f.priority.All? || t.priority == f.priority.value)
    && (f.status.All? || t.status == f.status.value)
  }

  function ShowsPred(f: TaskFilter): Task -> bool {
    t => Shows(f, t)
  }

  /** The tasks `filterTasks` hides under `f`. */
  function HidesPred(f: TaskFilter): Task -> bool {
    t => !Shows(f, t)
  }

  /** The tasks left displayed under `f`, in list order. */
  function Visible(ts: seq<Task>, f: TaskFilter): (r: seq<Task>)
    ensures forall j :: 0 <= j < |r| ==> r[j] in ts && Shows(f, r[j])
    ensures forall j :: 0 <= j < |ts| && Shows(f, ts[j]) ==> ts[j] in r
    ensures IsSubsequence(r, ts)
    ensures |r| + |Filter(ts, HidesPred(f))| == |ts|
  {
    FilterIsSubsequence(ts, ShowsPred(f));
    FilterPartition(ts, ShowsPred(f), HidesPred(f));
    Filter(ts, ShowsPred(f))
  }

  /** The Escape shortcut: both selects go back to "all". */
  function ClearFilters(f: TaskFilter): (r: TaskFilter)
    ensures forall t :: Shows(r, t)
  {
    TaskFilter(All, All)
  }

  /** With both selects on "all" (what Escape produces), every task is
      displayed, in list order. */
  lemma ClearedFilterShowsEverything(ts: seq<Task>, f: TaskFilter)
    ensures Visible(ts, ClearFilters(f)) == ts
  {
    FilterKeepsAll(ts, ShowsPred(ClearFilters(f)));
  }

  /** A filter on one priority and one status shows exactly the tasks
      having both. */
  lemma VisibleIsConjunction(ts: seq<Task>, p: Priority, st: Status, t: Task)
    ensures t in Visible(ts, TaskFilter(Only(p), Only(st)))
            <==> t in ts && t.priority == p && t.status == st
  {
  }

  /** The numbers `updateStatistics` shows. */
  datatype Statistics = Statistics(total: nat, completed: nat, pending: nat)

  /** `updateStatistics`: total is the list length, completed counts the
      completed tasks, and pending is computed as the difference, which is
      exactly the number of pending tasks. */
  function Stats(ts: seq<Task>): (r: Statistics)
    ensures r.total == |ts|
    ensures r.completed + r.pending == r.total
    ensures r.pending == |Filter(ts, IsPending)|
    ensures r.completed == |Filter(ts, IsCompleted)|
  {
    var completed := |Filter(ts, IsCompleted)|;
    FilterPartition(ts, IsCompleted, IsPending);
    Statistics(|ts|, completed, |ts| - completed)
  }

  /** Milliseconds in a day, `1000 * 60 * 60 * 24`. */
  const DayMs: int := 86_400_000

  function Abs(x: int): nat {
    if x < 0 then -x else x
  }

  /** `Math.ceil(x / DayMs)` for a non-negative whole number of milliseconds:
      the least number of whole days covering `x`. */
  function CeilDays(x: nat): (q: nat)
    ensures q * DayMs >= x
    ensures q == 0 || (q - 1) * DayMs < x
  {
    (x + DayMs - 1) / DayMs
  }

  /** The four kinds of text `formatDate` produces; the absolute date is
      locale text outside the model. */
  datatype DateLabel = Today | Yesterday | DaysAgo(days: nat) | AbsoluteDate

  /** `formatDate` AS WRITTEN, on the signed difference `now - createdAt`
      in milliseconds. */
  function RelativeDate(diffMs: int): (r: DateLabel)
    ensures r == Today <==> 0 < Abs(diffMs) <= DayMs
    ensures r == Yesterday <==> DayMs < Abs(diffMs) <= 2 * DayMs
    ensures r.DaysAgo? <==> diffMs == 0 || 2 * DayMs < Abs(diffMs) <= 7 * DayMs
    ensures r.DaysAgo? ==> (r.days == 0 <==> diffMs == 0)
    ensures r.DaysAgo? ==> r.days <= 7 && r.days * DayMs >= Abs(diffMs)
                           && (r.days == 0 || (r.days - 1) * DayMs < Abs(diffMs))
    ensures r == AbsoluteDate <==> Abs(diffMs) > 7 * DayMs
  {
    var days := CeilDays(Abs(diffMs));
    if days == 1 then Today
    else if days == 2 then Yesterday
    else if days <= 7 then DaysAgo(days)
    else AbsoluteDate
  }

  /** `formatDate` as evidently intended: a difference of at most one day,
      including none at all, reads "today"; every other difference gets the
      label the code as written gives it. */
  function RelativeDateFixed(diffMs: int): (r: DateLabel)
    ensures r == Today <==> Abs(diffMs) <= DayMs
    ensures diffMs != 0 ==> r == RelativeDate(diffMs)
    ensures r.DaysAgo? ==> 3 <= r.days <= 7
  {
    var days := CeilDays(Abs(diffMs));
    if days <= 1 then Today
    else if days == 2 then Yesterday
    else if days <= 7 then DaysAgo(days)
    else AbsoluteDate
  }
}
