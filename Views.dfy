/**
 * The derived, read-only views of the task list: the five filter modes of
 * the task list, the overdue test, the four statistics counters and the
 * label shown for the number of days until a task is due.
 *
 * "Today" is the `YYYY-MM-DD` date the app reads from the clock; here it is
 * a parameter.
 */
module Views {
  import opened Strings
  import opened Sequences
  import opened Tasks

  predicate IsPending(t: Task)
  {
    !t.completed
  }

  predicate IsCompleted(t: Task)
  {
    t.completed
  }

  predicate IsHighPriority(t: Task)
  {
    t.priority == "alta"
  }

  /** The predicate of the `'overdue'` filter and of the overdue counter. */
  function OverdueOn(today: string): Task -> bool
  {
    (t: Task) => !t.completed && StrLess(t.date, today)
  }

  /** `isOverdue(date, completed)`: never for a completed task, else a due date before today. */
  function IsOverdue(date: string, completed: bool, today: string): (r: bool)
    ensures completed ==> !r
    ensures !completed ==> (r <==> StrLess(date, today))
  {
    if completed then false else StrLess(date, today)
  }

  /** The filter modes of the task list; any unknown filter name shows every task. */
  datatype Mode = All | Pending | Completed | Overdue | HighPriority

  /** The `switch` of `getFilteredTasks()` on the current filter name. */
  function ModeOf(filter: string): (m: Mode)
    ensures m == Pending <==> filter == "pending"
    ensures m == Completed <==> filter == "completed"
    ensures m == Overdue <==> filter == "overdue"
    ensures m == HighPriority <==> filter == "alta"
  {
    match filter
    case "pending" => Pending
    case "completed" => Completed
    case "overdue" => Overdue
    case "alta" => HighPriority
    case _ => All
  }

  /** `getFilteredTasks()` for mode `m`. */
  function FilteredTasks(ts: seq<Task>, m: Mode, today: string): (r: seq<Task>)
    ensures Subseq(r, ts)
    ensures m == Pending ==> forall t :: t in r <==> t in ts && !t.completed
    ensures m == Completed ==> forall t :: t in r <==> t in ts && t.completed
    ensures m == Overdue ==> forall t :: t in r <==> t in ts && !t.completed && StrLess(t.date, today)
    ensures m == HighPriority ==> forall t :: t in r <==> t in ts && t.priority == "alta"
    ensures m == Pending ==>
      forall t :: multiset(r)[t] == if !t.completed then multiset(ts)[t] else 0
    ensures m == Completed ==>
      forall t :: multiset(r)[t] == if t.completed then multiset(ts)[t] else 0
    ensures m == Overdue ==>
      forall t :: multiset(r)[t] == if !t.completed && StrLess(t.date, today) then multiset(ts)[t] else 0
    ensures m == HighPriority ==>
      forall t :: multiset(r)[t] == if t.priority == "alta" then multiset(ts)[t] else 0
    ensures m == All ==> r == ts
  {
    match m
    case Pending => Filter(ts, IsPending)
    case Completed => Filter(ts, IsCompleted)
    case Overdue => Filter(ts, OverdueOn(today))
    case HighPriority => Filter(ts, IsHighPriority)
    case All => SubseqReflexive(ts); ts
  }

  /** A task is listed under `'overdue'` exactly when `isOverdue` holds for it. */
  lemma OverdueFilterMatchesIsOverdue(ts: seq<Task>, today: string)
    ensures forall t :: t in FilteredTasks(ts, Overdue, today) <==>
      t in ts && IsOverdue(t.date, t.completed, today)
  {
  }

  /** The `'overdue'` list is the `'pending'` list filtered further, so never longer. */
  lemma OverdueWithinPending(ts: seq<Task>, today: string)
    ensures FilteredTasks(ts, Overdue, today)
         == Filter(FilteredTasks(ts, Pending, today), OverdueOn(today))
    ensures Subseq(FilteredTasks(ts, Overdue, today), FilteredTasks(ts, Pending, today))
  {
    FilterNarrow(ts, IsPending, OverdueOn(today));
  }

  lemma NoOverdueWhenAllCompleted(ts: seq<Task>, today: string)
    requires forall t :: t in ts ==> t.completed
    ensures FilteredTasks(ts, Overdue, today) == []
    ensures FilteredTasks(ts, Pending, today) == []
  {
  }

  /** A task that is overdue on some day stays overdue on every later day. */
  lemma OverdueGrowsWithToday(ts: seq<Task>, earlier: string, later: string)
    requires !StrLess(later, earlier)
    ensures forall t :: t in FilteredTasks(ts, Overdue, earlier) ==> t in FilteredTasks(ts, Overdue, later)
    ensures |FilteredTasks(ts, Overdue, earlier)| <= |FilteredTasks(ts, Overdue, later)|
  {
    forall t: Task | OverdueOn(earlier)(t) ensures OverdueOn(later)(t) {
      StrLessTotal(earlier, later);
      if earlier != later {
        StrLessTransitive(t.date, earlier, later);
      }
    }
    FilterNarrow(ts, OverdueOn(later), OverdueOn(earlier));
  }

  /** The four counters of the statistics panel. */
  datatype Stats = Stats(total: nat, pending: nat, completed: nat, overdue: nat)

  /** The counting part of `updateStats()`. */
  function ComputeStats(ts: seq<Task>, today: string): (r: Stats)
    ensures r.total == |ts|
    ensures r.pending + r.completed == r.total
    ensures r.overdue <= r.pending
    ensures r.pending == |FilteredTasks(ts, Pending, today)|
    ensures r.completed == |FilteredTasks(ts, Completed, today)|
    ensures r.overdue == |FilteredTasks(ts, Overdue, today)|
  {
    FilterComplement(ts, IsPending, IsCompleted);
    FilterNarrow(ts, IsPending, OverdueOn(today));
    Stats(|ts|,
          |Filter(ts, IsPending)|,
          |Filter(ts, IsCompleted)|,
          |Filter(ts, OverdueOn(today))|)
  }

  /** Creating a task adds one pending task, and one overdue task when its date is already past. */
  lemma StatsAfterCreate(ts: seq<Task>, id: int, f: Fields, createdAt: string, today: string)
    ensures var before, after := ComputeStats(ts, today), ComputeStats([Created(id, f, createdAt)] + ts, today);
      && after.total == before.total + 1
      && after.pending == before.pending + 1
      && after.completed == before.completed
      && after.overdue == before.overdue + (if StrLess(f.date, today) then 1 else 0)
  {
    var s := [Created(id, f, createdAt)] + ts;
    assert s[1..] == ts;
  }

  /** Editing the five form fields never moves a task between pending and completed. */
  lemma StatsAfterUpdate(ts: seq<Task>, id: int, f: Fields, today: string)
    ensures var before, after := ComputeStats(ts, today), ComputeStats(UpdateMatching(ts, id, f), today);
      && after.total == before.total
      && after.pending == before.pending
      && after.completed == before.completed
  {
    var r := UpdateMatching(ts, id, f);
    FilterLengthAgrees(r, ts, IsPending);
    FilterLengthAgrees(r, ts, IsCompleted);
  }

  /** Toggling a present id moves exactly one task between pending and completed. */
  lemma StatsAfterToggle(ts: seq<Task>, id: int, today: string)
    requires HasId(ts, id)
    ensures var before, after := ComputeStats(ts, today), ComputeStats(Toggled(ts, id), today);
      var wasDone := ts[Find(ts, id).value].completed;
      && after.total == before.total
      && after.pending == (if wasDone then before.pending + 1 else before.pending - 1)
      && after.completed == (if wasDone then before.completed - 1 else before.completed + 1)
  {
    var k := Find(ts, id).value;
    var x := ts[k].(completed := !ts[k].completed);
    FilterLengthUpdate(ts, k, x, IsPending);
    FilterLengthUpdate(ts, k, x, IsCompleted);
  }

  /** The due-date label of `getDaysUntilDue` for a whole number of days `d`. */
  function DueLabel(d: int): (r: string)
    ensures |r| >= 3
    ensures r == "Hoy" <==> d == 0
    ensures r == "Mañana" <==> d == 1
    ensures r[..3] == "En " <==> d > 1
    ensures r[..2] == "Ha" <==> d < 0
    ensures d < 0 ==> (r[|r| - 1] == 's' <==> d != -1)
    ensures d > 1 ==> r == "En " + Decimal(d) + " días"
    ensures d < 0 ==> r == "Hace " + Decimal(-d) + " día" + (if d == -1 then "" else "s")
  {
    if d < 0 then
      var r := "Hace " + Decimal(-d) + " día" + (if -d != 1 then "s" else "");
      assert r[..3][0] == 'H';
      r
    else if d == 0 then
      assert "Hoy"[..2][1] == 'o';
      "Hoy"
    else if d == 1 then
      assert "Mañana"[..3][0] == 'M';
      "Mañana"
    else
      var r := "En " + Decimal(d) + " días";
      assert r[..2][0] == 'E';
      r
  }

  /** A number written between a fixed prefix and a text starting with a space can be read back. */
  lemma NumberBetween(prefix: string, x: nat, y: nat, rest1: string, rest2: string)
    requires |rest1| > 0 && rest1[0] == ' ' && |rest2| > 0 && rest2[0] == ' '
    requires prefix + Decimal(x) + rest1 == prefix + Decimal(y) + rest2
    ensures x == y
  {
    var dx, dy := Decimal(x), Decimal(y);
    var l := prefix + dx + rest1;
    assert l[|prefix|..] == dx + rest1 == dy + rest2;
    DigitRunOf(dx, rest1);
    DigitRunOf(dy, rest2);
    assert dx == l[|prefix|..|prefix| + |dx|] == dy;
    DecimalInjective(x, y);
  }

  /** Different day counts get different labels. */
  lemma DueLabelInjective(a: int, b: int)
    requires DueLabel(a) == DueLabel(b)
    ensures a == b
  {
    if a < 0 {
      var sa := if -a != 1 then "s" else "";
      var sb := if -b != 1 then "s" else "";
      assert DueLabel(a) == "Hace " + Decimal(-a) + (" día" + sa);
      assert DueLabel(b) == "Hace " + Decimal(-b) + (" día" + sb);
      NumberBetween("Hace ", -a, -b, " día" + sa, " día" + sb);
    } else if a > 1 {
      NumberBetween("En ", a, b, " días", " días");
    }
  }
}
