/**
  The week view (app.js `renderWeekView`): seven day buckets starting at
  today's midnight, each holding, in input order, the tasks due that day;
  then one column per bucket.
 */
module WeekView {
  import opened Wrappers
  import opened Calendar
  import opened Tasks
  import opened Sanitizer

  const DaysShown: nat := 7

  /** One entry of the `days` array: its midnight and the tasks pushed into it. */
  datatype Bucket = Bucket(date: Instant, tasks: seq<Task>)

  /** The midnight of day `i` of the window that starts on the day of `now`. */
  function BucketDate(now: Instant, i: nat): (r: Instant)
    ensures r.millis == 0
    ensures i == 0 ==> IsSameDay(r, now)
  {
    Instant(AddDays(now.date, i), 0)
  }

  /** The test in the inner `forEach`: the task has a due time on that calendar day. */
  predicate DueOn(t: Task, day: Instant)
    ensures DueOn(t, day) <==> t.dueAt.Some? && t.dueAt.value.date == day.date
  {
    t.dueAt.Some? && IsSameDay(t.dueAt.value, day)
  }

  /** The tasks of `tasks` due on `day`, in input order. */
  function TasksDueOn(tasks: seq<Task>, day: Instant): (r: seq<Task>)
    ensures |r| <= |tasks|
    ensures forall k :: 0 <= k < |r| ==> DueOn(r[k], day)
  {
    if tasks == [] then []
    else
      var last := tasks[|tasks| - 1];
      TasksDueOn(tasks[..|tasks| - 1], day) + (if DueOn(last, day) then [last] else [])
  }

  /** The seven buckets the week view is drawn from. */
  function WeekBuckets(now: Instant, tasks: seq<Task>): (days: seq<Bucket>)
    ensures |days| == DaysShown
  {
    seq(DaysShown, i requires 0 <= i < DaysShown =>
      Bucket(BucketDate(now, i), TasksDueOn(tasks, BucketDate(now, i))))
  }

  /**
    The bucket-building part of `renderWeekView`: a loop pushing seven empty
    buckets, then every task with a due date pushed into each bucket on its day.
   */
  method BuildWeek(now: Instant, tasks: seq<Task>) returns (days: seq<Bucket>)
    ensures days == WeekBuckets(now, tasks)
  {
    var start := StartOfDay(now);
    days := [];
    for i := 0 to DaysShown
      invariant |days| == i
      invariant forall j :: 0 <= j < i ==> days[j] == Bucket(BucketDate(now, j), [])
    {
      days := days + [Bucket(Instant(AddDays(start.date, i), 0), [])];
    }
    for k := 0 to |tasks|
      invariant |days| == DaysShown
      invariant forall j :: 0 <= j < DaysShown ==>
        days[j] == Bucket(BucketDate(now, j), TasksDueOn(tasks[..k], BucketDate(now, j)))
    {
      var t := tasks[k];
      assert tasks[..k + 1][..k] == tasks[..k];
      if t.dueAt.None? {
        continue;
      }
      var d := t.dueAt.value;
      for j := 0 to DaysShown
        invariant |days| == DaysShown
        invariant forall j' :: 0 <= j' < j ==>
          days[j'] == Bucket(BucketDate(now, j'), TasksDueOn(tasks[..k + 1], BucketDate(now, j')))
        invariant forall j' :: j <= j' < DaysShown ==>
          days[j'] == Bucket(BucketDate(now, j'), TasksDueOn(tasks[..k], BucketDate(now, j')))
      {
        if IsSameDay(d, days[j].date) {
          days := days[j := Bucket(days[j].date, days[j].tasks + [t])];
        }
      }
    }
    assert tasks[..|tasks|] == tasks;
  }

  /** Filtering distributes over concatenation, so input order is kept. */
  lemma {:induction false} TasksDueOnAppend(a: seq<Task>, b: seq<Task>, day: Instant)
    ensures TasksDueOn(a + b, day) == TasksDueOn(a, day) + TasksDueOn(b, day)
  {
    if b == [] {
      assert a + b == a;
    } else {
      var ab := a + b;
      assert ab[..|ab| - 1] == a + b[..|b| - 1];
      TasksDueOnAppend(a, b[..|b| - 1], day);
    }
  }

  /** A task is kept exactly when it is in the input and due on the day. */
  lemma {:induction false} TasksDueOnMembers(tasks: seq<Task>, day: Instant, t: Task)
    ensures t in TasksDueOn(tasks, day) <==> t in tasks && DueOn(t, day)
  {
    if tasks != [] {
      var init := tasks[..|tasks| - 1];
      TasksDueOnMembers(init, day, t);
      assert tasks == init + [tasks[|tasks| - 1]];
    }
  }

  /**
    The seven bucket dates: the first is today at midnight, each next one the
    following calendar day, so they ascend strictly; from a real date all are real dates.
   */
  lemma WeekDates(now: Instant, tasks: seq<Task>)
    ensures var days := WeekBuckets(now, tasks);
      IsSameDay(days[0].date, now) &&
      (forall i :: 0 <= i < DaysShown ==> days[i].date.millis == 0) &&
      (forall i :: 0 <= i < DaysShown - 1 ==> days[i + 1].date.date == NextDay(days[i].date.date)) &&
      (forall i, j :: 0 <= i < j < DaysShown ==> Before(days[i].date.date, days[j].date.date)) &&
      (ValidDate(now.date) ==> forall i :: 0 <= i < DaysShown ==> ValidDate(days[i].date.date))
  {
    var days := WeekBuckets(now, tasks);
    forall i, j | 0 <= i < j < DaysShown
      ensures Before(days[i].date.date, days[j].date.date)
    {
      AddDaysAscending(now.date, i, j);
    }
    if ValidDate(now.date) {
      forall i | 0 <= i < DaysShown ensures ValidDate(days[i].date.date) {
        AddDaysValid(now.date, i);
      }
    }
  }

  /**
    A task is in bucket `i` exactly when it is one of the input tasks, has a
    due time, and that due time falls on the calendar day `i` days after today.
   */
  lemma BucketMembership(now: Instant, tasks: seq<Task>, t: Task, i: nat)
    requires i < DaysShown
    ensures t in WeekBuckets(now, tasks)[i].tasks <==>
      t in tasks && t.dueAt.Some? && t.dueAt.value.date == AddDays(now.date, i)
  {
    TasksDueOnMembers(tasks, BucketDate(now, i), t);
  }

  /** No task is in two buckets. */
  lemma AtMostOneBucket(now: Instant, tasks: seq<Task>, t: Task, i: nat, j: nat)
    requires i < DaysShown && j < DaysShown
    requires t in WeekBuckets(now, tasks)[i].tasks && t in WeekBuckets(now, tasks)[j].tasks
    ensures i == j
  {
    BucketMembership(now, tasks, t, i);
    BucketMembership(now, tasks, t, j);
    AddDaysInjective(now.date, i, j);
  }

  /**
    A task without a due time, or due before today, or due on a day seven or
    more days ahead, is in no bucket.
   */
  lemma OutsideWindow(now: Instant, tasks: seq<Task>, t: Task)
    requires || t.dueAt.None?
             || Before(t.dueAt.value.date, now.date)
             || exists n: nat :: n >= DaysShown && t.dueAt.value.date == AddDays(now.date, n)
    ensures forall i :: 0 <= i < DaysShown ==> t !in WeekBuckets(now, tasks)[i].tasks
  {
    forall i | 0 <= i < DaysShown ensures t !in WeekBuckets(now, tasks)[i].tasks {
      BucketMembership(now, tasks, t, i);
      if t.dueAt.Some? && t.dueAt.value.date == AddDays(now.date, i) {
        if Before(t.dueAt.value.date, now.date) {
          if i > 0 {
            AddDaysAscending(now.date, 0, i);
            BeforeTransitive(AddDays(now.date, i), now.date, AddDays(now.date, i));
          }
        } else {
          var n: nat :| n >= DaysShown && t.dueAt.value.date == AddDays(now.date, n);
          AddDaysInjective(now.date, i, n);
        }
      }
    }
  }

  /**
    Two tasks due on the same day of the window appear in that day's bucket
    in their input order, with only that day's other tasks around them.
   */
  lemma SameDayKeepsOrder(now: Instant, pre: seq<Task>, a: Task, mid: seq<Task>, b: Task, post: seq<Task>, i: nat)
    requires i < DaysShown
    requires a.dueAt.Some? && a.dueAt.value.date == AddDays(now.date, i)
    requires b.dueAt.Some? && b.dueAt.value.date == AddDays(now.date, i)
    ensures var day := BucketDate(now, i);
      WeekBuckets(now, pre + [a] + mid + [b] + post)[i].tasks ==
      TasksDueOn(pre, day) + [a] + TasksDueOn(mid, day) + [b] + TasksDueOn(post, day)
  {
    var day := BucketDate(now, i);
    assert TasksDueOn([a], day) == [a] by {
      assert [a][..0] == [];
    }
    assert TasksDueOn([b], day) == [b] by {
      assert [b][..0] == [];
    }
    TasksDueOnAppend(pre + [a] + mid + [b], post, day);
    TasksDueOnAppend(pre + [a] + mid, [b], day);
    TasksDueOnAppend(pre + [a], mid, day);
    TasksDueOnAppend(pre, [a], day);
  }

  /** A bucketed task in its column: its escaped title and its time of day, if it has one. */
  datatype Entry = Entry(title: string, time: Option<nat>)

  /** Under the date label a column shows the placeholder `—` or its tasks' entries. */
  datatype ColumnBody = EmptyDay | Entries(entries: seq<Entry>)

  datatype Column = Column(date: Instant, body: ColumnBody)

  function EntryOf(t: Task): (e: Entry)
    ensures Unescape(e.title) == t.title
    ensures NoRawMarkup(e.title) && AmpersandsStartEntities(e.title)
    ensures e.time.Some? <==> t.dueAt.Some?
    ensures t.dueAt.Some? ==> e.time == Some(t.dueAt.value.millis)
  {
    UnescapeEscape(t.title);
    Entry(EscapeHtml(Some(t.title)), if t.dueAt.Some? then Some(t.dueAt.value.millis) else None)
  }

  function ColumnOf(day: Bucket): (c: Column)
    ensures c.date == day.date
    ensures c.body.EmptyDay? <==> day.tasks == []
    ensures c.body.Entries? ==>
      |c.body.entries| == |day.tasks| &&
      forall k :: 0 <= k < |day.tasks| ==> c.body.entries[k] == EntryOf(day.tasks[k])
  {
    Column(day.date,
      if day.tasks == [] then EmptyDay
      else Entries(seq(|day.tasks|, k requires 0 <= k < |day.tasks| => EntryOf(day.tasks[k]))))
  }

  /**
    Column `i` shows the placeholder exactly when no input task is due on that
    day; otherwise one entry per bucketed task, in bucket order, whose title
    decodes back to the task's title, carries no raw markup, and whose time is
    the task's time of day.
   */
  lemma ColumnContents(now: Instant, tasks: seq<Task>, i: nat)
    requires i < DaysShown
    ensures var day := WeekBuckets(now, tasks)[i]; var col := ColumnOf(day);
      col.date == BucketDate(now, i) &&
      (col.body.EmptyDay? <==>
        forall t :: t in tasks ==> !(t.dueAt.Some? && t.dueAt.value.date == AddDays(now.date, i))) &&
      (col.body.Entries? ==>
        |col.body.entries| == |day.tasks| &&
        forall k :: 0 <= k < |day.tasks| ==>
          Unescape(col.body.entries[k].title) == day.tasks[k].title &&
          NoRawMarkup(col.body.entries[k].title) &&
          AmpersandsStartEntities(col.body.entries[k].title) &&
          day.tasks[k].dueAt.Some? &&
          col.body.entries[k].time == Some(day.tasks[k].dueAt.value.millis))
  {
    var day := WeekBuckets(now, tasks)[i];
    forall t
      ensures t in day.tasks <==> t in tasks && t.dueAt.Some? && t.dueAt.value.date == AddDays(now.date, i)
    {
      BucketMembership(now, tasks, t, i);
    }
    if day.tasks != [] {
      assert day.tasks[0] in day.tasks;
    }
  }

  /** The `#week-view` element: whether it carries the `hidden` class, and its grid's columns. */
  class WeekViewElement {
    var hidden: bool
    var columns: seq<Column>

    constructor()
      ensures !hidden && columns == []
    {
      hidden := false;
      columns := [];
    }

    /**
      `renderWeekView(tasks)`: clears the element and marks it hidden; with no
      tasks it stops there, otherwise it builds the buckets and one column per bucket.
     */
    method Render(now: Instant, tasks: seq<Task>)
      modifies this
      ensures hidden
      ensures tasks == [] ==> columns == []
      ensures tasks != [] ==>
        |columns| == DaysShown &&
        forall i :: 0 <= i < DaysShown ==> columns[i] == ColumnOf(WeekBuckets(now, tasks)[i])
    {
      columns := [];
      hidden := true;
      if |tasks| == 0 {
        return;
      }
      var days := BuildWeek(now, tasks);
      for i := 0 to |days|
        invariant hidden && |columns| == i
        invariant forall j :: 0 <= j < i ==> columns[j] == ColumnOf(days[j])
      {
        columns := columns + [ColumnOf(days[i])];
      }
    }
  }
}
