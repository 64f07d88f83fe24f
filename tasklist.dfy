/**
  The task list (app.js `renderTaskList`) as an abstract value: the children
  of the `#tasks-list` element, either the placeholder message or one row per task.
 */
module TaskList {
  import opened Wrappers
  import opened Calendar
  import opened Tasks
  import opened Sanitizer

  const NoTasksMessage: string := "No tasks \U{2014} add one with Quick add."

  /** The due part of a row's meta line: `'No due'`, or the due date in local format. */
  datatype DueLabel = NoDue | DueDate(date: Date)

  /** One `.task` row: escaped title, escaped description, due label, and the id its delete button carries. */
  datatype Row = Row(title: string, description: string, due: DueLabel, deleteId: int)

  datatype ListNode = Placeholder(text: string) | TaskRow(row: Row)

  /** `t.description || ''`: an absent description shows as the empty string. */
  function DescriptionText(t: Task): (r: string)
    ensures t.description.Some? ==> r == t.description.value
    ensures r == [] <==> t.description.None? || t.description == Some([])
  {
    if t.description.Some? then t.description.value else ""
  }

  function RowOf(t: Task): (r: Row)
    ensures r.deleteId == t.id
    ensures r.due == NoDue <==> t.dueAt.None?
    ensures t.dueAt.Some? ==> r.due == DueDate(t.dueAt.value.date)
  {
    Row(EscapeHtml(Some(t.title)),
        EscapeHtml(Some(DescriptionText(t))),
        if t.dueAt.Some? then DueDate(t.dueAt.value.date) else NoDue,
        t.id)
  }

  /** The children after a render: the placeholder for no tasks, then one row per task. */
  function ListView(tasks: seq<Task>): (v: seq<ListNode>)
    ensures |v| == if tasks == [] then 1 else |tasks|
    ensures tasks == [] ==> v[0].Placeholder?
    ensures tasks != [] ==> forall k :: 0 <= k < |v| ==> v[k].TaskRow?
  {
    (if tasks == [] then [Placeholder(NoTasksMessage)] else []) +
    seq(|tasks|, k requires 0 <= k < |tasks| => TaskRow(RowOf(tasks[k])))
  }

  /** With no tasks the list holds the placeholder message and nothing else. */
  lemma EmptyList()
    ensures ListView([]) == [Placeholder(NoTasksMessage)]
  {
  }

  /**
    A row's title and description decode back to the task's (an absent
    description to ""), neither contains raw markup and every `&` in them
    begins an entity, the label is `'No due'`
    exactly when the task has no due time, and the delete button carries the task's id.
   */
  predicate ShowsTask(r: Row, t: Task) {
    Unescape(r.title) == t.title &&
    Unescape(r.description) == DescriptionText(t) &&
    NoRawMarkup(r.title) && NoRawMarkup(r.description) &&
    AmpersandsStartEntities(r.title) && AmpersandsStartEntities(r.description) &&
    (r.due == NoDue <==> t.dueAt.None?) &&
    (t.dueAt.Some? ==> r.due == DueDate(t.dueAt.value.date)) &&
    r.deleteId == t.id
  }

  lemma RowShowsTask(t: Task)
    ensures ShowsTask(RowOf(t), t)
  {
    UnescapeEscape(t.title);
    UnescapeEscape(DescriptionText(t));
  }

  /** With tasks, the list holds exactly one row per task, in input order, each showing its task. */
  lemma ListRows(tasks: seq<Task>)
    requires tasks != []
    ensures var v := ListView(tasks);
      |v| == |tasks| &&
      forall k :: 0 <= k < |tasks| ==> v[k].TaskRow? && ShowsTask(v[k].row, tasks[k])
  {
    var v := ListView(tasks);
    forall k | 0 <= k < |tasks|
      ensures v[k].TaskRow? && ShowsTask(v[k].row, tasks[k])
    {
      assert v[k] == TaskRow(RowOf(tasks[k]));
      RowShowsTask(tasks[k]);
    }
  }

  /** The `#tasks-list` element's children. */
  class TaskListElement {
    var children: seq<ListNode>

    constructor()
      ensures children == []
    {
      children := [];
    }

    /**
      `renderTaskList(tasks)`: clears the element, puts the placeholder in when
      there are no tasks, then appends one row per task.
     */
    method Render(tasks: seq<Task>)
      modifies this
      ensures children == ListView(tasks)
    {
      children := [];
      if |tasks| == 0 {
        children := [Placeholder(NoTasksMessage)];
      }
      for k := 0 to |tasks|
        invariant tasks == [] ==> children == [Placeholder(NoTasksMessage)]
        invariant tasks != [] ==> |children| == k
        invariant tasks != [] ==> forall j :: 0 <= j < k ==> children[j] == TaskRow(RowOf(tasks[j]))
      {
        children := children + [TaskRow(RowOf(tasks[k]))];
      }
    }
  }
}
