/**
 * The task manager (src/tasks/manager.ts): reads and rewrites the tasks file
 * of a working directory. The file is the `content` of a `TaskFile`, `None`
 * while it does not exist.
 */
module TaskManager {
  import opened Strings
  import opened TaskParser

  /** `tasks.find((x) => x.id === taskId)`: the first task with this id. */
  function FindTask(tasks: seq<Task>, id: string): (r: Option<nat>)
    ensures r.Some? ==> r.value < |tasks| && tasks[r.value].id == id
    ensures r.Some? ==> forall k :: 0 <= k < r.value ==> tasks[k].id != id
    ensures r.None? ==> forall k :: 0 <= k < |tasks| ==> tasks[k].id != id
  {
    if tasks == [] then None
    else if tasks[0].id == id then Some(0)
    else match FindTask(tasks[1..], id)
      case None => None
      case Some(i) => Some(i + 1)
  }

  /** Every task is done, and there is at least one. */
  predicate AllDone(tasks: seq<Task>)
  {
    |tasks| > 0 && forall k :: 0 <= k < |tasks| ==> tasks[k].status == Done
  }

  /**
   * The list after `t.status = status` on the task found, if any: the same
   * tasks in the same order, and only the first task with this id changes,
   * in its status alone.
   */
  function WithStatus(tasks: seq<Task>, id: string, status: TaskStatus): (r: seq<Task>)
    ensures |r| == |tasks|
    ensures forall k :: 0 <= k < |tasks| ==> r[k] == tasks[k].(status := r[k].status)
    ensures forall k :: 0 <= k < |tasks| && FindTask(tasks, id) != Some(k) ==> r[k] == tasks[k]
    ensures FindTask(tasks, id).Some? ==> r[FindTask(tasks, id).value].status == status
  {
    match FindTask(tasks, id)
    case None => tasks
    case Some(i) => tasks[i := tasks[i].(status := status)]
  }

  /**
   * The file after `setTaskStatus`: untouched when the id is absent, else the
   * markdown of the updated list; a missing file is never created.
   */
  function SetStatusContent(file: Option<string>, id: string, status: TaskStatus): (r: Option<string>)
    ensures r.None? <==> file.None?
    ensures (forall k :: 0 <= k < |ParseTasks(file)| ==> ParseTasks(file)[k].id != id) ==> r == file
  {
    var tasks := ParseTasks(file);
    match FindTask(tasks, id)
    case None => file
    case Some(_) => Some(TasksToMarkdown(WithStatus(tasks, id, status)))
  }

  class TaskFile {
    var content: Option<string>

    constructor(content: Option<string>)
      ensures this.content == content
    {
      this.content := content;
    }

    /** `getTasks`: what `parseTasksFile` reads from the file, numbered 1, 2, ... */
    method GetTasks() returns (tasks: seq<Task>)
      ensures tasks == ParseTasks(content)
      ensures forall k :: 0 <= k < |tasks| ==> tasks[k].id == NatToString(k + 1)
    {
      tasks := ParseTasksFile(content);
    }

    /** `allTasksDone`: true exactly when the list is not empty and every task counts as done. */
    method AllTasksDone() returns (r: bool)
      ensures r <==> AllDone(ParseTasks(content))
      ensures r <==> |ParseTasks(content)| > 0 && CountStatus(ParseTasks(content), Done) == |ParseTasks(content)|
    {
      var tasks := ParseTasksFile(content);
      AllDoneCount(tasks);
      r := |tasks| > 0 && forall k :: 0 <= k < |tasks| ==> tasks[k].status == Done;
    }

    /** `setTaskStatus`: rewrites the file from the parsed list with one status changed. */
    method SetTaskStatus(id: string, status: TaskStatus)
      modifies this
      ensures content == SetStatusContent(old(content), id, status)
    {
      var tasks := ParseTasksFile(content);
      var found := FindTask(tasks, id);
      if found.None? {
        return;
      }
      var i := found.value;
      tasks := tasks[i := tasks[i].(status := status)];
      content := Some(TasksToMarkdown(tasks));
    }
  }

  /** Every task is done exactly when the done count is the length. */
  lemma {:induction false} AllDoneCount(tasks: seq<Task>)
    ensures (forall k :: 0 <= k < |tasks| ==> tasks[k].status == Done) <==> CountStatus(tasks, Done) == |tasks|
  {
    if tasks != [] {
      var init := tasks[..|tasks| - 1];
      AllDoneCount(init);
      CountBound(init, Done);
      assert forall k :: 0 <= k < |init| ==> init[k] == tasks[k];
    }
  }

  lemma {:induction false} CountBound(tasks: seq<Task>, status: TaskStatus)
    ensures CountStatus(tasks, status) <= |tasks|
  {
    if tasks != [] {
      CountBound(tasks[..|tasks| - 1], status);
    }
  }

  /** Ids are the positions written in decimal, so a parsed id names exactly one task. */
  lemma FindParsedTask(tasks: seq<Task>, k: nat)
    requires k < |tasks|
    requires forall j :: 0 <= j < |tasks| ==> tasks[j].id == NatToString(j + 1)
    ensures FindTask(tasks, NatToString(k + 1)) == Some(k)
  {
    var r := FindTask(tasks, NatToString(k + 1));
    assert tasks[k].id == NatToString(k + 1);
  }

  /**
   * After a successful `setTaskStatus`, reading the file again gives the same
   * list with the same ids, in the same order, with only that task's status
   * changed.
   */
  lemma SetStatusRereads(file: Option<string>, id: string, status: TaskStatus)
    requires FindTask(ParseTasks(file), id).Some?
    ensures var before := ParseTasks(file);
      var after := ParseTasks(SetStatusContent(file, id, status));
      var i := FindTask(before, id).value;
      |after| == |before|
      && after[i].id == id && after[i].status == status && after[i].title == before[i].title
      && forall k :: 0 <= k < |before| && k != i ==>
           after[k].id == before[k].id && after[k].title == before[k].title
           && after[k].status == before[k].status
  {
    var before := ParseTasks(file);
    var i := FindTask(before, id).value;
    var updated := WithStatus(before, id, status);
    assert file.Some?;
    ParsedTitlesClean(SplitLines(file.value));
    assert forall k :: 0 <= k < |updated| ==> CleanTitle(updated[k].title) by {
      forall k | 0 <= k < |updated|
        ensures CleanTitle(updated[k].title)
      {
        assert updated[k].title == before[k].title;
      }
    }
    MarkdownRoundTrip(updated);
  }
}
