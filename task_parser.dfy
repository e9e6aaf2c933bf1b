/**
 * The task list (src/tasks/parser.ts): `parseTasksFile` over the content of
 * the tasks file (`None` when the file does not exist), `tasksToMarkdown`,
 * and `countByStatus`.
 */
module TaskParser {
  import opened Strings

  datatype TaskStatus = Pending | InProgress | Done

  datatype Task = Task(id: string, title: string, status: TaskStatus, raw: string)

  /** The two captures of the task-line pattern. */
  datatype TaskMatch = TaskMatch(statusPart: string, rest: string)

  /** What a task line contributes: its title and its status. */
  datatype Entry = Entry(title: string, status: TaskStatus)

  /** The character class `[ x\-]`: case-sensitive, so `X` is not in it. */
  predicate IsBoxMark(c: char)
  {
    c == ' ' || c == 'x' || c == '-'
  }

  /**
   * `/^(\s*\[[ x\-]\]\s*)(.*)$/` without flags. The leading `\s*` can only stop
   * before the `[`; the second `\s*` is greedy, and giving any of it back
   * cannot help `.*`, which refuses line terminators and must reach the end.
   */
  function MatchTaskLine(t: string): (r: Option<TaskMatch>)
    ensures r.Some? ==> r.value.statusPart + r.value.rest == t
    ensures r.Some? ==> NoLineTerminator(r.value.rest) && (r.value.rest == [] || !IsSpace(r.value.rest[0]))
  {
    var a := SpaceEnd(t, 0);
    if a + 3 <= |t| && t[a] == '[' && IsBoxMark(t[a + 1]) && t[a + 2] == ']' then
      var e := SpaceEnd(t, a + 3);
      if NoLineTerminator(t[e..]) then Some(TaskMatch(t[..e], t[e..])) else None
    else None
  }

  /** The status a trimmed checkbox stands for (`DONE_MARKERS`, `IN_PROGRESS_MARKERS`). */
  function StatusOf(statusPart: string): TaskStatus
  {
    if UpperString(statusPart) == "[x]" || UpperString(statusPart) == "[X]" then Done
    else if statusPart == "[-]" then InProgress
    else Pending
  }

  /** The status the character inside the box stands for. */
  function BoxStatus(c: char): TaskStatus
  {
    if c == 'x' then Done else if c == '-' then InProgress else Pending
  }

  /** A title as the parser produces it: trimmed, and on one line. */
  predicate CleanTitle(title: string)
  {
    Trim(title) == title && NoLineTerminator(title)
  }

  /**
   * One line of the file: blank lines, `#` lines and lines the pattern refuses
   * contribute nothing; otherwise the trimmed line starts with a box whose mark
   * is one of ` `, `x`, `-` and decides the status, and the title is the
   * trimmed rest.
   */
  function LineTask(line: string): (r: Option<Entry>)
    ensures r.Some? ==>
      var t := Trim(line);
      |t| >= 3 && t[0] == '[' && IsBoxMark(t[1]) && t[2] == ']' && r.value.status == BoxStatus(t[1])
  {
    var t := Trim(line);
    if t == [] || t[0] == '#' then None
    else
      match MatchTaskLine(t)
      case None => None
      case Some(m) =>
        BoxStatusPart(t);
        Some(Entry(Trim(m.rest), StatusOf(Trim(m.statusPart))))
  }

  /**
   * Blank lines and `#` lines give nothing; a task line's title is the clean,
   * trimmed text after its box; and every trimmed line that starts with a box
   * whose mark is ` `, `x` or `-` (never `X`) and goes on without a line
   * terminator is a task line.
   */
  lemma LineTaskShape(line: string)
    ensures Trim(line) == [] || Trim(line)[0] == '#' ==> LineTask(line).None?
    ensures LineTask(line).Some? ==> CleanTitle(LineTask(line).value.title)
    ensures LineTask(line).Some? ==> LineTask(line).value.title == Trim(Trim(line)[3..])
    ensures var t := Trim(line);
      (|t| >= 3 && t[0] == '[' && IsBoxMark(t[1]) && t[2] == ']'
       && NoLineTerminator(t[SpaceEnd(t, 3)..])) ==> LineTask(line).Some?
  {
    var t := Trim(line);
    if LineTask(line).Some? {
      CleanRest(t);
      TitleIsRest(t);
    }
    if |t| >= 3 && t[0] == '[' {
      assert SpaceEnd(t, 0) == 0;
    }
  }

  /** The title is the trimmed text after the three characters of the box. */
  lemma TitleIsRest(t: string)
    requires t != [] && !IsSpace(t[0]) && MatchTaskLine(t).Some?
    ensures |t| >= 3 && Trim(MatchTaskLine(t).value.rest) == Trim(t[3..])
  {
    assert SpaceEnd(t, 0) == 0;
    TrimAfterSpace(t, 3);
  }

  lemma BoxStatusPart(t: string)
    requires t != [] && !IsSpace(t[0]) && MatchTaskLine(t).Some?
    ensures |t| >= 3 && t[0] == '[' && IsBoxMark(t[1]) && t[2] == ']'
    ensures StatusOf(Trim(MatchTaskLine(t).value.statusPart)) == BoxStatus(t[1])
  {
    assert SpaceEnd(t, 0) == 0;
    var e := SpaceEnd(t, 3);
    var part := MatchTaskLine(t).value.statusPart;
    assert Trim(part) == t[..3] by {
      assert part == t[..3] + t[3..e];
      TrimDropsTrailingSpace(t[..3], t[3..e]);
    }
    BoxText(t[..3]);
  }

  /** A three-character box reads as the status of its mark. */
  lemma BoxText(box: string)
    requires |box| == 3 && box[0] == '[' && IsBoxMark(box[1]) && box[2] == ']'
    ensures StatusOf(box) == BoxStatus(box[1])
  {
    var u := UpperString(box);
    assert u[1] == Upper(box[1]);
    if box[1] == 'x' {
      assert u == "[X]";
    } else {
      assert u[1] != 'X' && u[1] != 'x';
      assert box == "[-]" <==> box[1] == '-';
    }
  }

  lemma CleanRest(t: string)
    requires t != [] && !IsSpace(t[0]) && MatchTaskLine(t).Some?
    ensures CleanTitle(Trim(MatchTaskLine(t).value.rest))
  {
    var rest := MatchTaskLine(t).value.rest;
    var title := Trim(rest);
    assert NoLineTerminator(rest);
    TrimInside(rest);
    TrimOfTrimmed(title);
  }

  /** A line of the file with what it contributes. */
  datatype ClassifiedLine = ClassifiedLine(raw: string, entry: Option<Entry>)

  function Classify(lines: seq<string>): (r: seq<ClassifiedLine>)
    ensures |r| == |lines|
  {
    seq(|lines|, k requires 0 <= k < |lines| => ClassifiedLine(lines[k], LineTask(lines[k])))
  }

  /**
   * The tasks, read from the back so that a loop can extend them line by line:
   * each contributing line adds one task, numbered after those before it.
   */
  function Numbered(lines: seq<ClassifiedLine>): (r: seq<Task>)
    ensures |r| <= |lines|
    ensures forall k :: 0 <= k < |r| ==> r[k].id == NatToString(k + 1)
  {
    if lines == [] then []
    else
      var prev := Numbered(lines[..|lines| - 1]);
      var last := lines[|lines| - 1];
      match last.entry
      case None => prev
      case Some(entry) => prev + [Task(NatToString(|prev| + 1), entry.title, entry.status, last.raw)]
  }

  function TasksOf(lines: seq<string>): seq<Task>
  {
    Numbered(Classify(lines))
  }

  /**
   * `parseTasksFile`: no file, no tasks; otherwise at most one task per line,
   * numbered 1, 2, ... in line order, each with a clean title.
   */
  function ParseTasks(file: Option<string>): (r: seq<Task>)
    ensures file.None? ==> r == []
    ensures file.Some? ==> |r| <= |SplitLines(file.value)|
    ensures forall k :: 0 <= k < |r| ==> r[k].id == NatToString(k + 1)
    ensures forall k :: 0 <= k < |r| ==> CleanTitle(r[k].title)
  {
    match file
    case None => []
    case Some(content) =>
      ParsedTitlesClean(SplitLines(content));
      TasksOf(SplitLines(content))
  }

  /** `parseTasksFile`: no file gives no tasks, otherwise the tasks of its lines. */
  method ParseTasksFile(file: Option<string>) returns (tasks: seq<Task>)
    ensures tasks == ParseTasks(file)
  {
    if file.None? {
      return [];
    }
    tasks := ReadTaskLines(SplitLines(file.value));
  }

  /** The loop of `parseTasksFile` over the lines of the content. */
  method ReadTaskLines(lines: seq<string>) returns (tasks: seq<Task>)
    ensures tasks == TasksOf(lines)
  {
    ghost var classified := Classify(lines);
    tasks := [];
    var id := 0;
    for i := 0 to |lines|
      invariant tasks == Numbered(classified[..i])
      invariant id == |tasks|
    {
      var line := lines[i];
      var entry := ReadTaskLine(line);
      if entry.Some? {
        id := id + 1;
        tasks := tasks + [Task(NatToString(id), entry.value.title, entry.value.status, line)];
      }
      assert tasks == Numbered(classified[..i + 1]) by {
        NumberedStep(classified, i);
        assert classified[i] == ClassifiedLine(line, entry);
      }
    }
    assert classified[..|lines|] == classified;
  }

  /** The body of the loop for one line: skip blank and `#` lines and lines that are not tasks, else read the box and the title. */
  method ReadTaskLine(line: string) returns (entry: Option<Entry>)
    ensures entry == LineTask(line)
  {
    var trimmed := Trim(line);
    if trimmed == [] || trimmed[0] == '#' {
      return None;
    }
    var m := MatchTaskLine(trimmed);
    if m.None? {
      return None;
    }
    var statusPart := Trim(m.value.statusPart);
    var title := Trim(m.value.rest);
    var status := Pending;
    if UpperString(statusPart) == "[x]" || UpperString(statusPart) == "[X]" {
      status := Done;
    } else if statusPart == "[-]" {
      status := InProgress;
    }
    entry := Some(Entry(title, status));
  }

  /** Numbering one more line: a line that contributes nothing leaves the list, a task line adds the next task. */
  lemma NumberedStep(lines: seq<ClassifiedLine>, i: nat)
    requires i < |lines|
    ensures var prev := Numbered(lines[..i]);
      Numbered(lines[..i + 1]) == match lines[i].entry
        case None => prev
        case Some(e) => prev + [Task(NatToString(|prev| + 1), e.title, e.status, lines[i].raw)]
  {
    assert lines[..i + 1][..i] == lines[..i];
  }

  /** What the contributing lines carry, in order: a reference filter read from the front. */
  function Found(lines: seq<ClassifiedLine>): seq<Entry>
  {
    if lines == [] then []
    else
      match lines[0].entry
      case None => Found(lines[1..])
      case Some(entry) => [entry] + Found(lines[1..])
  }

  function Entries(tasks: seq<Task>): (r: seq<Entry>)
    ensures |r| == |tasks|
    ensures forall k :: 0 <= k < |tasks| ==> r[k] == Entry(tasks[k].title, tasks[k].status)
  {
    seq(|tasks|, k requires 0 <= k < |tasks| => Entry(tasks[k].title, tasks[k].status))
  }

  lemma {:induction false} FoundSnoc(lines: seq<ClassifiedLine>, last: ClassifiedLine)
    ensures Found(lines + [last]) ==
      Found(lines) + (match last.entry case None => [] case Some(e) => [e])
    decreases |lines|
  {
    if lines == [] {
      assert [last][1..] == [];
    } else {
      assert (lines + [last])[1..] == lines[1..] + [last];
      FoundSnoc(lines[1..], last);
    }
  }

  /** Exactly the contributing lines produce tasks, one each, in line order. */
  lemma {:induction false} NumberedFound(lines: seq<ClassifiedLine>)
    ensures Entries(Numbered(lines)) == Found(lines)
    decreases |lines|
  {
    if lines != [] {
      var init := lines[..|lines| - 1];
      var last := lines[|lines| - 1];
      NumberedFound(init);
      assert lines == init + [last];
      FoundSnoc(init, last);
    }
  }

  /** Blank, `#` and non-matching lines give no task; every other line gives one, in order. */
  lemma TasksAreMatchedLines(lines: seq<string>)
    ensures Entries(TasksOf(lines)) == Found(Classify(lines))
    ensures forall k :: 0 <= k < |lines| ==> Classify(lines)[k].entry == LineTask(lines[k])
  {
    NumberedFound(Classify(lines));
  }

  /** Every entry found carries a clean title when every line's does. */
  lemma {:induction false} FoundClean(lines: seq<ClassifiedLine>)
    requires forall k :: 0 <= k < |lines| && lines[k].entry.Some? ==> CleanTitle(lines[k].entry.value.title)
    ensures forall k :: 0 <= k < |Found(lines)| ==> CleanTitle(Found(lines)[k].title)
    decreases |lines|
  {
    if lines != [] {
      FoundClean(lines[1..]);
    }
  }

  /** The parser only produces clean titles. */
  lemma ParsedTitlesClean(lines: seq<string>)
    ensures forall k :: 0 <= k < |TasksOf(lines)| ==> CleanTitle(TasksOf(lines)[k].title)
  {
    var cls := Classify(lines);
    forall k | 0 <= k < |cls| && cls[k].entry.Some?
      ensures CleanTitle(cls[k].entry.value.title)
    {
      LineTaskShape(lines[k]);
    }
    FoundClean(cls);
    NumberedFound(cls);
  }

  /** A missing file and an empty one both give the empty list. */
  lemma NoFileNoTasks()
    ensures ParseTasks(None) == []
    ensures ParseTasks(Some("")) == []
  {
    assert SplitLines("") == [""];
    var cls := Classify([""]);
    assert cls[0].entry == LineTask("");
    assert cls[..0] == [];
  }

  /* ---------- tasksToMarkdown ---------- */

  function BoxOf(status: TaskStatus): string
  {
    match status
    case Done => "[x]"
    case InProgress => "[-]"
    case Pending => "[ ]"
  }

  /** `${box} ${t.title}` */
  function MarkdownLine(t: Task): string
  {
    BoxOf(t.status) + " " + t.title
  }

  function MarkdownLines(tasks: seq<Task>): (r: seq<string>)
    ensures |r| == |tasks|
    ensures forall k :: 0 <= k < |tasks| ==> r[k] == MarkdownLine(tasks[k])
  {
    seq(|tasks|, k requires 0 <= k < |tasks| => MarkdownLine(tasks[k]))
  }

  /** `tasksToMarkdown`: one line per task, joined by line feeds; empty exactly for no tasks. */
  function TasksToMarkdown(tasks: seq<Task>): (r: string)
    ensures r == [] <==> tasks == []
    ensures tasks != [] ==> MarkdownLine(tasks[0]) <= r
  {
    JoinLines(MarkdownLines(tasks))
  }

  /** The box of a task's line reads back as the task's status, and its title as the title. */
  lemma MarkdownLineParses(t: Task)
    requires CleanTitle(t.title)
    ensures LineTask(MarkdownLine(t)) == Some(Entry(t.title, t.status))
  {
    MarkdownLineTrim(t);
    BoxLineReads(t.status, t.title);
  }

  /** The trim of a task's line is the line itself, or its bare box when the title is empty. */
  lemma MarkdownLineTrim(t: Task)
    requires CleanTitle(t.title)
    ensures Trim(MarkdownLine(t)) == if t.title == [] then BoxOf(t.status) else MarkdownLine(t)
  {
    var box := BoxOf(t.status);
    var line := MarkdownLine(t);
    var title := t.title;
    if title == [] {
      assert line == box + " ";
      TrimDropsTrailingSpace(box, " ");
    } else {
      assert title[0] == Trim(title)[0] && title[|title| - 1] == Trim(title)[|title| - 1];
      assert line[|line| - 1] == title[|title| - 1];
      TrimOfTrimmed(line);
    }
  }

  /** The pattern splits a box followed by a clean title into the box part and the title; the box part reads as the status. */
  lemma BoxLineReads(status: TaskStatus, title: string)
    requires CleanTitle(title)
    ensures var line := if title == [] then BoxOf(status) else BoxOf(status) + " " + title;
      line != [] && line[0] == '['
      && MatchTaskLine(line) == Some(TaskMatch(line[..|line| - |title|], title))
      && StatusOf(Trim(line[..|line| - |title|])) == status
  {
    if title == [] {
      BareBoxMatches(status);
    } else {
      TitledBoxMatches(status, title);
    }
    StatusOfBox(status);
  }

  /** A bare box is all box part. */
  lemma BareBoxMatches(status: TaskStatus)
    ensures var box := BoxOf(status);
      MatchTaskLine(box) == Some(TaskMatch(box, [])) && Trim(box) == box
  {
    var box := BoxOf(status);
    assert SpaceEnd(box, 0) == 0;
    assert SpaceEnd(box, 3) == 3;
    assert box[3..] == [] && box[..3] == box;
    TrimOfTrimmed(box);
  }

  /** A box, one space and a clean title: the space goes with the box part and trims away. */
  lemma TitledBoxMatches(status: TaskStatus, title: string)
    requires title != [] && CleanTitle(title)
    ensures var line := BoxOf(status) + " " + title;
      MatchTaskLine(line) == Some(TaskMatch(BoxOf(status) + " ", title))
      && Trim(BoxOf(status) + " ") == BoxOf(status)
  {
    var box := BoxOf(status);
    var line := box + " " + title;
    assert SpaceEnd(line, 0) == 0;
    assert !IsSpace(line[4]) by {
      assert line[4] == title[0] == Trim(title)[0];
    }
    assert SpaceEnd(line, 3) == 4;
    assert line[4..] == title;
    assert line[..4] == box + " ";
    TrimDropsTrailingSpace(box, " ");
  }

  /** Each status's box reads back as that status. */
  lemma StatusOfBox(status: TaskStatus)
    ensures StatusOf(BoxOf(status)) == status
  {
    var u := UpperString(BoxOf(status));
    assert u[0] == '[' && u[2] == ']';
    match status
    case Done =>
      assert u[1] == 'X';
      assert u == "[X]";
    case InProgress =>
      assert u[1] == '-';
      assert u != "[x]" && u != "[X]";
    case Pending =>
      assert u[1] == ' ';
      assert u != "[x]" && u != "[X]";
  }

  /** Each task becomes one plain line, so splitting the markdown gives back its lines. */
  lemma MarkdownSplits(tasks: seq<Task>)
    requires |tasks| > 0
    requires forall k :: 0 <= k < |tasks| ==> CleanTitle(tasks[k].title)
    ensures SplitLines(TasksToMarkdown(tasks)) == MarkdownLines(tasks)
  {
    var lines := MarkdownLines(tasks);
    forall k | 0 <= k < |lines|
      ensures PlainLine(lines[k])
    {
      var t := tasks[k];
      var l := lines[k];
      assert l == BoxOf(t.status) + " " + t.title;
      assert forall j :: 0 <= j < |t.title| ==> !IsLineTerminator(t.title[j]);
      assert forall j :: 0 <= j < |l| ==> l[j] != '\n' by {
        forall j | 0 <= j < |l|
          ensures l[j] != '\n'
        {
          if j >= 4 {
            assert l[j] == t.title[j - 4];
          }
        }
      }
      if t.title != [] {
        assert l[|l| - 1] == t.title[|t.title| - 1];
      }
    }
    SplitJoin(lines);
  }

  /** Lines that all contribute yield one task each, numbered in order. */
  lemma {:induction false} AllLinesMatch(lines: seq<ClassifiedLine>, entries: seq<Entry>)
    requires |entries| == |lines|
    requires forall k :: 0 <= k < |lines| ==> lines[k].entry == Some(entries[k])
    ensures |Numbered(lines)| == |lines|
    ensures forall k :: 0 <= k < |lines| ==>
      Numbered(lines)[k] == Task(NatToString(k + 1), entries[k].title, entries[k].status, lines[k].raw)
    decreases |lines|
  {
    if lines != [] {
      var n := |lines| - 1;
      AllLinesMatch(lines[..n], entries[..n]);
    }
  }

  /**
   * Parsing the markdown of a list of tasks with clean titles gives back the
   * same titles and statuses in the same order, renumbered 1, 2, ...
   */
  lemma MarkdownRoundTrip(tasks: seq<Task>)
    requires forall k :: 0 <= k < |tasks| ==> CleanTitle(tasks[k].title)
    ensures var r := ParseTasks(Some(TasksToMarkdown(tasks)));
      |r| == |tasks|
      && forall k :: 0 <= k < |tasks| ==>
        r[k] == Task(NatToString(k + 1), tasks[k].title, tasks[k].status, MarkdownLine(tasks[k]))
  {
    if tasks == [] {
      NoFileNoTasks();
    } else {
      MarkdownSplits(tasks);
      var lines := MarkdownLines(tasks);
      var cls := Classify(lines);
      var entries := Entries(tasks);
      forall k | 0 <= k < |cls|
        ensures cls[k].entry == Some(entries[k]) && cls[k].raw == MarkdownLine(tasks[k])
      {
        MarkdownLineParses(tasks[k]);
      }
      AllLinesMatch(cls, entries);
    }
  }

  /** Writing a parsed list back and parsing it again keeps every task's id, title and status. */
  lemma ReparseKeepsTasks(file: Option<string>)
    ensures var tasks := ParseTasks(file);
      var again := ParseTasks(Some(TasksToMarkdown(tasks)));
      |again| == |tasks|
      && forall k :: 0 <= k < |tasks| ==>
        again[k].id == tasks[k].id && again[k].title == tasks[k].title
        && again[k].status == tasks[k].status
  {
    match file
    case None =>
      MarkdownRoundTrip([]);
    case Some(content) =>
      ParsedTitlesClean(SplitLines(content));
      MarkdownRoundTrip(ParseTasks(file));
  }

  /** A box written `[X]` is outside the character class, so the line is skipped. */
  lemma CapitalBoxSkipped(line: string)
    requires |Trim(line)| >= 3 && Trim(line)[..3] == "[X]"
    ensures LineTask(line).None?
  {
    LineTaskShape(line);
    assert Trim(line)[1] == "[X]"[1];
  }

  /** The three tasks of the example, written back as markdown. */
  lemma ThreeMarkdown(tasks: seq<Task>)
    requires tasks == [Task("1", "A", Pending, ""), Task("2", "B", InProgress, ""), Task("3", "C", Done, "")]
    ensures TasksToMarkdown(tasks) == "[ ] A\n[-] B\n[x] C"
  {
    var lines := MarkdownLines(tasks);
    assert lines[0] == "[ ] A" && lines[1] == "[-] B" && lines[2] == "[x] C";
    assert lines[1..][1..] == [lines[2]];
    assert JoinLines(lines[1..]) == lines[1] + "\n" + lines[2];
    assert TasksToMarkdown(tasks) == lines[0] + "\n" + (lines[1] + "\n" + lines[2]);
  }

  /** The three-line list of the test suite: one task of each status, in order. */
  lemma ThreeStatusExample(content: string)
    requires content == "[ ] A\n[-] B\n[x] C"
    ensures var tasks := ParseTasks(Some(content));
      |tasks| == 3
      && tasks[0] == Task("1", "A", Pending, "[ ] A")
      && tasks[1] == Task("2", "B", InProgress, "[-] B")
      && tasks[2] == Task("3", "C", Done, "[x] C")
  {
    var tasks := [Task("1", "A", Pending, ""), Task("2", "B", InProgress, ""), Task("3", "C", Done, "")];
    ThreeMarkdown(tasks);
    ThreeReparse(tasks);
  }

  /** Parsing the markdown of the three example tasks gives them back, with their lines. */
  lemma ThreeReparse(tasks: seq<Task>)
    requires |tasks| == 3
    requires tasks[0].title == "A" && tasks[1].title == "B" && tasks[2].title == "C"
    requires tasks[0].status == Pending && tasks[1].status == InProgress && tasks[2].status == Done
    ensures var r := ParseTasks(Some(TasksToMarkdown(tasks)));
      |r| == 3
      && r[0] == Task("1", "A", Pending, "[ ] A")
      && r[1] == Task("2", "B", InProgress, "[-] B")
      && r[2] == Task("3", "C", Done, "[x] C")
  {
    assert MarkdownLine(tasks[0]) == "[ ] A" && MarkdownLine(tasks[1]) == "[-] B" && MarkdownLine(tasks[2]) == "[x] C";
    assert NatToString(1) == "1" && NatToString(2) == "2" && NatToString(3) == "3";
    ThreeTitlesClean(tasks);
    MarkdownRoundTrip(tasks);
  }

  lemma ThreeTitlesClean(tasks: seq<Task>)
    requires |tasks| == 3
    requires tasks[0].title == "A" && tasks[1].title == "B" && tasks[2].title == "C"
    ensures forall k :: 0 <= k < |tasks| ==> CleanTitle(tasks[k].title)
  {
    TrimOfTrimmed("A");
    TrimOfTrimmed("B");
    TrimOfTrimmed("C");
  }

  /* ---------- countByStatus ---------- */

  function Statuses(tasks: seq<Task>): (r: seq<TaskStatus>)
    ensures |r| == |tasks|
    ensures forall k :: 0 <= k < |tasks| ==> r[k] == tasks[k].status
  {
    seq(|tasks|, k requires 0 <= k < |tasks| => tasks[k].status)
  }

  /** The number of tasks with this status, counted from the back. */
  function CountStatus(tasks: seq<Task>, status: TaskStatus): (r: nat)
    ensures r == multiset(Statuses(tasks))[status]
  {
    if tasks == [] then 0
    else
      var init := tasks[..|tasks| - 1];
      assert Statuses(tasks) == Statuses(init) + [tasks[|tasks| - 1].status];
      CountStatus(init, status) + (if tasks[|tasks| - 1].status == status then 1 else 0)
  }

  /** Counting one more task adds one to its own status only. */
  lemma CountStep(tasks: seq<Task>, i: nat)
    requires i < |tasks|
    ensures forall status :: CountStatus(tasks[..i + 1], status) ==
                             CountStatus(tasks[..i], status) + (if tasks[i].status == status then 1 else 0)
  {
    assert tasks[..i + 1][..i] == tasks[..i];
  }

  /** The three counts add up to the number of tasks. */
  lemma {:induction false} CountsCover(tasks: seq<Task>)
    ensures CountStatus(tasks, Pending) + CountStatus(tasks, InProgress) + CountStatus(tasks, Done) == |tasks|
  {
    if tasks != [] {
      var init := tasks[..|tasks| - 1];
      CountsCover(init);
      var last := tasks[|tasks| - 1].status;
      assert CountStatus(tasks, Pending) == CountStatus(init, Pending) + (if last == Pending then 1 else 0);
      assert CountStatus(tasks, InProgress) == CountStatus(init, InProgress) + (if last == InProgress then 1 else 0);
      assert CountStatus(tasks, Done) == CountStatus(init, Done) + (if last == Done then 1 else 0);
    }
  }

  /** `countByStatus`: each counter is the number of tasks with its status. */
  method CountByStatus(tasks: seq<Task>) returns (pending: nat, inProgress: nat, done: nat)
    ensures pending == CountStatus(tasks, Pending)
    ensures inProgress == CountStatus(tasks, InProgress)
    ensures done == CountStatus(tasks, Done)
  {
    pending, inProgress, done := 0, 0, 0;
    for i := 0 to |tasks|
      invariant pending == CountStatus(tasks[..i], Pending)
      invariant inProgress == CountStatus(tasks[..i], InProgress)
      invariant done == CountStatus(tasks[..i], Done)
    {
      CountStep(tasks, i);
      if tasks[i].status == Pending {
        pending := pending + 1;
      } else if tasks[i].status == InProgress {
        inProgress := inProgress + 1;
      } else {
        done := done + 1;
      }
    }
    assert tasks[..|tasks|] == tasks;
  }
}
