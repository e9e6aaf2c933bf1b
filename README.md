# codchestra core in Dafny

codchestra drives an AI coding agent (`chatgpt` or `codex`) in a loop over a
working directory. Each pass sends a prompt, reads what the agent printed,
parses the agent's `STATUS:` block, hashes the output, scores the git diff,
and saves a small run state. The loop stops for one of these reasons:
- the agent signals it is done and every task in the markdown tasks file is
  checked off;
- the loop budget is spent;
- the deadline passes;
- the diff stops changing;
- the agent keeps printing the same thing.

This project models that core and proves what it promises:

| File | Module | What it models |
|---|---|---|
| `runner.dfy` | `Runner` | The iteration controller (`runLoop`) and the agent arguments (`getAiArgs`). |
| `exit_analyzer.dfy` | `ExitAnalyzer` | The STATUS block parser (`parseStatusBlock`, `hasStatusBlock`). Its regular expressions are written out as leftmost searches. |
| `task_parser.dfy` | `TaskParser` | The tasks file reader, its writer and the status counts. |
| `task_manager.dfy` | `TaskManager` | `getTasks`, `setTaskStatus` and `allTasksDone`, over a `TaskFile` object whose content is the file. |
| `git_stat.dfy` | `GitStat` | The `git diff --stat` line tally and the change score. |
| `live_ui.dfy` | `LiveUi` | The state record of the live terminal view: its setters, the error buffer that keeps the last twelve messages, the session badge and the framed sections. |
| `ai_command.dfy` | `AiCommand` | The choice of the agent program. |
| `state.dfy` | `State` | The persisted run state and the parsed status records. |
| `strings.dfy` | `Strings` | The JavaScript string operations the core relies on. These are `trim`, `\s`, `split(/\r?\n/)`, `join('\n')`, `toLowerCase`, `startsWith`, `String(n)` and `parseInt` on digits. |

## How the loop is modelled

- **The outside world is a `World` value, indexed by pass number.** It holds
  whether the deadline has passed, the agent's output, the `git diff --stat`
  summary and the tasks file, all as seen on that pass. It also holds the
  output hash function.
- **`Options` holds the already-merged values.** These are `maxLoops` and the
  two detector thresholds.
- **The status parser and the tasks reader are parameters of `Setup`.**
  `Runner.RunLoop` instantiates them with `ExitAnalyzer.ParseStatusBlock` and
  `TaskParser.ParseTasks`.
- **One iteration of the `while` body is the function `Runner.Pass`.** The
  whole loop is `Runner.Run`. `Runner.LoopBody` and `Runner.RunLoopWith` are
  the imperative forms, and each is proved equal to these functions.
- **Three loop bodies appear twice, once as a function and once as a
  method.** `Runner.LoopBody`, `TaskParser.ReadTaskLine` and
  `GitStat.CountStatLine` are the source's loop bodies written out statement
  by statement. Each is proved to compute exactly the function the proofs
  reason about: `Runner.Pass`, `TaskParser.LineTask` and `GitStat.AddLine`.
- **The run state is updated as values.** Every `saveState` call becomes one
  element of a `saves` sequence, in order.

## Where the code and its description part ways

- **The first STATUS block wins, not the last.** `STATUS_BLOCK_RE` captures
  everything after the *first* `STATUS:` line. Each field expression then
  takes its first match. So when the agent prints two blocks, the fields of
  the first one are read. `ExitAnalyzer.FirstBlockWins` proves this: anything
  appended after a complete first block, including a second block, leaves the
  result unchanged. The test at `src/core/exitAnalyzer.test.ts:33-39` expects
  the last block instead. The model follows the code.
- **A negative counter gives no status at all.** `\d+` takes no sign, so
  `tasks_completed: -3` counts as a missing field, and the whole parse gives
  `null` rather than a clamped `0` (`ExitAnalyzer.NegativeFieldRejected`).
  The `Math.max(0, …)` clamps on the counters therefore never change a value.
- **`[X]` is never read as done.** `DONE_MARKERS` contains `[X]`, but the line
  expression `[ x\-]` is case-sensitive, so a line starting with `[X]` is
  skipped entirely (`TaskParser.CapitalBoxSkipped`). Done tasks are exactly
  the `[x]` lines.
- **`runLoop` never returns `error`.** The `LoopResult` type allows it, but no
  path produces it. The model's `ExitReason` leaves it out.
- **`runState.stagnationCount ?? 0` is a plain integer.** The state the loop
  starts from always has the field, so the `??` is not modelled.

## Model

| member | source | states |
|---|---|---|
| AiCommand.ResolveAiCommand | src/utils/aiCommand.ts:14-19 | A non-blank override is used, trimmed. Otherwise the result is `codex` exactly when `chatgpt` is not installed and `codex` is, and `chatgpt` in every other case. The result is never blank and never starts or ends with white space. |
| AiCommand.CodexOnlyWhen | src/utils/aiCommand.ts:15-18 | `codex` is chosen only when the override names it, or when no override is given and it is the only one of the two programs installed. |
| AiCommand.ResolveIsStable | src/utils/aiCommand.ts:14-15 | Feeding the chosen command back in as the override gives the same command, whatever is installed. |
| Runner.GetAiArgs | src/loop/runner.ts:70-79 | Non-empty configured arguments are used as they are. Otherwise the arguments are `exec - --full-auto` exactly when the trimmed, lower-cased command is `codex`, and empty in every other case. |
| Runner.CodexGetsExecArgs | src/loop/runner.ts:74-77 | When no override is given and only `codex` is installed, the resolved command gets the `exec - --full-auto` arguments. |
| Runner.StartState | src/loop/runner.ts:125-135 | A loaded state is used unchanged and not saved. Otherwise a state with loop 0, stagnation 0, no hash, no status, this start time and this directory is created and saved once. |
| Runner.Pass | src/loop/runner.ts:142-203 | A pass that lets the loop go on has advanced the loop counter by one and recorded this pass's hash and score. It has added one to the repeated-output counter when the hash equals the previous one, and reset it to 0 otherwise. It has done the same with the stagnation counter, comparing this score with the previous one. |
| Runner.LoopBody | src/loop/runner.ts:143-203 | The imperative body of the `while` loop computes exactly `Pass`. |
| Runner.Run | src/loop/runner.ts:142-211 | The agent is called at most as many times as the loop budget has left, and not at all once it is spent. No run saves more states than it made calls. A `max_loops` stop comes only once the loop counter has reached `maxLoops`. |
| Runner.RunLoopWith | src/loop/runner.ts:113-212 | The imperative loop returns `Run`'s result. It saves the start state (when it is fresh) followed by `Run`'s saves. |
| Runner.RunLoop | src/loop/runner.ts:113-212 | The same, with `parseStatusBlock` as the status parser and `getTasks` as the tasks reader. |
| Runner.RunCounts | src/loop/runner.ts:142-211 | The reported loop is the start loop plus the number of agent calls. It never exceeds `maxLoops` when the start does not. A `max_loops` stop reports `max(start, maxLoops)`. |
| Runner.RunOk | src/loop/runner.ts:142-211 | `ok` is true exactly when the exit reason is `exit_signal`. |
| Runner.RunSuccess | src/loop/runner.ts:194-203 | A successful run made at least one call. On its last pass, that pass's own status block says EXIT_SIGNAL true and every task is done. Its `lastStatus` is that pass's parse. No earlier pass met the condition. |
| Runner.RunDeadline | src/loop/runner.ts:142-145 | The deadline had not passed on any pass that called the agent. A `timeout` stop happens on a pass whose deadline check fired, with no agent call on that pass. |
| Runner.RunSaves | src/loop/runner.ts:146-192 | Every pass saves once, except a pass stopped by a detector, which stops before the save. The k-th save is the whole run state after pass k. Its loop counter is the start loop plus k + 1, and its hash is the hash of pass k's output. Its status is the latest parsed block so far. Its stagnation counter is the streak of unchanged scores ending at pass k, plus the starting counter when the streak reaches back to the first pass. Its start time and directory are the starting ones. |
| Runner.PassStatus | src/loop/runner.ts:152-157 | After a pass, the last status is this pass's parse when there is one, and the previous one otherwise. A timeout pass keeps the previous status. |
| Runner.RunLastStatus | src/loop/runner.ts:152-210 | The reported `lastStatus` is the latest non-null parse among the passes that called the agent, or the starting one when there is none. A null parse never erases it. |
| Runner.PassCounter | src/loop/runner.ts:159-189 | On each pass a detector's counter goes up by one on a repeat (or a stall) and drops to 0 otherwise. A detector's stop happens only on a pass it counts, once the incremented counter reaches the threshold. Conversely, such a pass always stops the loop. |
| Runner.PassReasons | src/loop/runner.ts:143-203 | After the deadline a pass stops with `timeout`, the previous loop counter and status, and no call. Otherwise the repeated-output detector decides first: the pass stops with `repeated_output` exactly when the output repeats and the incremented counter reaches its threshold. It stops with `stagnation` exactly when that did not happen, the score is unchanged and the incremented stagnation counter reaches its threshold. It stops with `exit_signal` exactly when neither detector fired and the success condition holds. Every stop but the timeout reports the advanced loop counter, and only the successful one saves. |
| Runner.DetectorStreak | src/loop/runner.ts:159-189 | A run stopped by a detector ends with a streak of repeated (or stalled) passes. That streak, plus the counter the run started with when the streak reaches back to the first pass, reaches the threshold. |
| Runner.FreshStagnation | src/loop/runner.ts:138-189 | From a state with stagnation 0, a `stagnation` stop comes after at least `stagnationThreshold` calls. The score did not change over each of the last `stagnationThreshold` passes. |
| Runner.FreshRepeated | src/loop/runner.ts:138-174 | From a state with no stored hash, a `repeated_output` stop comes after more than `repeatedOutputThreshold` calls. The last `repeatedOutputThreshold + 1` outputs all hash the same. |
| ExitAnalyzer.MarkerSearch | src/core/exitAnalyzer.ts:4 | Finds the leftmost `STATUS:` (any case) followed by white space up to a line feed, or reports that there is none. |
| ExitAnalyzer.StatusBlock | src/core/exitAnalyzer.ts:13-15 | There is a block exactly when the text contains a `STATUS:` marker line. |
| ExitAnalyzer.NumberSearch | src/core/exitAnalyzer.ts:5-7 | Finds the leftmost place where a key is followed by optional white space and a digit, or reports that there is none. |
| ExitAnalyzer.ExitSearch | src/core/exitAnalyzer.ts:8 | Finds the leftmost `EXIT_SIGNAL:` followed by optional white space and `true` or `false` in any case, or reports that there is none. |
| ExitAnalyzer.SummarySearch | src/core/exitAnalyzer.ts:9 | Finds the leftmost `summary:` (any case) with at least one character after it, or reports that there is none. |
| ExitAnalyzer.SummaryText | src/core/exitAnalyzer.ts:9-20 | Empty when there is no `summary:` field. Otherwise it is the text from the first character after the key's white space up to the next line feed, trimmed, and empty when only white space follows the key. Either way it is one trimmed line. |
| ExitAnalyzer.ParseBlock | src/core/exitAnalyzer.ts:15-35 | All or nothing: a result exists exactly when progress, both counters and the exit signal are present. Progress is the first match clamped to at most 100, and the counters are the first matches. The exit signal is true exactly when the token is `true` in any case. The summary is the first summary line, trimmed. |
| ExitAnalyzer.ParseStatusBlock | src/core/exitAnalyzer.ts:11-36 | No marker gives null. Otherwise it gives the parse of the text after the first marker line, with the bounds 0..100 on progress, the bound ≥ 0 on the counters and a single trimmed summary line. |
| ExitAnalyzer.TokenSaysTrue | src/core/exitAnalyzer.ts:33 | Lower-casing the captured token gives `true` exactly when the token is `true` in some case. |
| ExitAnalyzer.HasStatusBlock | src/core/exitAnalyzer.ts:38-40 | True exactly when `parseStatusBlock` gives a result. A true result implies that the text has a marker. |
| ExitAnalyzer.FirstBlockWins | src/core/exitAnalyzer.ts:4-20 | Text appended after a complete first block (a second block included) leaves the parse unchanged. |
| ExitAnalyzer.NegativeFieldRejected | src/core/exitAnalyzer.ts:5-7 | A numeric field whose every occurrence has a minus sign after the key makes the whole parse null. |
| TaskParser.MatchTaskLine | src/tasks/parser.ts:26 | The two captures of a match split the line exactly. The second holds no line terminator and does not start with white space, because the greedy `\s*` before it took all of that. |
| TaskParser.LineTask | src/tasks/parser.ts:24-32 | A line that gives a task starts, trimmed, with `[`, a mark from ` `, `x`, `-` and `]`. The mark decides the status: `done` for `x`, `in-progress` for `-`, `pending` for a space. |
| TaskParser.BoxText | src/tasks/parser.ts:28-32 | The trimmed box `[x]` reads as done, `[-]` as in progress and `[ ]` as pending. |
| TaskParser.LineTaskShape | src/tasks/parser.ts:24-32 | Blank and `#` lines give no task. A task's title is the trimmed text after the three box characters, and it is trimmed and on one line. Conversely, every line that starts, trimmed, with a box of mark ` `, `x` or `-` and has no line terminator after it gives a task. |
| TaskParser.Numbered | src/tasks/parser.ts:33-38 | The k-th task found gets the id `String(k + 1)`. |
| TaskParser.ReadTaskLine | src/tasks/parser.ts:24-32 | The imperative line step reads what `LineTask` reads. |
| TaskParser.ReadTaskLines | src/tasks/parser.ts:21-40 | The imperative loop builds the numbered task list of the lines. |
| TaskParser.ParseTasks | src/tasks/parser.ts:16-41 | A missing file gives no tasks. Otherwise there is at most one task per line. The tasks are numbered 1, 2, … in order, and every title is trimmed and on one line. |
| TaskParser.ParseTasksFile | src/tasks/parser.ts:16-41 | The method gives `ParseTasks` of the file. |
| TaskParser.TasksAreMatchedLines | src/tasks/parser.ts:23-38 | The titles and statuses of the parsed tasks are the matched lines' entries, in order. Every other line contributes nothing. |
| TaskParser.ParsedTitlesClean | src/tasks/parser.ts:29 | Every parsed title is trimmed and holds no line terminator. |
| TaskParser.NoFileNoTasks | src/tasks/parser.ts:18-20 | A missing file and an empty file give no tasks. |
| TaskParser.TasksToMarkdown | src/tasks/parser.ts:43-50 | The text is empty exactly when there are no tasks, and it starts with the first task's line. |
| TaskParser.MarkdownLines | src/tasks/parser.ts:44-48 | There is one line per task, in order. |
| TaskParser.MarkdownLineParses | src/tasks/parser.ts:45-47 | Each written line reads back as the task's title and status. |
| TaskParser.StatusOfBox | src/tasks/parser.ts:46 | The box written for a status is read back as that status. |
| TaskParser.MarkdownSplits | src/tasks/parser.ts:43-50 | Splitting the written file on line feeds gives back exactly the written lines. |
| TaskParser.MarkdownRoundTrip | src/tasks/parser.ts:43-50 | Parsing the markdown of tasks with trimmed titles gives the same titles and statuses, in order, numbered 1..n. |
| TaskParser.ReparseKeepsTasks | src/tasks/parser.ts:16-50 | Writing a parsed list back and parsing it again keeps every id, title and status. |
| TaskParser.CapitalBoxSkipped | src/tasks/parser.ts:26-27 | A line that starts, trimmed, with `[X]` gives no task. |
| TaskParser.ThreeMarkdown | src/tasks/parser.ts:43-50 | Three tasks A, B and C, one of each status, are written as `[ ] A\n[-] B\n[x] C`. |
| TaskParser.ThreeStatusExample | src/tasks/parser.test.ts:41-50 | `[ ] A\n[-] B\n[x] C` parses to three tasks with ids 1..3, one of each status. |
| TaskParser.ThreeReparse | src/tasks/parser.ts:16-50 | Any three tasks A (pending), B (in progress) and C (done) round-trip through the file as tasks 1..3. |
| TaskParser.CountStatus | src/tasks/parser.ts:52-62 | The count of a status is its number of occurrences (a multiset count) among the tasks' statuses. |
| TaskParser.CountsCover | src/tasks/parser.ts:56-60 | The three counts add up to the number of tasks. |
| TaskParser.CountByStatus | src/tasks/parser.ts:52-62 | The loop returns the pending, in-progress and done counts. |
| TaskManager.FindTask | src/tasks/manager.ts:11 | Gives the first index holding the id, or reports that no task has it. |
| TaskManager.TaskFile.GetTasks | src/tasks/manager.ts:5-7 | Gives the parsed tasks of the file, numbered 1, 2, … |
| TaskManager.TaskFile.AllTasksDone | src/tasks/manager.ts:17-20 | True exactly when the list is non-empty and every task is done, that is, when the done count is the length and is positive. |
| TaskManager.AllDoneCount | src/tasks/manager.ts:19 | Every task is done exactly when the done count equals the length. |
| TaskManager.WithStatus | src/tasks/manager.ts:11-13 | The list keeps its length and order. Only the first task with the id changes, and only in its status, which becomes the new one. |
| TaskManager.SetStatusContent | src/tasks/manager.ts:9-15 | A missing file stays missing. An id that no parsed task has leaves the file as it was. |
| TaskManager.TaskFile.SetTaskStatus | src/tasks/manager.ts:9-15 | The file becomes the markdown of the parsed list with that one status changed. It stays untouched when the id is absent. |
| TaskManager.FindParsedTask | src/tasks/manager.ts:11 | In a parsed list, the id `String(k + 1)` finds task k. |
| TaskManager.SetStatusRereads | src/tasks/manager.ts:9-15 | After the rewrite, parsing again gives the same number of tasks. The chosen task has the new status and keeps its id and title. Every other task is unchanged. |
| GitStat.NameEndSearch | src/utils/git.ts:20 | The lazy `(.+?)` ends at the first place after the name's start where optional white space, a bar, optional white space and a digit follow. The name stays on one line. |
| GitStat.SpanFacts | src/utils/git.ts:20 | A matched name is non-empty, holds no line terminator, and is followed by optional white space, a bar, optional white space and a digit. |
| GitStat.NoBarNoMatch | src/utils/git.ts:20-21 | A line with no bar character is not a stat line. |
| GitStat.StatLineExample | src/utils/git.ts:20-24 | The line for `src/a.ts` with count 3 and marks `++-` (padded name, bar, count, marks) reads as exactly those three values. |
| GitStat.MatchStatLine | src/utils/git.ts:20 | A matched name is non-empty and on one line, and the marks are all `+` or `-`. |
| GitStat.AddLine | src/utils/git.ts:21-27 | A matching line adds its trimmed name to the file set. It adds at most its count to each of the insertions and the deletions. |
| GitStat.TallyOf | src/utils/git.ts:15-28 | The file set is exactly the set of trimmed names of the matching lines. The insertions and deletions are the sums of the counts of the matching lines whose marks hold a `+` or a `-`, summed from the first line. |
| GitStat.MarksDecideSides | src/utils/git.ts:22-26 | A match adds its trimmed name to the file set. It adds its count to the insertions when the marks hold a `+`, and to the deletions when they hold a `-`. |
| GitStat.CountStatLine | src/utils/git.ts:21-27 | The imperative loop step performs exactly `AddLine`. |
| GitStat.FilesAtMostMatches | src/utils/git.ts:18-30 | Files are counted once each: their number is at most the number of matching lines. |
| GitStat.NoMatchNoChange | src/utils/git.ts:16-28 | Output with no stat line gives 0 files, 0 insertions and 0 deletions. |
| GitStat.DiffSummaryOf | src/utils/git.ts:14-34 | Null exactly when git fails or prints nothing. Otherwise the file count is the number of distinct trimmed names among the matching lines of the trimmed output. The insertions and deletions are the sums over the matching lines whose marks hold a `+` or a `-`. The summary is the first 500 characters of the output, never more. |
| GitStat.GetGitDiffSummary | src/utils/git.ts:11-38 | The imperative loop computes `DiffSummaryOf`. |
| GitStat.FileChangeScore | src/utils/git.ts:40-44 | No summary scores 0. A summary scores 0 exactly when all three counts are 0. The score is at least twice the files, and at least insertions plus deletions. |
| GitStat.ScoreZero | src/utils/git.ts:14-44 | The score is 0 exactly when git fails, prints nothing, or prints no stat line. |
| LiveUi.LastN | src/loop/liveUi.ts:90-92 | Keeps `min(n, length)` elements, namely the last ones, in order. |
| LiveUi.LastNSnoc | src/loop/liveUi.ts:88-93 | Appending and then trimming to n is the same as trimming the whole history to n. |
| LiveUi.LiveUiState.constructor | src/loop/liveUi.ts:51-57 | The view starts with `-` labels, `Running` and no errors. |
| LiveUi.CreateLiveUi | src/loop/liveUi.ts:48-57 | Gives no view exactly when disabled, and otherwise a fresh view in the initial state. |
| LiveUi.LiveUiState.SetLoop | src/loop/liveUi.ts:76-78 | The label becomes `loop/maxLoops` and nothing else changes. |
| LiveUi.LiveUiState.SetStatus | src/loop/liveUi.ts:79-81 | Only the last status changes. |
| LiveUi.LiveUiState.SetAiSummary | src/loop/liveUi.ts:82-84 | Only the last agent summary changes. |
| LiveUi.LiveUiState.SetStopReason | src/loop/liveUi.ts:85-87 | Only the run state changes. |
| LiveUi.LiveUiState.AddError | src/loop/liveUi.ts:88-93 | The buffer is the last (at most 12) messages ever added, in order, the newest last. Nothing else changes. |
| LiveUi.Line | src/loop/liveUi.ts:25-27 | A rule of `─` that is `max(12, width)` long. |
| LiveUi.SectionWidth | src/loop/liveUi.ts:30 | The width is 46, or the title length plus 4 when that is larger. |
| LiveUi.WrapSection | src/loop/liveUi.ts:29-38 | Gives the body rows plus four framing rows: the top rule, the title row, the middle rule, each body row indented by two, then the bottom rule. |
| LiveUi.SectionFrameFits | src/loop/liveUi.ts:29-38 | The three rules are equally long, and the title row fits inside them. |
| LiveUi.StateBadge | src/loop/liveUi.ts:40-46 | The badge is the first of Complete, Stopped and Error whose word the lower-cased state starts with, and Running otherwise. |
| LiveUi.BadgeIgnoresCase | src/loop/liveUi.ts:41 | Upper-casing the state does not change its badge. |
| LiveUi.BadgeCompleteFirst | src/loop/liveUi.ts:42-44 | `COMPLETE with error` is Complete: the complete check comes first. |
| LiveUi.BadgeStopped | src/loop/liveUi.ts:43 | `STOPPED by user` is Stopped. |
| LiveUi.BadgeOnlyPrefix | src/loop/liveUi.ts:44-45 | `Running, last error ignored` is Running: a word only counts at the start. |
| LiveUi.ErrorRows | src/loop/liveUi.ts:60-62 | With errors, one bulleted row for each of the last (at most 12) errors, in order. With none, the single placeholder row. |

## Left out

- **Process calls are not modelled.** The agent call (`runOneLoop`, `execa`),
  `git diff --stat`, `which`/`where` and `isGitRepo` become inputs. They are
  the `World`'s outputs and diff summaries per pass, the `available`
  predicate, and the exit code and stdout given to `GetGitDiffSummary`.
- **`buildPrompt` is not modelled.** Only what the agent prints matters to the
  loop's decisions, and the prompt text does not.
- **The clock is not modelled.** `Date.now()` against the deadline is the
  per-pass `deadlinePassed` input. Minutes and milliseconds are not modelled.
- **File I/O and JSON are not modelled.** `loadState`/`saveState` are
  represented by the loaded state and the sequence of saved states. Reading
  `codchestra.tasks.md` is the per-pass tasks-file input, and a missing file
  is `None`. JSON robustness is out of scope.
- **`loadConfig` and the options merge are not modelled.** `Options` holds the
  merged values, and `timeoutMinutes` only shows up through `deadlinePassed`.
- **`hashOutput` (SHA-256, 16 hex digits) is any function from output to
  string.** Hash collisions are therefore allowed, as they are in the source.
- **`stripAnsi` is not modelled.** The parser is given the already stripped
  text.
- **The JavaScript string semantics are modelled only partly:**
  - Characters are Dafny characters (code points), not UTF-16 code units.
  - `slice(0, 500)` therefore counts code points.
  - `toLowerCase`/`toUpperCase` fold only ASCII letters.
  - `\s` and `trim` use the full JavaScript white-space set.
- **`parseInt` is exact over unbounded naturals.** Precision loss beyond 2^53
  is not modelled.
- **The `catch` in `getGitDiffSummary` is not modelled.** An exception from
  the process call gives `null`, which is the same as a failing exit code.
- **Rendering is not modelled.** `render`, `stop`, the banner, `chalk`
  colours, `log-update` and the logging calls are left out. The view's rows
  are the plain text they show (`ErrorRows`, `WrapSection`, `StateBadge`,
  `Line`).
- **The bullet-formatted STATUS test is not evaluated as a concrete input.**
  The behaviour it exercises is what `NumberSearch` states. A key matches
  anywhere in the block, after a `- ` for instance, and `DigitsAt` stops at
  the first non-digit (the `%`).
- Runner.DetectorStreak: states the stop in terms of the streak of counted
  passes, not the exact pass count. A counter carried over from a loaded state
  makes the exact count depend on history before the call.
