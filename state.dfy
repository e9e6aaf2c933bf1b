/**
 * The two records the loop keeps about its progress (src/core/state.ts).
 * Loading, saving and clearing the JSON file are not modelled here; the loop
 * takes the loaded record as an input and logs what it saves.
 */
module State {
  import opened Strings

  /** One successfully parsed STATUS block. */
  datatype ParsedStatus = ParsedStatus(
    progress: int,
    tasksCompleted: int,
    tasksTotal: int,
    exitSignal: bool,
    summary: string)

  /** The persisted progress record of one working directory. */
  datatype RunState = RunState(
    loop: int,
    stagnationCount: int,
    lastOutputHash: Option<string>,
    lastStatus: Option<ParsedStatus>,
    startedAt: string,
    cwd: string)
}
