/**
 * The iteration controller (src/loop/runner.ts): `runLoop` calls the agent
 * once per pass until the agent reports it is done and every task is done,
 * until a detector sees repeated output or no file changes, until the
 * deadline passes, or until the loop budget is spent.
 *
 * What the loop observes from the outside world is a `World`: whether the
 * deadline has passed when pass `p` starts, what the agent printed on pass
 * `p`, the summary `getGitDiffSummary` gives before the loop (index 0) and
 * after pass `p` (index p + 1), and the tasks file `getTasks` reads on pass
 * `p`.
 * `hashOutput` is an arbitrary function of the output: only equality of its
 * results matters to the loop.
 */
module Runner {
  import opened Strings
  import opened State
  import ExitAnalyzer
  import opened TaskParser
  import TaskManager
  import GitStat
  import AiCommand

  /** `getAiArgs`: the configured arguments when there are any, else the non-interactive flags for `codex`, else none. */
  function GetAiArgs(aiArgs: Option<seq<string>>, aiCommand: string): (r: seq<string>)
    ensures aiArgs.Some? && |aiArgs.value| > 0 ==> r == aiArgs.value
    ensures !(aiArgs.Some? && |aiArgs.value| > 0) ==>
              (r == ["exec", "-", "--full-auto"] <==> LowerString(Trim(aiCommand)) == "codex")
    ensures !(aiArgs.Some? && |aiArgs.value| > 0) ==> (r == [] <==> LowerString(Trim(aiCommand)) != "codex")
  {
    if aiArgs.Some? && |aiArgs.value| > 0 then aiArgs.value
    else if LowerString(Trim(aiCommand)) == "codex" then ["exec", "-", "--full-auto"]
    else []
  }

  /** Without configured arguments, a machine that only has `codex` runs it with the non-interactive flags. */
  lemma CodexGetsExecArgs(override: string, available: string -> bool)
    requires Trim(override) == []
    requires !available("chatgpt") && available("codex")
    ensures GetAiArgs(None, AiCommand.ResolveAiCommand(override, available)) == ["exec", "-", "--full-auto"]
  {
    var cmd := AiCommand.ResolveAiCommand(override, available);
    assert cmd == "codex";
    TrimOfTrimmed(cmd);
  }

  /** The loop budget and the two detector thresholds, after the configuration is merged. */
  datatype Options = Options(maxLoops: int, stagnationThreshold: int, repeatedOutputThreshold: int)

  /**
   * The outside world as the loop sees it, pass by pass (passes are numbered
   * from 0 within one call of `runLoop`).
   */
  datatype World = World(
    deadlinePassed: nat -> bool,
    output: nat -> string,
    diff: nat -> Option<GitStat.DiffSummary>,
    tasksFile: nat -> Option<string>,
    hash: string -> string)

  /** The reasons `runLoop` gives (it never gives `error`). */
  datatype ExitReason = ExitSignal | MaxLoops | Timeout | Stagnation | RepeatedOutput

  datatype LoopResult = LoopResult(ok: bool, exitReason: ExitReason, loop: int, lastStatus: Option<ParsedStatus>)

  /** The state the loop starts from: the loaded one, or a fresh one that is saved at once. */
  function StartState(loaded: Option<RunState>, now: string, cwd: string): (r: (RunState, seq<RunState>))
    ensures loaded.Some? ==> r == (loaded.value, [])
    ensures loaded.None? ==> r.0.loop == 0 && r.0.stagnationCount == 0 && r.1 == [r.0]
    ensures loaded.None? ==> r.0.lastOutputHash.None? && r.0.lastStatus.None?
    ensures loaded.None? ==> r.0.startedAt == now && r.0.cwd == cwd
  {
    match loaded
    case Some(rs) => (rs, [])
    case None =>
      var rs := RunState(0, 0, None, None, now, cwd);
      (rs, [rs])
  }

  /* The loop as a recursive function over its variables. */

  /** One run: the options, the world, the status-block parser applied to the agent's output and the tasks-file reader. */
  datatype Setup = Setup(o: Options, w: World, parse: string -> Option<ParsedStatus>, getTasks: Option<string> -> seq<Task>)

  /** The variables of the loop: the run state and the locals of `runLoop`, plus the pass number. */
  datatype Vars = Vars(
    runState: RunState,
    lastOutputHash: Option<string>,
    sameOutputCount: nat,
    lastScore: nat,
    pass: nat)

  /** What one pass does: stop with a result, or go on with new variables; either way with what it saved. */
  datatype Step = Halt(result: LoopResult, saved: seq<RunState>) | Next(v: Vars, saved1: RunState)

  /** The agent's own block on pass p says it is done, and every task in the file is done. */
  predicate Succeeds(u: Setup, p: nat)
  {
    var st := u.parse(u.w.output(p));
    st.Some? && st.value.exitSignal && TaskManager.AllDone(u.getTasks(u.w.tasksFile(p)))
  }

  /** `hashOutput` of what the agent printed on pass p. */
  function Hash(u: Setup, p: nat): string
  {
    u.w.hash(u.w.output(p))
  }

  /** `fileChangeScore` before the loop (p = 0) and after pass p - 1. */
  function Score(u: Setup, p: nat): nat
  {
    GitStat.FileChangeScore(u.w.diff(p))
  }

  /**
   * One pass of the `while` body: the deadline check, the agent call, the
   * parse, the repeated-output detector, the stagnation detector, the save
   * and the success check, in that order.
   */
  function Pass(u: Setup, v: Vars): (r: Step)
    ensures r.Next? ==> r.v.runState.loop == v.runState.loop + 1 && r.v.pass == v.pass + 1
    ensures r.Next? ==> r.v.lastScore == Score(u, v.pass + 1) && r.v.lastOutputHash == Some(Hash(u, v.pass))
    ensures r.Next? ==> r.v.runState.stagnationCount
                        == if Score(u, v.pass + 1) == v.lastScore then v.runState.stagnationCount + 1 else 0
    ensures r.Next? ==> r.v.sameOutputCount
                        == if Some(Hash(u, v.pass)) == v.lastOutputHash then v.sameOutputCount + 1 else 0
  {
    if u.w.deadlinePassed(v.pass) then
      Halt(LoopResult(false, Timeout, v.runState.loop, v.runState.lastStatus), [])
    else
      var stdout := u.w.output(v.pass);
      var status := u.parse(stdout);
      var rs1 := v.runState.(loop := v.runState.loop + 1,
                             lastStatus := if status.Some? then status else v.runState.lastStatus);
      var outHash := Hash(u, v.pass);
      var repeated := Some(outHash) == v.lastOutputHash;
      var same := if repeated then v.sameOutputCount + 1 else 0;
      if repeated && same >= u.o.repeatedOutputThreshold then
        Halt(LoopResult(false, RepeatedOutput, rs1.loop, rs1.lastStatus), [])
      else
        var score := Score(u, v.pass + 1);
        var stalled := score == v.lastScore;
        var rs2 := rs1.(lastOutputHash := Some(outHash),
                        stagnationCount := if stalled then rs1.stagnationCount + 1 else 0);
        if stalled && rs2.stagnationCount >= u.o.stagnationThreshold then
          Halt(LoopResult(false, Stagnation, rs2.loop, rs2.lastStatus), [])
        else if Succeeds(u, v.pass) then
          Halt(LoopResult(true, ExitSignal, rs2.loop, status), [rs2])
        else
          Next(Vars(rs2, Some(outHash), same, score, v.pass + 1), rs2)
  }

  /** A run's result, the states it saved, and how many times it called the agent. */
  datatype Outcome = Outcome(result: LoopResult, saves: seq<RunState>, calls: nat)

  /** The loop from variables v until it returns. */
  function Run(u: Setup, v: Vars): (r: Outcome)
    ensures r.calls <= Max(0, u.o.maxLoops - v.runState.loop)
    ensures |r.saves| <= r.calls
    ensures r.result.exitReason == MaxLoops ==> r.result.loop >= u.o.maxLoops
    decreases u.o.maxLoops - v.runState.loop
  {
    if v.runState.loop >= u.o.maxLoops then
      Outcome(LoopResult(false, MaxLoops, v.runState.loop, v.runState.lastStatus), [], 0)
    else match Pass(u, v)
      case Halt(result, saved) => Outcome(result, saved, if result.exitReason == Timeout then 0 else 1)
      case Next(v', saved) =>
        var rest := Run(u, v');
        Outcome(rest.result, [saved] + rest.saves, rest.calls + 1)
  }

  /** The variables when the loop is entered: the start state, its persisted hash, a zero count and the first score. */
  function StartVars(u: Setup, s: RunState): Vars
  {
    Vars(s, s.lastOutputHash, 0, Score(u, 0), 0)
  }

  /**
   * The body of the `while` loop of `runLoop`, as written: the deadline
   * check, the agent call, the parse, the two detectors, the save and the
   * success check.
   */
  method LoopBody(o: Options, w: World, parse: string -> Option<ParsedStatus>,
                  getTasks: Option<string> -> seq<Task>, v: Vars) returns (step: Step)
    ensures step == Pass(Setup(o, w, parse, getTasks), v)
  {
    ghost var u := Setup(o, w, parse, getTasks);
    var runState := v.runState;
    var pass := v.pass;
    if w.deadlinePassed(pass) {
      return Halt(LoopResult(false, Timeout, runState.loop, runState.lastStatus), []);
    }

    runState := runState.(loop := runState.loop + 1);
    var stdout := w.output(pass);

    var status := parse(stdout);
    if status.Some? {
      runState := runState.(lastStatus := status);
    }

    var outHash := w.hash(stdout);
    assert outHash == Hash(u, pass);
    var sameOutputCount := v.sameOutputCount;
    if Some(outHash) == v.lastOutputHash {
      sameOutputCount := sameOutputCount + 1;
      if sameOutputCount >= o.repeatedOutputThreshold {
        return Halt(LoopResult(false, RepeatedOutput, runState.loop, runState.lastStatus), []);
      }
    } else {
      sameOutputCount := 0;
    }
    var lastOutputHash := Some(outHash);
    runState := runState.(lastOutputHash := Some(outHash));

    var score := GitStat.FileChangeScore(w.diff(pass + 1));
    assert score == Score(u, pass + 1);
    if score == v.lastScore {
      runState := runState.(stagnationCount := runState.stagnationCount + 1);
      if runState.stagnationCount >= o.stagnationThreshold {
        return Halt(LoopResult(false, Stagnation, runState.loop, runState.lastStatus), []);
      }
    } else {
      runState := runState.(stagnationCount := 0);
    }
    var lastScore := score;

    var tasks := getTasks(w.tasksFile(pass));
    var allDone := |tasks| > 0 && forall k :: 0 <= k < |tasks| ==> tasks[k].status == Done;
    if status.Some? && status.value.exitSignal && allDone {
      return Halt(LoopResult(true, ExitSignal, runState.loop, status), [runState]);
    }
    return Next(Vars(runState, lastOutputHash, sameOutputCount, lastScore, pass + 1), runState);
  }

  /**
   * `runLoop` once the configuration is merged, for a given status parser:
   * the loaded state (if any), the clock reading for a fresh state and the
   * directory are inputs, and `saves` lists every `saveState`, in order.
   */
  method RunLoopWith(o: Options, w: World, parse: string -> Option<ParsedStatus>, getTasks: Option<string> -> seq<Task>,
                     loaded: Option<RunState>, now: string, cwd: string)
    returns (r: LoopResult, saves: seq<RunState>)
    ensures var (s, first) := StartState(loaded, now, cwd);
      var out := Run(Setup(o, w, parse, getTasks), StartVars(Setup(o, w, parse, getTasks), s));
      r == out.result && saves == first + out.saves
  {
    var runState: RunState;
    if loaded.Some? {
      runState := loaded.value;
      saves := [];
    } else {
      runState := RunState(0, 0, None, None, now, cwd);
      saves := [runState];
    }
    ghost var u := Setup(o, w, parse, getTasks);
    ghost var first := saves;

    var lastScore := GitStat.FileChangeScore(w.diff(0));
    var v := Vars(runState, runState.lastOutputHash, 0, lastScore, 0);
    ghost var out := Run(u, v);
    assert StartState(loaded, now, cwd) == (runState, first);

    while v.runState.loop < o.maxLoops
      invariant Run(u, v).result == out.result && saves + Run(u, v).saves == first + out.saves
      decreases o.maxLoops - v.runState.loop
    {
      var step := LoopBody(o, w, parse, getTasks, v);
      match step
      case Halt(result, saved) =>
        return result, saves + saved;
      case Next(next, saved) =>
        saves := saves + [saved];
        v := next;
    }
    return LoopResult(false, MaxLoops, v.runState.loop, v.runState.lastStatus), saves;
  }

  /** `runLoop` with the status-block parser of `ExitAnalyzer`. */
  method RunLoop(o: Options, w: World, loaded: Option<RunState>, now: string, cwd: string)
    returns (r: LoopResult, saves: seq<RunState>)
    ensures var (s, first) := StartState(loaded, now, cwd);
      var u := Setup(o, w, ExitAnalyzer.ParseStatusBlock, ParseTasks);
      var out := Run(u, StartVars(u, s));
      r == out.result && saves == first + out.saves
  {
    r, saves := RunLoopWith(o, w, ExitAnalyzer.ParseStatusBlock, ParseTasks, loaded, now, cwd);
  }

  /* What a run does, proved over `Run`. */

  /**
   * Each call of the agent adds one to the loop counter, and a run started
   * within the budget never goes past it; the budget stop comes exactly at
   * the budget.
   */
  lemma {:induction false} RunCounts(u: Setup, v: Vars)
    ensures var out := Run(u, v);
      out.result.loop == v.runState.loop + out.calls
      && (v.runState.loop <= u.o.maxLoops ==> out.result.loop <= u.o.maxLoops)
      && (out.result.exitReason == MaxLoops ==> out.result.loop == Max(v.runState.loop, u.o.maxLoops))
    decreases u.o.maxLoops - v.runState.loop
  {
    if v.runState.loop < u.o.maxLoops {
      match Pass(u, v)
      case Halt(_, _) =>
      case Next(v', _) => RunCounts(u, v');
    }
  }

  /** `ok` is true exactly for the exit-signal stop. */
  lemma {:induction false} RunOk(u: Setup, v: Vars)
    ensures Run(u, v).result.ok <==> Run(u, v).result.exitReason == ExitSignal
    decreases u.o.maxLoops - v.runState.loop
  {
    if v.runState.loop < u.o.maxLoops {
      match Pass(u, v)
      case Halt(_, _) =>
      case Next(v', _) => RunOk(u, v');
    }
  }

  /**
   * A successful run stopped on the first pass whose own status block says
   * it is done while every task in the file is done, and reports that block.
   */
  lemma {:induction false} RunSuccess(u: Setup, v: Vars)
    ensures var out := Run(u, v);
      out.result.ok ==>
        out.calls >= 1
        && Succeeds(u, v.pass + out.calls - 1)
        && out.result.lastStatus == u.parse(u.w.output(v.pass + out.calls - 1))
        && forall q :: v.pass <= q < v.pass + out.calls - 1 ==> !Succeeds(u, q)
    decreases u.o.maxLoops - v.runState.loop
  {
    if v.runState.loop < u.o.maxLoops {
      match Pass(u, v)
      case Halt(_, _) =>
      case Next(v', _) => RunSuccess(u, v');
    }
  }

  /**
   * The agent is only called on passes that start before the deadline, and a
   * timeout is reported on the first pass that starts after it.
   */
  lemma {:induction false} RunDeadline(u: Setup, v: Vars)
    ensures var out := Run(u, v);
      (forall q :: v.pass <= q < v.pass + out.calls ==> !u.w.deadlinePassed(q))
      && (out.result.exitReason == Timeout ==> u.w.deadlinePassed(v.pass + out.calls))
    decreases u.o.maxLoops - v.runState.loop
  {
    if v.runState.loop < u.o.maxLoops {
      match Pass(u, v)
      case Halt(_, _) =>
      case Next(v', _) => RunDeadline(u, v');
    }
  }

  /**
   * `saveState` runs once per pass that gets past both detectors, and the
   * pass a detector stops is not saved: the k-th saved state is the whole run
   * state after the k-th pass.
   */
  lemma {:induction false} RunSaves(u: Setup, v: Vars)
    ensures var out := Run(u, v);
      |out.saves| == (if out.result.exitReason in {Stagnation, RepeatedOutput} then out.calls - 1 else out.calls)
      && forall k: nat :: k < |out.saves| ==> SavedAfter(u, v, k, out.saves[k])
    decreases u.o.maxLoops - v.runState.loop
  {
    if v.runState.loop < u.o.maxLoops {
      FirstSave(u, v);
      match Pass(u, v)
      case Halt(_, _) =>
      case Next(v', _) =>
        RunSaves(u, v');
        RunCounts(u, v');
        var out := Run(u, v);
        var rest := Run(u, v');
        assert out.saves == [Pass(u, v).saved1] + rest.saves;
        forall k: nat | 1 <= k < |out.saves|
          ensures SavedAfter(u, v, k, out.saves[k])
        {
          assert out.saves[k] == rest.saves[k - 1];
          LaterSave(u, v, k - 1, out.saves[k]);
        }
    }
  }

  /**
   * What the state saved after pass k of a run entered with variables v
   * holds: the loop counter k + 1 past the start, the hash of that pass's
   * output, the latest status block so far, the stagnation counter of that
   * pass, and the start time and directory it started with.
   */
  predicate SavedAfter(u: Setup, v: Vars, k: nat, s: RunState)
  {
    s.loop == v.runState.loop + k + 1
    && s.lastOutputHash == Some(Hash(u, v.pass + k))
    && s.lastStatus == LatestStatus(u, v.runState.lastStatus, v.pass, v.pass + k + 1)
    && s.stagnationCount == CountAfter(u, Stall, v, v.pass + k)
    && s.startedAt == v.runState.startedAt && s.cwd == v.runState.cwd
  }

  /**
   * A detector's counter after pass p: the streak of counted passes ending at
   * p, plus the counter the run was entered with when the streak reaches back
   * to the first pass.
   */
  function CountAfter(u: Setup, d: Detector, v: Vars, p: nat): int
    requires v.pass <= p
  {
    var m := Streak(u, d, v, v.pass, p);
    if m == p - v.pass + 1 then Counter(d, v) + m else m
  }

  /** The state a pass saves is the one after that pass. */
  lemma FirstSave(u: Setup, v: Vars)
    requires v.runState.loop < u.o.maxLoops
    ensures Pass(u, v).Next? ==> SavedAfter(u, v, 0, Pass(u, v).saved1)
    ensures Pass(u, v).Halt? ==> forall k: nat :: k < |Pass(u, v).saved| ==> SavedAfter(u, v, 0, Pass(u, v).saved[k])
  {
    PassCounter(u, Stall, v);
    PassStatus(u, v);
  }

  /** A state saved after pass k of the run from the next pass on is saved after pass k + 1 of this run. */
  lemma LaterSave(u: Setup, v: Vars, k: nat, s: RunState)
    requires v.runState.loop < u.o.maxLoops && Pass(u, v).Next?
    requires SavedAfter(u, Pass(u, v).v, k, s)
    ensures SavedAfter(u, v, k + 1, s)
  {
    PassStatus(u, v);
    LatestStatusFront(u, v.runState.lastStatus, v.pass, v.pass + k + 2);
    CountAfterStep(u, Stall, v, v.pass + k + 1);
  }

  /** A counter after pass p is the same whether counted from this pass or from the next. */
  lemma CountAfterStep(u: Setup, d: Detector, v: Vars, p: nat)
    requires v.runState.loop < u.o.maxLoops && Pass(u, v).Next?
    requires v.pass < p
    ensures CountAfter(u, d, Pass(u, v).v, p) == CountAfter(u, d, v, p)
  {
    var w := Pass(u, v).v;
    PassCounter(u, d, v);
    NextAgrees(u, d, v, p);
    StreakAgree(u, d, v, w, w.pass, p);
    StreakFront(u, d, v, v.pass, p);
  }

  /** The status block of the latest pass in [lo, hi) that had one, or `init` when none did. */
  function LatestStatus(u: Setup, init: Option<ParsedStatus>, lo: nat, hi: nat): Option<ParsedStatus>
    requires lo <= hi
    decreases hi
  {
    if hi == lo then init
    else
      var st := u.parse(u.w.output(hi - 1));
      if st.Some? then st else LatestStatus(u, init, lo, hi - 1)
  }

  lemma {:induction false} LatestStatusFront(u: Setup, init: Option<ParsedStatus>, lo: nat, hi: nat)
    requires lo < hi
    ensures LatestStatus(u, init, lo, hi)
         == LatestStatus(u, if u.parse(u.w.output(lo)).Some? then u.parse(u.w.output(lo)) else init, lo + 1, hi)
    decreases hi
  {
    if hi > lo + 1 {
      LatestStatusFront(u, init, lo, hi - 1);
    }
  }

  /** One pass keeps the status block it parsed, or the previous status when the block is missing. */
  lemma PassStatus(u: Setup, v: Vars)
    requires v.runState.loop < u.o.maxLoops
    ensures var st := u.parse(u.w.output(v.pass));
      var kept := if st.Some? then st else v.runState.lastStatus;
      match Pass(u, v)
      case Halt(result, _) =>
        result.lastStatus == if result.exitReason == Timeout then v.runState.lastStatus else kept
      case Next(v', _) => v'.runState.lastStatus == kept
  {
  }

  /**
   * A run reports the status block of the latest pass that produced one; a
   * pass whose block is missing leaves the previous status in place.
   */
  lemma {:induction false} RunLastStatus(u: Setup, v: Vars)
    ensures var out := Run(u, v);
      out.result.lastStatus == LatestStatus(u, v.runState.lastStatus, v.pass, v.pass + out.calls)
    decreases u.o.maxLoops - v.runState.loop
  {
    if v.runState.loop < u.o.maxLoops {
      PassStatus(u, v);
      match Pass(u, v)
      case Halt(result, _) =>
        assert Run(u, v).result == result;
        if result.exitReason != Timeout {
          assert Run(u, v).calls == 1;
          assert LatestStatus(u, v.runState.lastStatus, v.pass, v.pass + 1) == result.lastStatus;
        } else {
          assert Run(u, v).calls == 0;
        }
      case Next(v', _) =>
        RunLastStatus(u, v');
        var rest := Run(u, v');
        assert Run(u, v).calls == rest.calls + 1 && Run(u, v).result == rest.result;
        var hi := v.pass + Run(u, v).calls;
        assert hi == v'.pass + rest.calls;
        assert rest.result.lastStatus == LatestStatus(u, v'.runState.lastStatus, v'.pass, hi);
        LatestStatusFront(u, v.runState.lastStatus, v.pass, hi);
    } else {
      assert Run(u, v).calls == 0 && Run(u, v).result.lastStatus == v.runState.lastStatus;
    }
  }

  /* The two detectors, as streaks of passes. */

  /** The two detectors: no change in the diff score, and the same output as before. */
  datatype Detector = Stall | Repeat

  /**
   * What detector d counts happened on pass q, for a run entered with
   * variables v: the score after pass q equals the one before it, or the
   * output of pass q hashes like the one before it; for the first pass,
   * "before" is what v holds.
   */
  predicate Same(u: Setup, d: Detector, v: Vars, q: nat)
  {
    match d
    case Stall => Score(u, q + 1) == (if q <= v.pass then v.lastScore else Score(u, q))
    case Repeat => Some(Hash(u, q)) == (if q <= v.pass then v.lastOutputHash else Some(Hash(u, q - 1)))
  }

  /**
   * How many passes in a row, ending with pass p and not reaching before
   * pass lo, detector d counts.
   */
  function Streak(u: Setup, d: Detector, v: Vars, lo: nat, p: nat): (r: nat)
    requires lo <= p
    ensures r <= p - lo + 1
    decreases p
  {
    if !Same(u, d, v, p) then 0 else if p == lo then 1 else Streak(u, d, v, lo, p - 1) + 1
  }

  /** The streak is exactly the run of counted passes that ends at p: the pass just before it is not counted. */
  lemma {:induction false} StreakMeans(u: Setup, d: Detector, v: Vars, lo: nat, p: nat)
    requires lo <= p
    ensures var r := Streak(u, d, v, lo, p);
      (forall q: nat :: p - r < q <= p ==> Same(u, d, v, q))
      && (r < p - lo + 1 ==> !Same(u, d, v, p - r))
    decreases p
  {
    if Same(u, d, v, p) && p > lo {
      StreakMeans(u, d, v, lo, p - 1);
    }
  }

  /** Entry variables that agree on what counts on [lo, p] give the same streaks there. */
  lemma {:induction false} StreakAgree(u: Setup, d: Detector, v: Vars, w: Vars, lo: nat, p: nat)
    requires lo <= p
    requires forall q: nat :: lo <= q <= p ==> Same(u, d, v, q) == Same(u, d, w, q)
    ensures Streak(u, d, v, lo, p) == Streak(u, d, w, lo, p)
    decreases p
  {
    if p > lo {
      StreakAgree(u, d, v, w, lo, p - 1);
    }
  }

  /** Letting the streak reach one pass further back only matters when it already reaches the old start. */
  lemma {:induction false} StreakFront(u: Setup, d: Detector, v: Vars, lo: nat, p: nat)
    requires lo < p
    ensures Streak(u, d, v, lo + 1, p) < p - lo ==> Streak(u, d, v, lo, p) == Streak(u, d, v, lo + 1, p)
    ensures Streak(u, d, v, lo + 1, p) == p - lo
            ==> Streak(u, d, v, lo, p) == p - lo + (if Same(u, d, v, lo) then 1 else 0)
    decreases p
  {
    if p > lo + 1 && Same(u, d, v, p) {
      StreakFront(u, d, v, lo, p - 1);
    }
  }

  /** After one pass that goes on, both detectors count the same passes from the next pass on. */
  lemma NextAgrees(u: Setup, d: Detector, v: Vars, p: nat)
    requires v.runState.loop < u.o.maxLoops && Pass(u, v).Next?
    requires v.pass < p
    ensures forall q: nat :: v.pass < q <= p ==> Same(u, d, v, q) == Same(u, d, Pass(u, v).v, q)
  {
    var v' := Pass(u, v).v;
    forall q: nat | v.pass < q <= p
      ensures Same(u, d, v, q) == Same(u, d, v', q)
    {
      if q == v'.pass {
        assert v'.lastScore == Score(u, q) && v'.lastOutputHash == Some(Hash(u, q - 1));
      }
    }
  }

  /** The counter each detector keeps, its threshold, and the reason it stops the loop with. */
  function Counter(d: Detector, v: Vars): int
  {
    match d
    case Stall => v.runState.stagnationCount
    case Repeat => v.sameOutputCount
  }

  function Threshold(u: Setup, d: Detector): int
  {
    match d
    case Stall => u.o.stagnationThreshold
    case Repeat => u.o.repeatedOutputThreshold
  }

  function StopReason(d: Detector): ExitReason
  {
    match d
    case Stall => Stagnation
    case Repeat => RepeatedOutput
  }

  /**
   * On one pass, a detector's counter goes up by one when the pass is one it
   * counts and drops to zero otherwise, and the detector stops the loop only
   * on a pass it counts, once the counter reaches its threshold.
   */
  lemma PassCounter(u: Setup, d: Detector, v: Vars)
    requires v.runState.loop < u.o.maxLoops
    ensures Pass(u, v).Next? ==>
              Counter(d, Pass(u, v).v) == if Same(u, d, v, v.pass) then Counter(d, v) + 1 else 0
    ensures Pass(u, v).Halt? && Pass(u, v).result.exitReason == StopReason(d) ==>
              Same(u, d, v, v.pass) && Counter(d, v) + 1 >= Threshold(u, d)
    ensures Same(u, d, v, v.pass) && Counter(d, v) + 1 >= Threshold(u, d) ==> Pass(u, v).Halt?
  {
  }

  /** Detector d stops the loop on the pass v starts: the pass is one it counts, and its counter reaches the threshold. */
  predicate Trips(u: Setup, d: Detector, v: Vars)
  {
    Same(u, d, v, v.pass) && Counter(d, v) + 1 >= Threshold(u, d)
  }

  /**
   * Why one pass stops, in the order the body checks: after the deadline it
   * stops with a timeout before calling the agent; otherwise the
   * repeated-output detector comes first, the stagnation detector second and
   * the success check last, and the pass goes on exactly when none of them
   * fires. Every stop but the timeout comes after the agent call, and only
   * the successful stop saves the state.
   */
  lemma PassReasons(u: Setup, v: Vars)
    ensures u.w.deadlinePassed(v.pass) ==>
      Pass(u, v) == Halt(LoopResult(false, Timeout, v.runState.loop, v.runState.lastStatus), [])
    ensures !u.w.deadlinePassed(v.pass) ==>
      (Pass(u, v).Halt? && Pass(u, v).result.exitReason == RepeatedOutput <==> Trips(u, Repeat, v))
    ensures !u.w.deadlinePassed(v.pass) ==>
      (Pass(u, v).Halt? && Pass(u, v).result.exitReason == Stagnation
       <==> !Trips(u, Repeat, v) && Trips(u, Stall, v))
    ensures !u.w.deadlinePassed(v.pass) ==>
      (Pass(u, v).Halt? && Pass(u, v).result.exitReason == ExitSignal
       <==> !Trips(u, Repeat, v) && !Trips(u, Stall, v) && Succeeds(u, v.pass))
    ensures Pass(u, v).Halt? ==> Pass(u, v).result.exitReason in {Timeout, RepeatedOutput, Stagnation, ExitSignal}
    ensures Pass(u, v).Halt? && Pass(u, v).result.exitReason != Timeout ==>
      Pass(u, v).result.loop == v.runState.loop + 1
      && Pass(u, v).result.ok == (Pass(u, v).result.exitReason == ExitSignal)
      && |Pass(u, v).saved| == (if Pass(u, v).result.exitReason == ExitSignal then 1 else 0)
  {
  }

  /**
   * One step of a counter that goes up by one on a pass detector d counts
   * and drops to zero on one it does not: if the counter from the next pass
   * on reached the threshold, so did the counter from this one.
   */
  lemma CounterStep(u: Setup, d: Detector, v: Vars, w: Vars, p: nat)
    requires v.runState.loop < u.o.maxLoops && Pass(u, v).Next? && Pass(u, v).v == w
    requires w.pass <= p
    requires var m := Streak(u, d, w, w.pass, p);
      (m == p - w.pass + 1 ==> Counter(d, w) + m >= Threshold(u, d))
      && (m < p - w.pass + 1 ==> m >= Threshold(u, d))
    ensures var m := Streak(u, d, v, v.pass, p);
      (m == p - v.pass + 1 ==> Counter(d, v) + m >= Threshold(u, d))
      && (m < p - v.pass + 1 ==> m >= Threshold(u, d))
  {
    PassCounter(u, d, v);
    NextAgrees(u, d, v, p);
    StreakAgree(u, d, v, w, w.pass, p);
    StreakFront(u, d, v, v.pass, p);
  }

  /** What `DetectorStreak` states about the run from v. */
  predicate StreakReached(u: Setup, d: Detector, v: Vars)
  {
    var out := Run(u, v);
    out.result.exitReason == StopReason(d) ==>
      out.calls >= 1
      && var m := Streak(u, d, v, v.pass, v.pass + out.calls - 1);
         (m == out.calls ==> Counter(d, v) + m >= Threshold(u, d))
         && (m < out.calls ==> m >= Threshold(u, d))
  }

  /** A detector that stops the loop on the first pass does so on a pass it counts. */
  lemma DetectorHalt(u: Setup, d: Detector, v: Vars)
    requires v.runState.loop < u.o.maxLoops && Pass(u, v).Halt?
    ensures StreakReached(u, d, v)
  {
    PassCounter(u, d, v);
    var result := Pass(u, v).result;
    assert Run(u, v).result == result;
    if result.exitReason == StopReason(d) {
      assert Run(u, v).calls == 1;
      assert Streak(u, d, v, v.pass, v.pass) == 1;
    }
  }

  /** The streak a detector reaches from the next pass on carries back to this one. */
  lemma DetectorNext(u: Setup, d: Detector, v: Vars)
    requires v.runState.loop < u.o.maxLoops && Pass(u, v).Next?
    requires StreakReached(u, d, Pass(u, v).v)
    ensures StreakReached(u, d, v)
  {
    var v' := Pass(u, v).v;
    var rest := Run(u, v');
    assert Run(u, v).calls == rest.calls + 1 && Run(u, v).result == rest.result;
    if rest.result.exitReason == StopReason(d) {
      var p := v'.pass + rest.calls - 1;
      CounterStep(u, d, v, v', p);
      assert p == v.pass + Run(u, v).calls - 1;
    }
  }

  /**
   * A detector stops the loop after a streak of passes it counts: the
   * streak plus the counter the run started from reaches the threshold when
   * it goes back to the first pass, and the streak alone does otherwise.
   * For stagnation these are passes that changed nothing; for repeated
   * output, passes that printed what the pass before printed.
   */
  lemma {:induction false} DetectorStreak(u: Setup, d: Detector, v: Vars)
    ensures var out := Run(u, v);
      out.result.exitReason == StopReason(d) ==>
        out.calls >= 1
        && var m := Streak(u, d, v, v.pass, v.pass + out.calls - 1);
           (m == out.calls ==> Counter(d, v) + m >= Threshold(u, d))
           && (m < out.calls ==> m >= Threshold(u, d))
    decreases u.o.maxLoops - v.runState.loop
  {
    if v.runState.loop < u.o.maxLoops {
      if Pass(u, v).Halt? {
        DetectorHalt(u, d, v);
      } else {
        DetectorStreak(u, d, Pass(u, v).v);
        DetectorNext(u, d, v);
      }
    } else {
      assert Run(u, v).result.exitReason == MaxLoops;
    }
  }

  /**
   * From a state whose stagnation counter is zero (a fresh one, say), a
   * stagnation stop needs at least `stagnationThreshold` passes, and the
   * last that many of them left the diff score as it was.
   */
  lemma FreshStagnation(u: Setup, s: RunState)
    requires s.stagnationCount == 0
    ensures var out := Run(u, StartVars(u, s));
      out.result.exitReason == Stagnation ==>
        out.calls >= u.o.stagnationThreshold
        && forall q: nat :: out.calls - u.o.stagnationThreshold <= q < out.calls ==> Score(u, q + 1) == Score(u, q)
  {
    var v := StartVars(u, s);
    var out := Run(u, v);
    DetectorStreak(u, Stall, v);
    if out.result.exitReason == Stagnation {
      var p := out.calls - 1;
      StreakMeans(u, Stall, v, 0, p);
      var m := Streak(u, Stall, v, 0, p);
      forall q: nat | out.calls - u.o.stagnationThreshold <= q < out.calls
        ensures Score(u, q + 1) == Score(u, q)
      {
        assert Same(u, Stall, v, q);
      }
    }
  }

  /**
   * From a state with no output hash (a fresh one), a repeated-output stop
   * needs more than `repeatedOutputThreshold` passes, and each of the last
   * that many printed what the pass before it printed.
   */
  lemma FreshRepeated(u: Setup, s: RunState)
    requires s.lastOutputHash.None?
    ensures var out := Run(u, StartVars(u, s));
      out.result.exitReason == RepeatedOutput ==>
        out.calls > u.o.repeatedOutputThreshold
        && forall q: nat :: out.calls - u.o.repeatedOutputThreshold <= q + 1 < out.calls ==> Hash(u, q + 1) == Hash(u, q)
  {
    var v := StartVars(u, s);
    var out := Run(u, v);
    if out.result.exitReason == RepeatedOutput {
      var p := out.calls - 1;
      var m := Streak(u, Repeat, v, 0, p);
      assert out.calls >= 1 && m >= u.o.repeatedOutputThreshold && m < out.calls
        && forall q: nat :: p - m < q <= p ==> Same(u, Repeat, v, q) by {
        DetectorStreak(u, Repeat, v);
        StreakMeans(u, Repeat, v, 0, p);
        assert !Same(u, Repeat, v, 0);
      }
      forall q: nat | out.calls - u.o.repeatedOutputThreshold <= q + 1 < out.calls
        ensures Hash(u, q + 1) == Hash(u, q)
      {
        assert Same(u, Repeat, v, q + 1);
      }
    }
  }
}
