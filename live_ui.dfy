/**
 * The state behind the live terminal view of a run (src/loop/liveUi.ts): the
 * record the setters overwrite, the bounded error buffer, the session badge
 * and the widths of the framed sections. Colours, the banner and writing to
 * the terminal are not modelled; a row is the text it shows.
 */
module LiveUi {
  import opened Strings

  /** `MAX_ERRORS`: how many error messages the view keeps. */
  const MaxErrors: nat := 12

  /** The last `n` elements of `s` (`s.slice(-n)` for `n > 0`), or all of `s` when it is shorter. */
  function LastN<T>(s: seq<T>, n: nat): (r: seq<T>)
    ensures |r| == Min(n, |s|)
    ensures forall k :: 0 <= k < |r| ==> r[k] == s[|s| - |r| + k]
  {
    if |s| <= n then s else s[|s| - n..]
  }

  /** Adding one element and then keeping the last `n` is keeping the last `n` of the longer history. */
  lemma LastNSnoc<T>(s: seq<T>, x: T, n: nat)
    requires n > 0
    ensures LastN(LastN(s, n) + [x], n) == LastN(s + [x], n)
  {
    var a := LastN(LastN(s, n) + [x], n);
    var b := LastN(s + [x], n);
    assert |a| == |b|;
    forall k | 0 <= k < |a|
      ensures a[k] == b[k]
    {
      if k == |a| - 1 {
        assert a[k] == x && b[k] == x;
      } else {
        var t := LastN(s, n);
        assert a[k] == (t + [x])[|t| + 1 - |a| + k];
        assert (t + [x])[|t| + 1 - |a| + k] == t[|t| + 1 - |a| + k];
      }
    }
  }

  /**
   * The state record of one live view. `added` is every error message ever
   * handed to `AddError`, oldest first; the view itself only keeps `errors`.
   */
  class LiveUiState {
    var loopLabel: string
    var lastStatus: string
    var lastAiSummary: string
    var runState: string
    var errors: seq<string>
    ghost var added: seq<string>

    /** The buffer is the last (at most twelve) messages ever added, in the order they came. */
    ghost predicate Valid()
      reads this
    {
      errors == LastN(added, MaxErrors)
    }

    /** The state a new view starts from. */
    constructor()
      ensures loopLabel == "-" && lastStatus == "-" && lastAiSummary == "-"
      ensures runState == "Running"
      ensures errors == [] && added == []
      ensures Valid()
    {
      loopLabel := "-";
      lastStatus := "-";
      lastAiSummary := "-";
      runState := "Running";
      errors := [];
      added := [];
    }

    /** `setLoop`: the label becomes `"<loop>/<maxLoops>"`; nothing else changes. */
    method SetLoop(loop: int, maxLoops: int)
      modifies this
      ensures loopLabel == IntToString(loop) + "/" + IntToString(maxLoops)
      ensures lastStatus == old(lastStatus) && lastAiSummary == old(lastAiSummary)
      ensures runState == old(runState) && errors == old(errors) && added == old(added)
    {
      loopLabel := IntToString(loop) + "/" + IntToString(maxLoops);
    }

    /** `setStatus`: overwrites the last status line only. */
    method SetStatus(message: string)
      modifies this
      ensures lastStatus == message
      ensures loopLabel == old(loopLabel) && lastAiSummary == old(lastAiSummary)
      ensures runState == old(runState) && errors == old(errors) && added == old(added)
    {
      lastStatus := message;
    }

    /** `setAiSummary`: overwrites the last agent summary only. */
    method SetAiSummary(message: string)
      modifies this
      ensures lastAiSummary == message
      ensures loopLabel == old(loopLabel) && lastStatus == old(lastStatus)
      ensures runState == old(runState) && errors == old(errors) && added == old(added)
    {
      lastAiSummary := message;
    }

    /** `setStopReason`: overwrites the run state the badge is drawn from, and only that. */
    method SetStopReason(message: string)
      modifies this
      ensures runState == message
      ensures loopLabel == old(loopLabel) && lastStatus == old(lastStatus)
      ensures lastAiSummary == old(lastAiSummary) && errors == old(errors) && added == old(added)
    {
      runState := message;
    }

    /**
     * `addError`: appends the message, then drops the oldest entries once
     * there are more than twelve. The buffer stays the tail of everything
     * ever added.
     */
    method AddError(message: string)
      requires Valid()
      modifies this
      ensures Valid()
      ensures added == old(added) + [message]
      ensures errors == LastN(old(errors) + [message], MaxErrors)
      ensures |errors| <= MaxErrors && errors[|errors| - 1] == message
      ensures loopLabel == old(loopLabel) && lastStatus == old(lastStatus)
      ensures lastAiSummary == old(lastAiSummary) && runState == old(runState)
    {
      errors := errors + [message];
      if |errors| > MaxErrors {
        errors := errors[|errors| - MaxErrors..];
      }
      added := added + [message];
      LastNSnoc(old(added), message, MaxErrors);
    }
  }

  /** `createLiveUi`: no view when disabled, otherwise a new one in its initial state. */
  method CreateLiveUi(enabled: bool) returns (ui: LiveUiState?)
    ensures !enabled <==> ui == null
    ensures ui != null ==> fresh(ui) && ui.Valid() && ui.added == []
    ensures ui != null ==> ui.loopLabel == "-" && ui.lastStatus == "-" && ui.lastAiSummary == "-"
    ensures ui != null ==> ui.runState == "Running" && ui.errors == []
  {
    if !enabled {
      return null;
    }
    ui := new LiveUiState();
  }

  /** `line(width)`: a rule of `─` at least twelve wide. */
  function Line(width: int): (r: string)
    ensures |r| == Max(12, width) && |r| >= 12
    ensures forall k :: 0 <= k < |r| ==> r[k] == '─'
  {
    Repeat('─', Max(12, width))
  }

  /** The width `wrapSection` frames a section to: at least 46, and four more than the title. */
  function SectionWidth(title: string): (r: nat)
    ensures r >= 46 && r >= |title| + 4
    ensures r == 46 || r == |title| + 4
  {
    Max(46, |title| + 4)
  }

  /** `wrapSection` without its colouring: a frame of three rules around the title and the indented body rows. */
  function WrapSection(title: string, body: seq<string>): (r: seq<string>)
    ensures |r| == |body| + 4
    ensures r[0] == "┌" + Line(SectionWidth(title)) + "┐"
    ensures r[1] == "│ " + title
    ensures r[2] == "├" + Line(SectionWidth(title)) + "┤"
    ensures forall k :: 0 <= k < |body| ==> r[3 + k] == "  " + body[k]
    ensures r[|r| - 1] == "└" + Line(SectionWidth(title)) + "┘"
  {
    var rule := Line(SectionWidth(title));
    ["┌" + rule + "┐", "│ " + title, "├" + rule + "┤"]
      + seq(|body|, k requires 0 <= k < |body| => "  " + body[k])
      + ["└" + rule + "┘"]
  }

  /** The three rules of a section are equally long, and the title row always fits inside them. */
  lemma SectionFrameFits(title: string, body: seq<string>)
    ensures var r := WrapSection(title, body);
      |r[0]| == |r[2]| == |r[|r| - 1]| == SectionWidth(title) + 2
      && |r[1]| + 4 <= |r[0]|
  {
  }

  /** `stateBadge` without its colouring: the first of the known prefixes the lower-cased state starts with. */
  function StateBadge(state: string): (r: string)
    ensures StartsWith(LowerString(state), "complete") ==> r == "● Complete"
    ensures (!StartsWith(LowerString(state), "complete") && StartsWith(LowerString(state), "stopped"))
      ==> r == "● Stopped"
    ensures (!StartsWith(LowerString(state), "complete") && !StartsWith(LowerString(state), "stopped")
             && StartsWith(LowerString(state), "error"))
      ==> r == "● Error"
    ensures (!StartsWith(LowerString(state), "complete") && !StartsWith(LowerString(state), "stopped")
             && !StartsWith(LowerString(state), "error"))
      ==> r == "● Running"
  {
    var low := LowerString(state);
    if StartsWith(low, "complete") then "● Complete"
    else if StartsWith(low, "stopped") then "● Stopped"
    else if StartsWith(low, "error") then "● Error"
    else "● Running"
  }

  /** Folding the case of the state never changes its badge. */
  lemma BadgeIgnoresCase(state: string)
    ensures StateBadge(UpperString(state)) == StateBadge(state)
  {
    var up := UpperString(state);
    assert forall k :: 0 <= k < |state| ==> Lower(up[k]) == Lower(state[k]);
    assert LowerString(up) == LowerString(state);
  }

  /** A state that starts with "complete" in any case is Complete, even when it also mentions an error. */
  lemma BadgeCompleteFirst(state: string)
    requires state == "COMPLETE with error"
    ensures StateBadge(state) == "● Complete"
  {
    assert LowerString(state)[..8] == "complete";
  }

  /** A stop reason in capitals still reads as Stopped. */
  lemma BadgeStopped(state: string)
    requires state == "STOPPED by user"
    ensures StateBadge(state) == "● Stopped"
  {
    assert LowerString(state)[0] == 's';
    assert LowerString(state)[..7] == "stopped";
  }

  /** A word only counts at the start: an error mentioned later leaves the badge at Running. */
  lemma BadgeOnlyPrefix(state: string)
    requires state == "Running, last error ignored"
    ensures StateBadge(state) == "● Running"
  {
    assert LowerString(state)[0] == 'r';
  }

  /** The error rows `render` shows: the last twelve errors behind a bullet, or one placeholder row. */
  function ErrorRows(errors: seq<string>): (r: seq<string>)
    ensures 1 <= |r| <= MaxErrors
    ensures errors == [] ==> r == ["No errors recorded"]
    ensures errors != [] ==> |r| == Min(MaxErrors, |errors|)
    ensures errors != [] ==> forall k :: 0 <= k < |r| ==> r[k] == "• " + errors[|errors| - |r| + k]
  {
    if |errors| > 0 then
      var shown := LastN(errors, MaxErrors);
      seq(|shown|, k requires 0 <= k < |shown| => "• " + shown[k])
    else ["No errors recorded"]
  }
}
