/**
 * The STATUS-block parser (src/core/exitAnalyzer.ts). Each regular expression
 * of the source is written out as a predicate "the pattern matches at q" and a
 * leftmost search (Strings.FindFirst); each capture is the slice that the
 * greedy and lazy quantifiers of the pattern settle on. The input is taken to
 * be free of terminal colour codes already.
 */
module ExitAnalyzer {
  import opened Strings
  import opened State

  const Marker := "status:"
  const ProgressLabel := "progress:"
  const CompletedLabel := "tasks_completed:"
  const TotalLabel := "tasks_total:"
  const ExitLabel := "exit_signal:"
  const SummaryLabel := "summary:"

  /* ---------- STATUS_BLOCK_RE = /STATUS:\s*\n([\s\S]*)/i ---------- */

  /** The marker matches at p: `status:` in any case, then white space that holds a line feed. */
  predicate MarkerAt(s: string, p: nat)
  {
    MatchesAt(s, p, Marker) && '\n' in s[p + |Marker|..SpaceEnd(s, p + |Marker|)]
  }

  /** Index of the last line feed in s[lo..j]. */
  function LastLineFeed(s: string, lo: nat, j: nat): (r: nat)
    requires lo <= j <= |s| && '\n' in s[lo..j]
    ensures lo <= r < j && s[r] == '\n'
    ensures forall k :: r < k < j ==> s[k] != '\n'
    decreases j
  {
    if s[j - 1] == '\n' then j - 1
    else
      assert s[lo..j] == s[lo..j - 1] + [s[j - 1]];
      LastLineFeed(s, lo, j - 1)
  }

  /** Where the capture starts: greedy `\s*` gives back white space up to its last line feed. */
  function BlockStartAt(s: string, p: nat): (r: nat)
    requires MarkerAt(s, p)
    ensures p + |Marker| < r <= |s|
  {
    LastLineFeed(s, p + |Marker|, SpaceEnd(s, p + |Marker|)) + 1
  }

  /** Leftmost position where the marker matches. */
  function MarkerSearch(text: string): (r: Option<nat>)
    ensures r.Some? ==> r.value <= |text| && MarkerAt(text, r.value)
    ensures r.Some? ==> forall p: nat :: p < r.value ==> !MarkerAt(text, p)
    ensures r.None? ==> forall p: nat :: p <= |text| ==> !MarkerAt(text, p)
  {
    var P := (p: nat) => MarkerAt(text, p);
    assert forall p: nat :: P(p) == MarkerAt(text, p);
    FindFirst(P, 0, |text| + 1)
  }

  /** `blockMatch[1]`: all the text after the leftmost marker. */
  function StatusBlock(text: string): (r: Option<string>)
    ensures r.None? <==> forall p: nat :: p <= |text| ==> !MarkerAt(text, p)
  {
    match MarkerSearch(text)
    case None => None
    case Some(p) => Some(text[BlockStartAt(text, p)..])
  }

  /* ---------- PROGRESS_RE, TASKS_COMPLETED_RE, TASKS_TOTAL_RE = /key:\s*(\d+)/i ---------- */

  predicate NumberAt(s: string, q: nat, key: string)
  {
    MatchesAt(s, q, key) && SpaceEnd(s, q + |key|) < |s| && IsDigit(s[SpaceEnd(s, q + |key|)])
  }

  /** The digits `(\d+)` captures after the key at q. */
  function DigitsAt(s: string, q: nat, key: string): (d: string)
    requires NumberAt(s, q, key)
    ensures |d| > 0 && AllDigits(d)
  {
    var e := SpaceEnd(s, q + |key|);
    var d := s[e..DigitEnd(s, e)];
    assert forall k :: 0 <= k < |d| ==> d[k] == s[e + k];
    d
  }

  function NumberSearch(s: string, key: string): (r: Option<nat>)
    ensures r.Some? ==> r.value <= |s| && NumberAt(s, r.value, key)
    ensures r.Some? ==> forall q: nat :: q < r.value ==> !NumberAt(s, q, key)
    ensures r.None? ==> forall q: nat :: q <= |s| ==> !NumberAt(s, q, key)
  {
    var P := (q: nat) => NumberAt(s, q, key);
    assert forall q: nat :: P(q) == NumberAt(s, q, key);
    FindFirst(P, 0, |s| + 1)
  }

  /** The first numeric field with this key, read by `parseInt`, or absent. */
  function NumberField(s: string, key: string): Option<nat>
  {
    match NumberSearch(s, key)
    case None => None
    case Some(q) => Some(DecimalValue(DigitsAt(s, q, key)))
  }

  /* ---------- EXIT_SIGNAL_RE = /EXIT_SIGNAL:\s*(true|false)/i ---------- */

  predicate ExitSignalAt(s: string, q: nat)
  {
    MatchesAt(s, q, ExitLabel)
    && (MatchesAt(s, SpaceEnd(s, q + |ExitLabel|), "true")
        || MatchesAt(s, SpaceEnd(s, q + |ExitLabel|), "false"))
  }

  /** The token as written (any case); the alternative `true` is tried first. */
  function ExitTokenAt(s: string, q: nat): string
    requires ExitSignalAt(s, q)
  {
    var e := SpaceEnd(s, q + |ExitLabel|);
    if MatchesAt(s, e, "true") then s[e..e + 4] else s[e..e + 5]
  }

  function ExitSearch(s: string): (r: Option<nat>)
    ensures r.Some? ==> r.value <= |s| && ExitSignalAt(s, r.value)
    ensures r.Some? ==> forall q: nat :: q < r.value ==> !ExitSignalAt(s, q)
    ensures r.None? ==> forall q: nat :: q <= |s| ==> !ExitSignalAt(s, q)
  {
    var P := (q: nat) => ExitSignalAt(s, q);
    assert forall q: nat :: P(q) == ExitSignalAt(s, q);
    FindFirst(P, 0, |s| + 1)
  }

  function ExitSignalField(s: string): Option<string>
  {
    match ExitSearch(s)
    case None => None
    case Some(q) => Some(ExitTokenAt(s, q))
  }

  /** The leftmost exit-signal field carries the word `true` in some case. */
  predicate SignalSaysTrue(s: string)
  {
    match ExitSearch(s)
    case None => false
    case Some(q) => MatchesAt(s, SpaceEnd(s, q + |ExitLabel|), "true")
  }

  /* ---------- SUMMARY_RE = /summary:\s*(.+?)(?=\n|$)/is ---------- */

  /** The key matches at q and at least one character follows it for `.+?`. */
  predicate SummaryAt(s: string, q: nat)
  {
    MatchesAt(s, q, SummaryLabel) && q + |SummaryLabel| < |s|
  }

  /**
   * The capture: from the first character after the white space up to the next
   * line feed or the end; when only white space is left, `\s*` gives back its
   * last character so that `.+?` has one.
   */
  function SummaryCaptureAt(s: string, q: nat): string
    requires SummaryAt(s, q)
  {
    var e := SpaceEnd(s, q + |SummaryLabel|);
    if e < |s| then s[e..LineFeedFrom(s, e + 1)] else s[|s| - 1..]
  }

  function SummarySearch(s: string): (r: Option<nat>)
    ensures r.Some? ==> r.value <= |s| && SummaryAt(s, r.value)
    ensures r.Some? ==> forall q: nat :: q < r.value ==> !SummaryAt(s, q)
    ensures r.None? ==> forall q: nat :: q <= |s| ==> !SummaryAt(s, q)
  {
    var P := (q: nat) => SummaryAt(s, q);
    assert forall q: nat :: P(q) == SummaryAt(s, q);
    FindFirst(P, 0, |s| + 1)
  }

  /** The trimmed text from e up to the next line feed; nothing when e is the end. */
  function TrimmedLineFrom(s: string, e: nat): string
    requires e <= |s|
  {
    if e < |s| then Trim(s[e..LineFeedFrom(s, e + 1)]) else ""
  }

  /**
   * `(summary ?? '').trim()`: empty when the field is absent; otherwise the
   * trimmed text from the first character after the key's white space up to the
   * next line feed, or empty when only white space follows the key. Either way
   * it is one line and trimmed.
   */
  function SummaryText(s: string): (r: string)
    ensures SummarySearch(s).None? ==> r == ""
    ensures SummarySearch(s).Some? ==>
      r == TrimmedLineFrom(s, SpaceEnd(s, SummarySearch(s).value + |SummaryLabel|))
    ensures '\n' !in r
    ensures Trim(r) == r
  {
    match SummarySearch(s)
    case None => ""
    case Some(q) =>
      CaptureLine(s, q);
      CaptureOneLine(s, q);
      Trim(SummaryCaptureAt(s, q))
  }

  /** The capture is the rest of the line after the key's white space, nothing when only white space follows. */
  lemma CaptureLine(s: string, q: nat)
    requires SummaryAt(s, q)
    ensures Trim(SummaryCaptureAt(s, q)) == TrimmedLineFrom(s, SpaceEnd(s, q + |SummaryLabel|))
  {
    if SpaceEnd(s, q + |SummaryLabel|) >= |s| {
      CaptureBlank(s, q);
    }
  }

  /** When only white space follows the key, `\s*` gives back one white-space character, which trims away. */
  lemma CaptureBlank(s: string, q: nat)
    requires SummaryAt(s, q) && SpaceEnd(s, q + |SummaryLabel|) >= |s|
    ensures Trim(SummaryCaptureAt(s, q)) == []
  {
    var c := SummaryCaptureAt(s, q);
    assert IsSpace(c[0]);
    assert SpaceEnd(c, 0) == 1;
  }

  /** The capture stops before a line feed, or is a single white-space character that trims away. */
  lemma CaptureOneLine(s: string, q: nat)
    requires SummaryAt(s, q)
    ensures '\n' !in Trim(SummaryCaptureAt(s, q))
    ensures Trim(Trim(SummaryCaptureAt(s, q))) == Trim(SummaryCaptureAt(s, q))
  {
    var e := SpaceEnd(s, q + |SummaryLabel|);
    var c := SummaryCaptureAt(s, q);
    if e < |s| {
      assert forall k :: 0 <= k < |c| ==> c[k] == s[e + k];
      TrimKeepsOut(c, '\n');
    } else {
      CaptureBlank(s, q);
    }
    TrimOfTrimmed(Trim(c));
  }

  /* ---------- parseStatusBlock / hasStatusBlock ---------- */

  /** All four required fields are present in the block. */
  predicate FieldsPresent(block: string)
  {
    NumberField(block, ProgressLabel).Some?
    && NumberField(block, CompletedLabel).Some?
    && NumberField(block, TotalLabel).Some?
    && ExitSignalField(block).Some?
  }

  /**
   * The fields of one block: all or nothing. A result exists exactly when all
   * four required fields are present; progress is clamped to [0, 100], the
   * counters are never negative, the exit signal is the word `true`, and the
   * summary is one trimmed line.
   */
  function ParseBlock(block: string): (r: Option<ParsedStatus>)
    ensures r.Some? <==> FieldsPresent(block)
    ensures r.Some? ==> 0 <= r.value.progress <= 100
    ensures r.Some? ==> r.value.tasksCompleted >= 0 && r.value.tasksTotal >= 0
    ensures r.Some? ==> (r.value.exitSignal <==> SignalSaysTrue(block))
    ensures r.Some? ==> '\n' !in r.value.summary && Trim(r.value.summary) == r.value.summary
    ensures r.Some? ==>
      && r.value.progress == Min(100, NumberField(block, ProgressLabel).value)
      && r.value.tasksCompleted == NumberField(block, CompletedLabel).value
      && r.value.tasksTotal == NumberField(block, TotalLabel).value
      && r.value.summary == SummaryText(block)
  {
    var progress := NumberField(block, ProgressLabel);
    var completed := NumberField(block, CompletedLabel);
    var total := NumberField(block, TotalLabel);
    var exitSignal := ExitSignalField(block);
    if progress.None? || completed.None? || total.None? || exitSignal.None? then None
    else
      TokenSaysTrue(block);
      Some(ParsedStatus(
        Min(100, Max(0, progress.value)),
        Max(0, completed.value),
        Max(0, total.value),
        LowerString(exitSignal.value) == "true",
        SummaryText(block)))
  }

  /** `parseStatusBlock`: the fields of the block after the leftmost marker, or nothing. */
  function ParseStatusBlock(text: string): (r: Option<ParsedStatus>)
    ensures r.Some? <==> StatusBlock(text).Some? && FieldsPresent(StatusBlock(text).value)
    ensures (forall p: nat :: p <= |text| ==> !MarkerAt(text, p)) ==> r.None?
    ensures r.Some? ==> 0 <= r.value.progress <= 100
    ensures r.Some? ==> r.value.tasksCompleted >= 0 && r.value.tasksTotal >= 0
    ensures r.Some? ==> (r.value.exitSignal <==> SignalSaysTrue(StatusBlock(text).value))
    ensures r.Some? ==> '\n' !in r.value.summary && Trim(r.value.summary) == r.value.summary
    ensures r.Some? ==>
      var block := StatusBlock(text).value;
      && r.value.progress == Min(100, NumberField(block, ProgressLabel).value)
      && r.value.tasksCompleted == NumberField(block, CompletedLabel).value
      && r.value.tasksTotal == NumberField(block, TotalLabel).value
      && r.value.summary == SummaryText(block)
  {
    match StatusBlock(text)
    case None => None
    case Some(block) => ParseBlock(block)
  }

  /** `exitSignal.toLowerCase() === 'true'` holds exactly when the `true` alternative matched. */
  lemma TokenSaysTrue(s: string)
    requires ExitSignalField(s).Some?
    ensures LowerString(ExitSignalField(s).value) == "true" <==> SignalSaysTrue(s)
  {
    var q := ExitSearch(s).value;
    var e := SpaceEnd(s, q + |ExitLabel|);
    assert ExitSignalField(s).value == ExitTokenAt(s, q);
    TokenLowers(s, e);
  }

  /** The token cut at e lower-cases to `true` exactly when the `true` alternative matches there. */
  lemma TokenLowers(s: string, e: nat)
    requires MatchesAt(s, e, "true") || MatchesAt(s, e, "false")
    ensures var t := if MatchesAt(s, e, "true") then s[e..e + 4] else s[e..e + 5];
      LowerString(t) == "true" <==> MatchesAt(s, e, "true")
  {
    if MatchesAt(s, e, "true") {
      var low := LowerString(s[e..e + 4]);
      assert forall k :: 0 <= k < 4 ==> low[k] == Lower(s[e + k]) == "true"[k];
    } else {
      assert |LowerString(s[e..e + 5])| == 5;
    }
  }

  /** `hasStatusBlock`: a block parses, which needs a marker. */
  function HasStatusBlock(text: string): (r: bool)
    ensures r <==> ParseStatusBlock(text).Some?
    ensures r ==> exists p: nat :: p <= |text| && MarkerAt(text, p)
  {
    ParseStatusBlock(text) != None
  }

  /* ---------- The first complete block decides the parse ---------- */

  /** A key whose only colon is its last character, starting with a letter. */
  predicate ColonKey(key: string)
  {
    |key| > 1 && 'a' <= key[0] <= 'z' && key[|key| - 1] == ':' && ':' !in key[..|key| - 1]
  }

  lemma KeysAreColonKeys()
    ensures ColonKey(Marker) && ColonKey(ProgressLabel) && ColonKey(CompletedLabel)
    ensures ColonKey(TotalLabel) && ColonKey(ExitLabel) && ColonKey(SummaryLabel)
  {
  }

  /** Where such a key matches, its colon is the only one. */
  lemma ColonOnlyAtEnd(s: string, key: string, q: nat)
    requires ColonKey(key) && MatchesAt(s, q, key)
    ensures Lower(s[q + (|key| - 1)]) == ':'
    ensures forall k :: q <= k < q + |key| - 1 ==> Lower(s[k]) != ':'
  {
    forall k | q <= k < q + |key| - 1
      ensures Lower(s[k]) != ':'
    {
      assert Lower(s[q + (k - q)]) == key[k - q] == key[..|key| - 1][k - q];
    }
  }

  /** Two occurrences of such a key never overlap, and the later one starts with a non-space. */
  lemma NoSelfOverlap(s: string, key: string, q: nat, q0: nat)
    requires ColonKey(key) && MatchesAt(s, q, key) && MatchesAt(s, q0, key) && q < q0
    ensures q + |key| <= q0
    ensures !IsSpace(s[q0])
  {
    assert Lower(s[q0 + 0]) == key[0];
    ColonOnlyAtEnd(s, key, q);
    ColonOnlyAtEnd(s, key, q0);
  }

  /** Whether a numeric field matches at q is decided by `s` when its value starts inside `s`. */
  lemma NumberAtExtend(s: string, y: string, q: nat, key: string)
    requires q + |key| <= |s| && SpaceEnd(s, q + |key|) < |s|
    ensures NumberAt(s + y, q, key) == NumberAt(s, q, key)
    ensures SpaceEnd(s + y, q + |key|) == SpaceEnd(s, q + |key|)
  {
    MatchesAtExtend(s, y, q, key);
    SpaceEndExtend(s, y, q + |key|);
    assert (s + y)[SpaceEnd(s, q + |key|)] == s[SpaceEnd(s, q + |key|)];
  }

  /** Before a match of a colon key, another match has its value starting inside `s`. */
  lemma EarlierMatchSettled(s: string, key: string, q: nat, q0: nat)
    requires ColonKey(key) && q < q0 && q0 + |key| <= |s| && MatchesAt(s, q0, key)
    ensures q + |key| <= |s|
    ensures MatchesAt(s, q, key) ==> SpaceEnd(s, q + |key|) <= q0 < |s|
  {
    if MatchesAt(s, q, key) {
      NoSelfOverlap(s, key, q, q0);
    }
  }

  /** The leftmost numeric field exists and its digit run stops inside `s`. */
  predicate NumberSettled(s: string, key: string)
  {
    match NumberSearch(s, key)
    case None => false
    case Some(q) => DigitEnd(s, SpaceEnd(s, q + |key|)) < |s|
  }

  lemma NumberSearchExtend(s: string, y: string, key: string)
    requires ColonKey(key) && NumberSettled(s, key)
    ensures NumberSearch(s + y, key) == NumberSearch(s, key)
  {
    var q0 := NumberSearch(s, key).value;
    NumberAtExtend(s, y, q0, key);
    NoEarlierNumber(s, y, key, q0);
    NumberSearchIs(s + y, key, q0);
  }

  /** The search finds q0 when a field matches there and none before it. */
  lemma NumberSearchIs(s: string, key: string, q0: nat)
    requires q0 <= |s| && NumberAt(s, q0, key)
    requires forall q: nat :: q < q0 ==> !NumberAt(s, q, key)
    ensures NumberSearch(s, key) == Some(q0)
  {
  }

  /** No field of `s + y` matches before the leftmost one of `s`. */
  lemma NoEarlierNumber(s: string, y: string, key: string, q0: nat)
    requires ColonKey(key) && q0 + |key| <= |s| && MatchesAt(s, q0, key)
    requires forall q: nat :: q < q0 ==> !NumberAt(s, q, key)
    ensures forall q: nat :: q < q0 ==> !NumberAt(s + y, q, key)
  {
    forall q: nat | q < q0
      ensures !NumberAt(s + y, q, key)
    {
      EarlierMatchSettled(s, key, q, q0);
      if MatchesAt(s, q, key) {
        NumberAtExtend(s, y, q, key);
      } else {
        MatchesAtExtend(s, y, q, key);
      }
    }
  }

  lemma DigitsAtExtend(s: string, y: string, q: nat, key: string)
    requires NumberAt(s, q, key) && DigitEnd(s, SpaceEnd(s, q + |key|)) < |s|
    ensures NumberAt(s + y, q, key) && DigitsAt(s + y, q, key) == DigitsAt(s, q, key)
  {
    var t := s + y;
    NumberAtExtend(s, y, q, key);
    var e := SpaceEnd(s, q + |key|);
    DigitEndExtend(s, y, e);
    assert t[e..DigitEnd(t, e)] == s[e..DigitEnd(s, e)];
  }

  lemma NumberFieldExtend(s: string, y: string, key: string)
    requires ColonKey(key) && NumberSettled(s, key)
    ensures NumberField(s + y, key) == NumberField(s, key)
  {
    NumberSearchExtend(s, y, key);
    DigitsAtExtend(s, y, NumberSearch(s, key).value, key);
  }

  /** Whether the exit field matches at q is decided by `s` when its token lies inside `s`. */
  lemma ExitSignalAtExtend(s: string, y: string, q: nat)
    requires q + |ExitLabel| <= |s| && SpaceEnd(s, q + |ExitLabel|) + 5 <= |s|
    ensures ExitSignalAt(s + y, q) == ExitSignalAt(s, q)
    ensures SpaceEnd(s + y, q + |ExitLabel|) == SpaceEnd(s, q + |ExitLabel|)
  {
    var e := SpaceEnd(s, q + |ExitLabel|);
    MatchesAtExtend(s, y, q, ExitLabel);
    SpaceEndExtend(s, y, q + |ExitLabel|);
    MatchesAtExtend(s, y, e, "true");
    MatchesAtExtend(s, y, e, "false");
  }

  /** The exit field at q0, whose token lies inside `s`, still matches in `s + y`. */
  lemma ExitMatchExtend(s: string, y: string, q0: nat)
    requires q0 <= |s| && ExitSignalAt(s, q0)
    ensures ExitSignalAt(s + y, q0)
    ensures SpaceEnd(s + y, q0 + |ExitLabel|) == SpaceEnd(s, q0 + |ExitLabel|)
    ensures MatchesAt(s + y, SpaceEnd(s, q0 + |ExitLabel|), "true")
            == MatchesAt(s, SpaceEnd(s, q0 + |ExitLabel|), "true")
  {
    var i := q0 + |ExitLabel|;
    var e := SpaceEnd(s, i);
    assert SpaceEnd(s + y, i) == e by {
      SpaceEndExtend(s, y, i);
    }
    assert MatchesAt(s + y, q0, ExitLabel) by {
      MatchesAtExtend(s, y, q0, ExitLabel);
    }
    assert MatchesAt(s + y, e, "true") == MatchesAt(s, e, "true") by {
      MatchesAtExtend(s, y, e, "true");
    }
    if !MatchesAt(s, e, "true") {
      assert MatchesAt(s + y, e, "false") by {
        MatchesAtExtend(s, y, e, "false");
      }
    }
  }

  /** ... and carries the same token there. */
  lemma ExitTokenExtend(s: string, y: string, q0: nat)
    requires q0 <= |s| && ExitSignalAt(s, q0)
    ensures ExitSignalAt(s + y, q0) && ExitTokenAt(s + y, q0) == ExitTokenAt(s, q0)
  {
    ExitMatchExtend(s, y, q0);
    var t := s + y;
    var e := SpaceEnd(s, q0 + |ExitLabel|);
    if MatchesAt(s, e, "true") {
      assert t[e..e + 4] == s[e..e + 4];
    } else {
      assert t[e..e + 5] == s[e..e + 5];
    }
  }

  lemma ExitSearchExtend(s: string, y: string)
    requires ExitSearch(s).Some?
    ensures ExitSearch(s + y) == ExitSearch(s)
  {
    KeysAreColonKeys();
    var t := s + y;
    var q0 := ExitSearch(s).value;
    ExitMatchExtend(s, y, q0);
    forall q: nat | q < q0
      ensures !ExitSignalAt(t, q)
    {
      EarlierMatchSettled(s, ExitLabel, q, q0);
      if MatchesAt(s, q, ExitLabel) {
        ExitSignalAtExtend(s, y, q);
      } else {
        MatchesAtExtend(s, y, q, ExitLabel);
      }
    }
  }

  lemma ExitFieldExtend(s: string, y: string)
    requires ExitSearch(s).Some?
    ensures ExitSignalField(s + y) == ExitSignalField(s)
    ensures SignalSaysTrue(s + y) == SignalSaysTrue(s)
  {
    ExitSearchExtend(s, y);
    ExitMatchExtend(s, y, ExitSearch(s).value);
    ExitTokenExtend(s, y, ExitSearch(s).value);
  }

  /** The leftmost summary field exists and its line ends inside `s`. */
  predicate SummarySettled(s: string)
  {
    match SummarySearch(s)
    case None => false
    case Some(q) =>
      var e := SpaceEnd(s, q + |SummaryLabel|);
      e < |s| && LineFeedFrom(s, e + 1) < |s|
  }

  lemma SummarySearchExtend(s: string, y: string)
    requires SummarySettled(s)
    ensures SummarySearch(s + y) == SummarySearch(s)
  {
    var t := s + y;
    var q0 := SummarySearch(s).value;
    MatchesAtExtend(s, y, q0, SummaryLabel);
    assert SummaryAt(t, q0);
    forall q: nat | q < q0
      ensures !SummaryAt(t, q)
    {
      assert !SummaryAt(s, q);
      MatchesAtExtend(s, y, q, SummaryLabel);
    }
  }

  /** The summary capture at q0, whose line ends inside `s`, reads the same in `s + y`. */
  lemma SummaryCaptureExtend(s: string, y: string, q0: nat)
    requires SummaryAt(s, q0)
    requires SpaceEnd(s, q0 + |SummaryLabel|) < |s|
    requires LineFeedFrom(s, SpaceEnd(s, q0 + |SummaryLabel|) + 1) < |s|
    ensures SummaryAt(s + y, q0) && SummaryCaptureAt(s + y, q0) == SummaryCaptureAt(s, q0)
  {
    MatchesAtExtend(s, y, q0, SummaryLabel);
    SummaryLineExtend(s, y, SpaceEnd(s, q0 + |SummaryLabel|), q0 + |SummaryLabel|);
  }

  lemma SummaryLineExtend(s: string, y: string, e: nat, i: nat)
    requires i <= |s| && e == SpaceEnd(s, i) < |s| && LineFeedFrom(s, e + 1) < |s|
    ensures SpaceEnd(s + y, i) == e && LineFeedFrom(s + y, e + 1) == LineFeedFrom(s, e + 1)
    ensures (s + y)[e..LineFeedFrom(s, e + 1)] == s[e..LineFeedFrom(s, e + 1)]
  {
    SpaceEndExtend(s, y, i);
    LineFeedFromExtend(s, y, e + 1);
  }

  lemma SummaryExtend(s: string, y: string)
    requires SummarySettled(s)
    ensures SummaryText(s + y) == SummaryText(s)
  {
    SummarySearchExtend(s, y);
    SummaryCaptureExtend(s, y, SummarySearch(s).value);
  }

  /** Whether the marker matches at p is decided by `x` when its white space ends inside `x`. */
  lemma MarkerAtExtend(x: string, y: string, p: nat)
    requires p + |Marker| <= |x| && SpaceEnd(x, p + |Marker|) < |x|
    ensures MarkerAt(x + y, p) == MarkerAt(x, p)
    ensures SpaceEnd(x + y, p + |Marker|) == SpaceEnd(x, p + |Marker|)
  {
    var j := SpaceEnd(x, p + |Marker|);
    MatchesAtExtend(x, y, p, Marker);
    SpaceEndExtend(x, y, p + |Marker|);
    assert (x + y)[p + |Marker|..j] == x[p + |Marker|..j];
  }

  lemma LastLineFeedExtend(x: string, y: string, lo: nat, j: nat)
    requires lo <= j <= |x| && '\n' in x[lo..j]
    ensures '\n' in (x + y)[lo..j]
    ensures LastLineFeed(x + y, lo, j) == LastLineFeed(x, lo, j)
  {
    assert (x + y)[lo..j] == x[lo..j];
    var r1 := LastLineFeed(x + y, lo, j);
    var r2 := LastLineFeed(x, lo, j);
    assert (x + y)[r2] == x[r2] && (x + y)[r1] == x[r1];
  }

  /** No marker before the leftmost one in `x` appears once `y` is appended. */
  lemma EarlierMarkersExtend(x: string, y: string, p0: nat)
    requires p0 + |Marker| <= |x| && MatchesAt(x, p0, Marker)
    requires forall p: nat :: p < p0 ==> !MarkerAt(x, p)
    ensures forall p: nat :: p < p0 ==> !MarkerAt(x + y, p)
  {
    KeysAreColonKeys();
    forall p: nat | p < p0
      ensures !MarkerAt(x + y, p)
    {
      EarlierMatchSettled(x, Marker, p, p0);
      if MatchesAt(x, p, Marker) {
        MarkerAtExtend(x, y, p);
      } else {
        MatchesAtExtend(x, y, p, Marker);
      }
    }
  }

  lemma MarkerSearchExtend(x: string, y: string)
    requires MarkerSearch(x).Some? && SpaceEnd(x, MarkerSearch(x).value + |Marker|) < |x|
    ensures MarkerSearch(x + y) == MarkerSearch(x)
  {
    var p0 := MarkerSearch(x).value;
    MarkerAtExtend(x, y, p0);
    EarlierMarkersExtend(x, y, p0);
    SearchPinned(x + y, p0);
  }

  /** A marker at p0 with none before it is what the search finds. */
  lemma SearchPinned(t: string, p0: nat)
    requires p0 <= |t| && MarkerAt(t, p0)
    requires forall p: nat :: p < p0 ==> !MarkerAt(t, p)
    ensures MarkerSearch(t) == Some(p0)
  {
  }

  /** The block found at p0, whose marker white space ends inside `x`, gains exactly `y`. */
  lemma BlockAtExtend(x: string, y: string, p0: nat)
    requires p0 <= |x| && MarkerAt(x, p0) && SpaceEnd(x, p0 + |Marker|) < |x|
    ensures MarkerAt(x + y, p0)
    ensures (x + y)[BlockStartAt(x + y, p0)..] == x[BlockStartAt(x, p0)..] + y
  {
    var t := x + y;
    var j := SpaceEnd(x, p0 + |Marker|);
    MarkerAtExtend(x, y, p0);
    LastLineFeedExtend(x, y, p0 + |Marker|, j);
    var b := BlockStartAt(x, p0);
    assert BlockStartAt(t, p0) == b;
    assert t[b..] == x[b..] + y;
  }

  lemma StatusBlockExtend(x: string, y: string)
    requires MarkerSearch(x).Some? && SpaceEnd(x, MarkerSearch(x).value + |Marker|) < |x|
    ensures StatusBlock(x + y).Some? && StatusBlock(x).Some?
    ensures StatusBlock(x + y).value == StatusBlock(x).value + y
  {
    MarkerSearchExtend(x, y);
    BlockAtExtend(x, y, MarkerSearch(x).value);
  }

  /**
   * The text decides its own parse: the leftmost marker's white space ends
   * inside it, and after the marker each required field's value and the
   * summary's line end inside it.
   */
  predicate StatusSettled(text: string)
  {
    match MarkerSearch(text)
    case None => false
    case Some(p) =>
      SpaceEnd(text, p + |Marker|) < |text|
      && var block := text[BlockStartAt(text, p)..];
      && NumberSettled(block, ProgressLabel)
      && NumberSettled(block, CompletedLabel)
      && NumberSettled(block, TotalLabel)
      && ExitSearch(block).Some?
      && SummarySettled(block)
  }

  /**
   * Whatever follows a complete first block (another STATUS block included)
   * does not change the parse: the leftmost marker and the first match of each
   * field win.
   */
  lemma {:induction false} FirstBlockWins(x: string, y: string)
    requires StatusSettled(x)
    ensures ParseStatusBlock(x + y) == ParseStatusBlock(x)
  {
    KeysAreColonKeys();
    StatusBlockExtend(x, y);
    ParseBlockExtend(StatusBlock(x).value, y);
  }

  lemma ParseBlockExtend(b: string, y: string)
    requires NumberSettled(b, ProgressLabel) && NumberSettled(b, CompletedLabel)
    requires NumberSettled(b, TotalLabel) && ExitSearch(b).Some? && SummarySettled(b)
    ensures ParseBlock(b + y) == ParseBlock(b)
  {
    KeysAreColonKeys();
    NumberFieldExtend(b, y, ProgressLabel);
    NumberFieldExtend(b, y, CompletedLabel);
    NumberFieldExtend(b, y, TotalLabel);
    ExitFieldExtend(b, y);
    SummaryExtend(b, y);
  }

  /**
   * `\d+` takes no sign: a numeric field written with a minus sign after
   * its key is no match, so a block whose only such field is negative gives
   * no status at all rather than a negative or zero count.
   */
  lemma NegativeFieldRejected(text: string, key: string)
    requires key == ProgressLabel || key == CompletedLabel || key == TotalLabel
    requires StatusBlock(text).Some?
    requires var block := StatusBlock(text).value;
      forall q: nat :: q <= |block| && MatchesAt(block, q, key) ==>
        SpaceEnd(block, q + |key|) < |block| && block[SpaceEnd(block, q + |key|)] == '-'
    ensures ParseStatusBlock(text).None?
  {
    var block := StatusBlock(text).value;
    assert !FieldsPresent(block) by {
      MinusIsNoNumber(block, key);
    }
  }

  lemma MinusIsNoNumber(block: string, key: string)
    requires forall q: nat :: q <= |block| && MatchesAt(block, q, key) ==>
        SpaceEnd(block, q + |key|) < |block| && block[SpaceEnd(block, q + |key|)] == '-'
    ensures NumberField(block, key).None?
  {
    assert NumberSearch(block, key).None? by {
      forall q: nat | q <= |block|
        ensures !NumberAt(block, q, key)
      {
      }
    }
  }
}
