/**
 * The line scanning of `getGitDiffSummary` and `fileChangeScore`
 * (src/utils/git.ts). The `git diff --stat` process is not run: its exit code
 * and standard output are the inputs.
 */
module GitStat {
  import opened Strings

  datatype DiffSummary = DiffSummary(filesChanged: nat, insertions: nat, deletions: nat, summary: string)

  /** The three captures of the stat-line pattern; `marks` is `""` when the optional group did not take part. */
  datatype StatLine = StatLine(name: string, count: nat, marks: string)

  /** `[+\-]` */
  predicate IsMark(c: char)
  {
    c == '+' || c == '-'
  }

  /** End of the run of `+`/`-` starting at i. */
  function MarkEnd(s: string, i: nat): (r: nat)
    requires i <= |s|
    ensures i <= r <= |s|
    ensures forall k :: i <= k < r ==> IsMark(s[k])
    ensures r == |s| || !IsMark(s[r])
    decreases |s| - i
  {
    if i == |s| || !IsMark(s[i]) then i else MarkEnd(s, i + 1)
  }

  /** Index of the first line terminator at or after i, or `|s|`: where `.` stops. */
  function TerminatorFrom(s: string, i: nat): (r: nat)
    requires i <= |s|
    ensures i <= r <= |s|
    ensures forall k :: i <= k < r ==> !IsLineTerminator(s[k])
    ensures r == |s| || IsLineTerminator(s[r])
    decreases |s| - i
  {
    if i == |s| || IsLineTerminator(s[i]) then i else TerminatorFrom(s, i + 1)
  }

  /** The last position before j whose character `.` accepts. */
  function LastUsable(s: string, j: nat): (r: Option<nat>)
    requires j <= |s|
    ensures r.Some? ==> r.value < j && !IsLineTerminator(s[r.value])
    ensures r.Some? ==> forall k :: r.value < k < j ==> IsLineTerminator(s[k])
    ensures r.None? ==> forall k :: 0 <= k < j ==> IsLineTerminator(s[k])
  {
    if j == 0 then None
    else if !IsLineTerminator(s[j - 1]) then Some(j - 1)
    else LastUsable(s, j - 1)
  }

  /**
   * `\s*\|\s*(\d+)` matches from b: the greedy white space must stop at the
   * bar, and the white space after it at a digit.
   */
  predicate BarDigitsAt(s: string, b: nat)
  {
    b <= |s|
    && var c := SpaceEnd(s, b);
    && c < |s| && s[c] == '|'
    && SpaceEnd(s, c + 1) < |s| && IsDigit(s[SpaceEnd(s, c + 1)])
  }

  /** The shortest name `(.+?)` that starts at a and lets the rest match. */
  function NameEndSearch(s: string, a: nat): (r: Option<nat>)
    requires a <= |s|
    ensures r.Some? ==> a < r.value <= TerminatorFrom(s, a) && BarDigitsAt(s, r.value)
    ensures r.Some? ==> forall b: nat :: a < b < r.value ==> !BarDigitsAt(s, b)
    ensures r.None? ==> forall b: nat :: a < b <= TerminatorFrom(s, a) ==> !BarDigitsAt(s, b)
  {
    var P := (b: nat) => BarDigitsAt(s, b);
    assert forall b: nat :: P(b) == BarDigitsAt(s, b);
    FindFirst(P, a + 1, TerminatorFrom(s, a) + 1)
  }

  /**
   * Where the name `(.+?)` lies. The leading `\s*` first takes all the white
   * space and the name is the shortest that lets the rest match. Failing that,
   * `\s*` gives back white space; every shorter name then ends inside the
   * leading white space, where the rest matches exactly when it matches right
   * after it, and the first try is the one-character name at the last usable
   * position.
   */
  function NameSpan(s: string): Option<(nat, nat)>
  {
    var a := SpaceEnd(s, 0);
    match NameEndSearch(s, a)
    case Some(b) => Some((a, b))
    case None =>
      if BarDigitsAt(s, a) then
        match LastUsable(s, a)
        case Some(a') => Some((a', a' + 1))
        case None => None
      else None
  }

  /** The digits `(\d+)` takes at d, read by `parseInt`. */
  function NumberAt(s: string, d: nat): nat
    requires d <= |s|
  {
    var digits := s[d..DigitEnd(s, d)];
    assert forall k :: 0 <= k < |digits| ==> digits[k] == s[d + k];
    DecimalValue(digits)
  }

  /** The optional `(?:\s*([+\-]+))?` after the digits ending at g: the marks, or `""`. */
  function MarksAt(s: string, g: nat): (r: string)
    requires g <= |s|
    ensures forall k :: 0 <= k < |r| ==> IsMark(r[k])
  {
    var h := SpaceEnd(s, g);
    if h < |s| && IsMark(s[h]) then
      var marks := s[h..MarkEnd(s, h)];
      assert forall k :: 0 <= k < |marks| ==> marks[k] == s[h + k];
      marks
    else ""
  }

  /** `line.match(/^\s*(.+?)\s*\|\s*(\d+)(?:\s*([+\-]+))?/)`, with the number read by `parseInt`. */
  function MatchStatLine(s: string): (r: Option<StatLine>)
    ensures r.Some? ==> r.value.name != [] && NoLineTerminator(r.value.name)
    ensures r.Some? ==> forall k :: 0 <= k < |r.value.marks| ==> IsMark(r.value.marks[k])
  {
    match NameSpan(s)
    case None => None
    case Some((a, b)) =>
      SpanFacts(s);
      var c := SpaceEnd(s, b);
      var d := SpaceEnd(s, c + 1);
      Some(StatLine(s[a..b], NumberAt(s, d), MarksAt(s, DigitEnd(s, d))))
  }

  lemma SpanFacts(s: string)
    requires NameSpan(s).Some?
    ensures var (a, b) := NameSpan(s).value;
      a < b <= |s| && BarDigitsAt(s, b) && NoLineTerminator(s[a..b])
  {
    var a0 := SpaceEnd(s, 0);
    if NameEndSearch(s, a0).Some? {
      SearchedSpanFacts(s, a0);
    } else {
      FallbackSpanFacts(s, a0);
    }
  }

  /** The shortest name after the leading white space lies on the line and is followed by the bar and digits. */
  lemma SearchedSpanFacts(s: string, a0: nat)
    requires a0 <= |s| && NameEndSearch(s, a0).Some?
    ensures var b := NameEndSearch(s, a0).value;
      a0 < b <= |s| && BarDigitsAt(s, b) && NoLineTerminator(s[a0..b])
  {
    var b := NameEndSearch(s, a0).value;
    assert forall k :: 0 <= k < b - a0 ==> s[a0..b][k] == s[a0 + k];
  }

  /** The one-character name given back from the leading white space is followed by the same bar and digits. */
  lemma FallbackSpanFacts(s: string, a0: nat)
    requires a0 == SpaceEnd(s, 0) && BarDigitsAt(s, a0) && LastUsable(s, a0).Some?
    ensures var a := LastUsable(s, a0).value;
      a + 1 <= |s| && BarDigitsAt(s, a + 1) && NoLineTerminator(s[a..a + 1])
  {
    var a := LastUsable(s, a0).value;
    assert SpaceEnd(s, a + 1) == a0;
    assert s[a..a + 1] == [s[a]];
  }

  /** A line without a bar, such as the `N files changed` footer, contributes nothing. */
  lemma NoBarNoMatch(s: string)
    requires '|' !in s
    ensures MatchStatLine(s).None?
  {
    var a := SpaceEnd(s, 0);
    forall b: nat | b <= |s|
      ensures !BarDigitsAt(s, b)
    {
      var c := SpaceEnd(s, b);
      if c < |s| {
        assert s[c] in s;
      }
    }
  }

  /** The set of names, and the two sums, after some lines. */
  datatype Tally = Tally(files: set<string>, insertions: nat, deletions: nat)

  /** What one matching line adds: its trimmed name, and its number to each side its marks name. */
  function AddLine(t: Tally, m: StatLine): (r: Tally)
    ensures r.files == t.files + {Trim(m.name)}
    ensures t.insertions <= r.insertions <= t.insertions + m.count
    ensures t.deletions <= r.deletions <= t.deletions + m.count
  {
    var n := m.count;
    var plusMinus := Trim(m.marks);
    Tally(
      t.files + {Trim(m.name)},
      t.insertions + (if '+' in plusMinus then n else 0),
      t.deletions + (if '-' in plusMinus then n else 0))
  }

  /**
   * The tally of the lines, read from the back so that a loop can extend it:
   * the set of trimmed names of the matching lines, and the sums of their
   * numbers over the lines whose marks hold `+` and `-`.
   */
  function TallyOf(lines: seq<string>): (r: Tally)
    ensures r.files == ChangedFiles(lines)
    ensures r.insertions == MarkedSum(lines, '+') && r.deletions == MarkedSum(lines, '-')
  {
    if lines == [] then Tally({}, 0, 0)
    else
      var init := lines[..|lines| - 1];
      var last := lines[|lines| - 1];
      var t := TallyOf(init);
      TallyExtends(t, lines);
      match MatchStatLine(last)
      case None => t
      case Some(m) => AddLine(t, m)
  }

  /** A tally that is right for some lines, extended by one more line, is right for the longer list. */
  lemma TallyExtends(t: Tally, lines: seq<string>)
    requires lines != []
    requires var init := lines[..|lines| - 1];
      t.files == ChangedFiles(init)
      && t.insertions == MarkedSum(init, '+') && t.deletions == MarkedSum(init, '-')
    ensures MatchStatLine(lines[|lines| - 1]).None? ==>
      t.files == ChangedFiles(lines)
      && t.insertions == MarkedSum(lines, '+') && t.deletions == MarkedSum(lines, '-')
    ensures MatchStatLine(lines[|lines| - 1]).Some? ==>
      var r := AddLine(t, MatchStatLine(lines[|lines| - 1]).value);
      r.files == ChangedFiles(lines)
      && r.insertions == MarkedSum(lines, '+') && r.deletions == MarkedSum(lines, '-')
  {
    var init, last := lines[..|lines| - 1], lines[|lines| - 1];
    assert lines == init + [last];
    ChangedFilesSnoc(init, last);
    SumsExtend(t, init, last);
  }

  lemma SumsExtend(t: Tally, lines: seq<string>, last: string)
    requires t.insertions == MarkedSum(lines, '+') && t.deletions == MarkedSum(lines, '-')
    ensures MatchStatLine(last).None? ==>
      t.insertions == MarkedSum(lines + [last], '+') && t.deletions == MarkedSum(lines + [last], '-')
    ensures MatchStatLine(last).Some? ==>
      var r := AddLine(t, MatchStatLine(last).value);
      r.insertions == MarkedSum(lines + [last], '+') && r.deletions == MarkedSum(lines + [last], '-')
  {
    MarkedSumSnoc(lines, last, '+');
    MarkedSumSnoc(lines, last, '-');
    if MatchStatLine(last).Some? {
      MarksDecideSides(t, MatchStatLine(last).value);
    }
  }

  /** What the stat pattern finds on each line. */
  function Matches(lines: seq<string>): (r: seq<Option<StatLine>>)
    ensures |r| == |lines|
    ensures forall k :: 0 <= k < |lines| ==> r[k] == MatchStatLine(lines[k])
  {
    seq(|lines|, k requires 0 <= k < |lines| => MatchStatLine(lines[k]))
  }

  /** The trimmed names of the matches. */
  function NamesOf(ms: seq<Option<StatLine>>): set<string>
  {
    set i | 0 <= i < |ms| && ms[i].Some? :: Trim(ms[i].value.name)
  }

  /** The trimmed names of the lines that match the stat pattern. */
  function ChangedFiles(lines: seq<string>): set<string>
  {
    NamesOf(Matches(lines))
  }

  /** The number a line adds to the side `mark` stands for: its count when it matches and its marks hold `mark`. */
  function MarkedCount(found: Option<StatLine>, mark: char): nat
  {
    match found
    case None => 0
    case Some(m) => if mark in m.marks then m.count else 0
  }

  /** The sum of what the lines add to the side `mark` stands for, read from the front. */
  function MarkedSum(lines: seq<string>, mark: char): nat
  {
    if lines == [] then 0 else MarkedCount(MatchStatLine(lines[0]), mark) + MarkedSum(lines[1..], mark)
  }

  lemma {:induction false} MarkedSumSnoc(lines: seq<string>, last: string, mark: char)
    ensures MarkedSum(lines + [last], mark) == MarkedSum(lines, mark) + MarkedCount(MatchStatLine(last), mark)
    decreases |lines|
  {
    if lines == [] {
      assert [last][1..] == [];
    } else {
      assert (lines + [last])[1..] == lines[1..] + [last];
      MarkedSumSnoc(lines[1..], last, mark);
    }
  }

  lemma ChangedFilesSnoc(lines: seq<string>, last: string)
    ensures ChangedFiles(lines + [last]) ==
      ChangedFiles(lines) + (match MatchStatLine(last) case None => {} case Some(m) => {Trim(m.name)})
  {
    var all := lines + [last];
    assert Matches(all) == Matches(lines) + [MatchStatLine(last)] by {
      assert forall i :: 0 <= i < |lines| ==> all[i] == lines[i];
      assert all[|lines|] == last;
    }
    NamesSnoc(Matches(lines), MatchStatLine(last));
  }

  lemma NamesSnoc(ms: seq<Option<StatLine>>, last: Option<StatLine>)
    ensures NamesOf(ms + [last]) == NamesOf(ms) + (match last case None => {} case Some(m) => {Trim(m.name)})
  {
    var all := ms + [last];
    assert forall i :: 0 <= i < |ms| ==> all[i] == ms[i];
    if last.Some? {
      assert Trim(all[|ms|].value.name) in NamesOf(all);
    }
  }

  lemma TallyStep(lines: seq<string>, i: nat)
    requires i < |lines|
    ensures TallyOf(lines[..i + 1]) ==
      match MatchStatLine(lines[i])
      case None => TallyOf(lines[..i])
      case Some(m) => AddLine(TallyOf(lines[..i]), m)
  {
    assert lines[..i + 1][..i] == lines[..i];
    assert lines[..i + 1][i] == lines[i];
  }

  /** The summary for a finished `git diff --stat`: nothing on failure or empty output. */
  function DiffSummaryOf(exitCode: int, stdout: string): (r: Option<DiffSummary>)
    ensures r.None? <==> exitCode != 0 || stdout == []
    ensures r.Some? ==> r.value.summary == stdout[..Min(500, |stdout|)]
    ensures r.Some? ==> |r.value.summary| <= 500
    ensures r.Some? ==> var lines := SplitLines(Trim(stdout));
      r.value.filesChanged == |ChangedFiles(lines)|
      && r.value.insertions == MarkedSum(lines, '+') && r.value.deletions == MarkedSum(lines, '-')
  {
    if exitCode != 0 || stdout == [] then None
    else
      var t := TallyOf(SplitLines(Trim(stdout)));
      Some(DiffSummary(|t.files|, t.insertions, t.deletions, stdout[..Min(500, |stdout|)]))
  }

  /** The body of the loop for a line that matches: the name joins the set, the number goes to the marked sides. */
  method CountStatLine(fileSet: set<string>, insertions: nat, deletions: nat, m: StatLine)
    returns (fileSet': set<string>, insertions': nat, deletions': nat)
    ensures Tally(fileSet', insertions', deletions') == AddLine(Tally(fileSet, insertions, deletions), m)
  {
    fileSet' := fileSet + {Trim(m.name)};
    var n := m.count;
    var plusMinus := Trim(m.marks);
    insertions', deletions' := insertions, deletions;
    if '+' in plusMinus {
      insertions' := insertions' + n;
    }
    if '-' in plusMinus {
      deletions' := deletions' + n;
    }
  }

  /** `getGitDiffSummary` after the process has run: the loop over the output's lines. */
  method GetGitDiffSummary(exitCode: int, stdout: string) returns (r: Option<DiffSummary>)
    ensures r == DiffSummaryOf(exitCode, stdout)
  {
    if exitCode != 0 || stdout == [] {
      return None;
    }
    var lines := SplitLines(Trim(stdout));
    var insertions := 0;
    var deletions := 0;
    var fileSet: set<string> := {};
    for i := 0 to |lines|
      invariant Tally(fileSet, insertions, deletions) == TallyOf(lines[..i])
    {
      TallyStep(lines, i);
      var m := MatchStatLine(lines[i]);
      if m.Some? {
        fileSet, insertions, deletions := CountStatLine(fileSet, insertions, deletions, m.value);
      }
    }
    assert lines[..|lines|] == lines;
    r := Some(DiffSummary(|fileSet|, insertions, deletions, stdout[..Min(500, |stdout|)]));
  }

  /** `fileChangeScore`: twice the files changed plus both line counts, 0 without a summary. */
  function FileChangeScore(summary: Option<DiffSummary>): (r: nat)
    ensures summary.None? ==> r == 0
    ensures summary.Some? ==> (r == 0 <==> summary.value.filesChanged == 0 && summary.value.insertions == 0 && summary.value.deletions == 0)
    ensures summary.Some? ==> r >= 2 * summary.value.filesChanged
    ensures summary.Some? ==> r >= summary.value.insertions + summary.value.deletions
  {
    match summary
    case None => 0
    case Some(s) => s.filesChanged * 2 + s.insertions + s.deletions
  }

  /** The number of lines that match the stat pattern. */
  function MatchCount(lines: seq<string>): nat
  {
    if lines == [] then 0
    else MatchCount(lines[..|lines| - 1]) + (if MatchStatLine(lines[|lines| - 1]).Some? then 1 else 0)
  }

  /** Files are counted once however many lines name them: never more than the matching lines. */
  lemma {:induction false} FilesAtMostMatches(lines: seq<string>)
    ensures |TallyOf(lines).files| <= MatchCount(lines)
  {
    if lines != [] {
      FilesAtMostMatches(lines[..|lines| - 1]);
    }
  }

  /** Output with no matching line changes no file and no line. */
  lemma {:induction false} NoMatchNoChange(lines: seq<string>)
    requires MatchCount(lines) == 0
    ensures TallyOf(lines) == Tally({}, 0, 0)
  {
    if lines != [] {
      NoMatchNoChange(lines[..|lines| - 1]);
    }
  }

  /** A line's number goes to insertions when its marks hold `+`, to deletions when they hold `-`. */
  lemma MarksDecideSides(t: Tally, m: StatLine)
    requires forall k :: 0 <= k < |m.marks| ==> IsMark(m.marks[k])
    ensures AddLine(t, m).insertions == t.insertions + (if '+' in m.marks then m.count else 0)
    ensures AddLine(t, m).deletions == t.deletions + (if '-' in m.marks then m.count else 0)
    ensures Trim(m.name) in AddLine(t, m).files
  {
    if m.marks != [] {
      assert !IsSpace(m.marks[0]) && !IsSpace(m.marks[|m.marks| - 1]);
    }
    TrimOfTrimmed(m.marks);
  }

  /** The score of a run of `git diff --stat` is 0 exactly when git failed, printed nothing, or no line matched a file. */
  lemma ScoreZero(exitCode: int, stdout: string)
    ensures FileChangeScore(DiffSummaryOf(exitCode, stdout)) == 0 <==>
      exitCode != 0 || stdout == [] || TallyOf(SplitLines(Trim(stdout))) == Tally({}, 0, 0)
  {
  }

  /** A typical stat line: the name is trimmed of its padding, the number read, the marks kept. */
  lemma StatLineExample(s: string)
    requires s == " src/a.ts  | 3 ++-"
    ensures MatchStatLine(s) == Some(StatLine("src/a.ts", 3, "++-"))
  {
    assert s[1..9] == "src/a.ts";
    ExampleSpan(s);
    ExampleCounts(s);
  }

  lemma ExampleSpan(s: string)
    requires s == " src/a.ts  | 3 ++-"
    ensures NameSpan(s) == Some((1, 9))
    ensures SpaceEnd(s, 9) == 11 && SpaceEnd(s, 12) == 13
  {
    ExampleBar(s);
    ExampleNoEarlierBar(s);
    assert SpaceEnd(s, 0) == 1;
    assert TerminatorFrom(s, 1) == 18;
  }

  lemma ExampleBar(s: string)
    requires s == " src/a.ts  | 3 ++-"
    ensures SpaceEnd(s, 9) == 11 && SpaceEnd(s, 12) == 13 && BarDigitsAt(s, 9)
  {
    assert SpaceEnd(s, 11) == 11 && SpaceEnd(s, 10) == 11;
    assert SpaceEnd(s, 13) == 13;
  }

  lemma ExampleNoEarlierBar(s: string)
    requires s == " src/a.ts  | 3 ++-"
    ensures forall b: nat :: 1 < b < 9 ==> !BarDigitsAt(s, b)
  {
    forall b: nat | 1 < b < 9
      ensures !BarDigitsAt(s, b)
    {
      assert !IsSpace(s[b]) && s[b] != '|';
    }
  }

  lemma ExampleCounts(s: string)
    requires s == " src/a.ts  | 3 ++-"
    ensures DigitEnd(s, 13) == 14 && NumberAt(s, 13) == 3 && MarksAt(s, 14) == "++-"
  {
    assert DigitEnd(s, 14) == 14 && DigitEnd(s, 13) == 14;
    assert s[13..14] == "3";
    assert "3"[..0] == [];
    assert DecimalValue("3") == 3;
    assert SpaceEnd(s, 15) == 15 && SpaceEnd(s, 14) == 15;
    assert MarkEnd(s, 18) == 18 && MarkEnd(s, 17) == 18 && MarkEnd(s, 16) == 18 && MarkEnd(s, 15) == 18;
    assert s[15..18] == "++-";
  }
}
