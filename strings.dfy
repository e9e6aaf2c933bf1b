/**
 * The pieces of JavaScript's string library that the modelled code leans on:
 * the `\s` class and `trim`, ASCII case folding (what a non-unicode `/i`
 * regular expression and `toLowerCase` do to the ASCII labels compared here),
 * `\d` digit runs with `parseInt`, `String(n)`, and `split(/\r?\n/)` / `join('\n')`.
 */
module Strings {

  datatype Option<+T> = None | Some(value: T)

  /**
   * Leftmost position in [lo, hi) where `P` holds: the position a regular
   * expression without anchors reports when `P` says "the pattern matches here".
   */
  function FindFirst(P: nat -> bool, lo: nat, hi: nat): (r: Option<nat>)
    ensures r.Some? ==> lo <= r.value < hi && P(r.value)
    ensures r.Some? ==> forall q :: lo <= q < r.value ==> !P(q)
    ensures r.None? ==> forall q :: lo <= q < hi ==> !P(q)
    decreases hi - lo
  {
    if lo >= hi then None else if P(lo) then Some(lo) else FindFirst(P, lo + 1, hi)
  }

  /** Two searches that agree up to the first one's hit report the same hit. */
  lemma FindFirstAgree(P1: nat -> bool, P2: nat -> bool, lo: nat, hi1: nat, hi2: nat, q0: nat)
    requires FindFirst(P1, lo, hi1) == Some(q0)
    requires q0 < hi2
    requires forall q :: lo <= q <= q0 ==> P1(q) == P2(q)
    ensures FindFirst(P2, lo, hi2) == Some(q0)
  {
  }

  /** White space as JavaScript's `\s` and `String.prototype.trim` see it. */
  predicate IsSpace(c: char)
  {
    c == ' ' || c == '\t' || c == '\n' || c == '\r' || c == '\U{B}' || c == '\U{C}'
    || c == '\U{A0}' || c == '\U{1680}' || ('\U{2000}' <= c <= '\U{200A}')
    || c == '\U{2028}' || c == '\U{2029}' || c == '\U{202F}' || c == '\U{205F}'
    || c == '\U{3000}' || c == '\U{FEFF}'
  }

  /** The characters a regular expression's `.` refuses when the `s` flag is off. */
  predicate IsLineTerminator(c: char)
  {
    c == '\n' || c == '\r' || c == '\U{2028}' || c == '\U{2029}'
  }

  predicate NoLineTerminator(s: string)
  {
    forall k :: 0 <= k < |s| ==> !IsLineTerminator(s[k])
  }

  /** `\d`: ASCII digits only, so a sign is never part of a number. */
  predicate IsDigit(c: char)
  {
    '0' <= c <= '9'
  }

  predicate AllDigits(s: string)
  {
    forall k :: 0 <= k < |s| ==> IsDigit(s[k])
  }

  function Lower(c: char): char
  {
    if 'A' <= c <= 'Z' then (c as int + 32) as char else c
  }

  function Upper(c: char): char
  {
    if 'a' <= c <= 'z' then (c as int - 32) as char else c
  }

  function LowerString(s: string): (r: string)
    ensures |r| == |s| && forall k :: 0 <= k < |s| ==> r[k] == Lower(s[k])
  {
    seq(|s|, k requires 0 <= k < |s| => Lower(s[k]))
  }

  function UpperString(s: string): (r: string)
    ensures |r| == |s| && forall k :: 0 <= k < |s| ==> r[k] == Upper(s[k])
  {
    seq(|s|, k requires 0 <= k < |s| => Upper(s[k]))
  }

  /**
   * The literal `lit` (written in lower case) occurs at position `i` of `s`,
   * ignoring the case of ASCII letters, as a non-unicode `/i` pattern matches.
   */
  predicate MatchesAt(s: string, i: nat, lit: string)
  {
    i + |lit| <= |s| && forall k :: 0 <= k < |lit| ==> Lower(s[i + k]) == lit[k]
  }

  predicate StartsWith(s: string, prefix: string)
  {
    |prefix| <= |s| && s[..|prefix|] == prefix
  }

  /** End of the maximal run of white space that starts at `i` (what a greedy `\s*` eats). */
  function SpaceEnd(s: string, i: nat): (r: nat)
    requires i <= |s|
    ensures i <= r <= |s|
    ensures forall k :: i <= k < r ==> IsSpace(s[k])
    ensures r == |s| || !IsSpace(s[r])
    decreases |s| - i
  {
    if i == |s| || !IsSpace(s[i]) then i else SpaceEnd(s, i + 1)
  }

  /** Start of the maximal run of white space that ends at `j`, not going below `lo`. */
  function SpaceBack(s: string, lo: nat, j: nat): (r: nat)
    requires lo <= j <= |s|
    ensures lo <= r <= j
    ensures forall k :: r <= k < j ==> IsSpace(s[k])
    ensures r == lo || !IsSpace(s[r - 1])
    decreases j
  {
    if j == lo || !IsSpace(s[j - 1]) then j else SpaceBack(s, lo, j - 1)
  }

  /** End of the maximal run of digits that starts at `i` (what a greedy `\d+` eats). */
  function DigitEnd(s: string, i: nat): (r: nat)
    requires i <= |s|
    ensures i <= r <= |s|
    ensures forall k :: i <= k < r ==> IsDigit(s[k])
    ensures r == |s| || !IsDigit(s[r])
    decreases |s| - i
  {
    if i == |s| || !IsDigit(s[i]) then i else DigitEnd(s, i + 1)
  }

  /** `String.prototype.trim`. */
  function Trim(s: string): (r: string)
    ensures |r| <= |s|
    ensures r == [] || (!IsSpace(r[0]) && !IsSpace(r[|r| - 1]))
  {
    var a := SpaceEnd(s, 0);
    var b := SpaceBack(s, a, |s|);
    assert forall k :: 0 <= k < b - a ==> s[a..b][k] == s[a + k];
    s[a..b]
  }

  /** Trimming only removes characters: what is left is a slice of the input. */
  lemma TrimInside(s: string)
    ensures SpaceEnd(s, 0) + |Trim(s)| <= |s|
    ensures forall k :: 0 <= k < |Trim(s)| ==> Trim(s)[k] == s[SpaceEnd(s, 0) + k]
  {
  }

  /** A character that does not occur in a string does not occur in its trim. */
  lemma TrimKeepsOut(s: string, c: char)
    requires c !in s
    ensures c !in Trim(s)
  {
    TrimInside(s);
    assert forall k :: 0 <= k < |Trim(s)| ==> Trim(s)[k] != c;
  }

  /** A string with no white space at either end is its own trim. */
  lemma TrimOfTrimmed(s: string)
    requires s == [] || (!IsSpace(s[0]) && !IsSpace(s[|s| - 1]))
    ensures Trim(s) == s
  {
    if s != [] {
      assert SpaceEnd(s, 0) == 0;
      assert SpaceBack(s, 0, |s|) == |s|;
    }
  }

  /** Trim is what lies between a run of white space at the front and one at the back, when both ends of it are not white space. */
  lemma TrimIs(s: string, a: nat, b: nat)
    requires a <= b <= |s|
    requires forall k :: 0 <= k < a ==> IsSpace(s[k])
    requires forall k :: b <= k < |s| ==> IsSpace(s[k])
    requires a == b || (!IsSpace(s[a]) && !IsSpace(s[b - 1]))
    ensures Trim(s) == s[a..b]
  {
    var a' := SpaceEnd(s, 0);
    if a == b {
      assert a' == |s|;
    } else {
      assert a' == a;
      assert SpaceBack(s, a, |s|) == b;
    }
  }

  /** White space in front of a string does not change its trim. */
  lemma TrimDropsLeadingSpace(pre: string, s: string)
    requires forall k :: 0 <= k < |pre| ==> IsSpace(pre[k])
    ensures Trim(pre + s) == Trim(s)
  {
    var a := SpaceEnd(s, 0);
    var b := SpaceBack(s, a, |s|);
    TrimOfShifted(pre, s, a, b);
    SliceAfterPrefix(pre, s, a, b);
  }

  /** The trim of a string behind a white-space prefix lies where the trim of the string lies, moved past the prefix. */
  lemma TrimOfShifted(pre: string, s: string, a: nat, b: nat)
    requires forall k :: 0 <= k < |pre| ==> IsSpace(pre[k])
    requires a == SpaceEnd(s, 0) && b == SpaceBack(s, a, |s|)
    ensures |pre| + b <= |pre + s| && Trim(pre + s) == (pre + s)[|pre| + a..|pre| + b]
  {
    ShiftedBounds(pre, s, a, b);
    TrimIs(pre + s, |pre| + a, |pre| + b);
  }

  lemma SliceAfterPrefix(pre: string, s: string, a: nat, b: nat)
    requires a <= b <= |s|
    ensures (pre + s)[|pre| + a..|pre| + b] == s[a..b]
  {
  }

  /** The bounds of the trim of s, moved past a white-space prefix, bound the trim of the whole. */
  lemma ShiftedBounds(pre: string, s: string, a: nat, b: nat)
    requires forall k :: 0 <= k < |pre| ==> IsSpace(pre[k])
    requires a == SpaceEnd(s, 0) && b == SpaceBack(s, a, |s|)
    ensures var x, n := pre + s, |pre|;
      n + a <= n + b <= |x|
      && (forall k :: 0 <= k < n + a ==> IsSpace(x[k]))
      && (forall k :: n + b <= k < |x| ==> IsSpace(x[k]))
      && (a == b || (!IsSpace(x[n + a]) && !IsSpace(x[n + b - 1])))
  {
    var x := pre + s;
    var n := |pre|;
    forall k | 0 <= k < n + a
      ensures IsSpace(x[k])
    {
      if k < n {
        assert x[k] == pre[k];
      } else {
        assert x[k] == s[k - n];
      }
    }
    forall k | n + b <= k < |x|
      ensures IsSpace(x[k])
    {
      assert x[k] == s[k - n];
    }
    if a < b {
      assert x[n + a] == s[a] && x[n + b - 1] == s[b - 1];
    }
  }

  /** Skipping white space before trimming changes nothing. */
  lemma TrimAfterSpace(s: string, i: nat)
    requires i <= |s|
    ensures Trim(s[SpaceEnd(s, i)..]) == Trim(s[i..])
  {
    var e := SpaceEnd(s, i);
    assert s[i..] == s[i..e] + s[e..];
    assert forall k :: 0 <= k < e - i ==> s[i..e][k] == s[i + k];
    TrimDropsLeadingSpace(s[i..e], s[e..]);
  }

  /** Trimming ignores white space appended at the end. */
  lemma TrimDropsTrailingSpace(s: string, tail: string)
    requires s == [] || (!IsSpace(s[0]) && !IsSpace(s[|s| - 1]))
    requires forall k :: 0 <= k < |tail| ==> IsSpace(tail[k])
    ensures Trim(s + tail) == s
  {
    var t := s + tail;
    if s == [] {
      assert t == tail;
      assert SpaceEnd(t, 0) == |t|;
    } else {
      assert SpaceEnd(t, 0) == 0;
      assert t[|s| - 1] == s[|s| - 1];
      SpaceBackOverRun(t, 0, |s|, |t|);
      assert t[..|s|] == s;
    }
  }

  lemma SpaceBackOverRun(s: string, lo: nat, m: nat, j: nat)
    requires lo < m <= j <= |s|
    requires forall k :: m <= k < j ==> IsSpace(s[k])
    requires !IsSpace(s[m - 1])
    ensures SpaceBack(s, lo, j) == m
    decreases j
  {
    if j > m {
      SpaceBackOverRun(s, lo, m, j - 1);
    }
  }

  /* Scans that stop inside `s` do not look at what is appended to it. */

  lemma MatchesAtExtend(s: string, y: string, i: nat, lit: string)
    requires i + |lit| <= |s|
    ensures MatchesAt(s + y, i, lit) == MatchesAt(s, i, lit)
  {
    assert forall k :: 0 <= k < |s| ==> (s + y)[k] == s[k];
  }

  lemma {:induction false} SpaceEndExtend(s: string, y: string, i: nat)
    requires i <= |s| && SpaceEnd(s, i) < |s|
    ensures SpaceEnd(s + y, i) == SpaceEnd(s, i)
    decreases |s| - i
  {
    assert (s + y)[i] == s[i];
    if IsSpace(s[i]) {
      SpaceEndExtend(s, y, i + 1);
    }
  }

  lemma {:induction false} DigitEndExtend(s: string, y: string, i: nat)
    requires i <= |s| && DigitEnd(s, i) < |s|
    ensures DigitEnd(s + y, i) == DigitEnd(s, i)
    decreases |s| - i
  {
    assert (s + y)[i] == s[i];
    if IsDigit(s[i]) {
      DigitEndExtend(s, y, i + 1);
    }
  }

  lemma {:induction false} LineFeedFromExtend(s: string, y: string, i: nat)
    requires i <= |s| && LineFeedFrom(s, i) < |s|
    ensures LineFeedFrom(s + y, i) == LineFeedFrom(s, i)
    decreases |s| - i
  {
    assert (s + y)[i] == s[i];
    if s[i] != '\n' {
      LineFeedFromExtend(s, y, i + 1);
    }
  }

  /** `parseInt(d, 10)` of a run of digits, read as an unbounded integer. */
  function DecimalValue(d: string): (r: nat)
    requires AllDigits(d)
  {
    if d == [] then 0
    else 10 * DecimalValue(d[..|d| - 1]) + (d[|d| - 1] as int - '0' as int)
  }

  function DigitChar(n: nat): (c: char)
    requires n < 10
    ensures IsDigit(c) && c as int - '0' as int == n
  {
    ('0' as int + n) as char
  }

  /** `String(n)` for a non-negative integer. */
  function NatToString(n: nat): (r: string)
    ensures |r| > 0 && AllDigits(r)
    ensures DecimalValue(r) == n
  {
    if n < 10 then [DigitChar(n)]
    else
      var prefix := NatToString(n / 10);
      var r := prefix + [DigitChar(n % 10)];
      assert r[..|r| - 1] == prefix;
      r
  }

  /** `String(i)` / `${i}` for an integer. */
  function IntToString(i: int): (r: string)
    ensures |r| > 0
    ensures i < 0 <==> r[0] == '-'
  {
    if i < 0 then "-" + NatToString(-i) else NatToString(i)
  }

  /** Index of the first line feed at or after `i`, or `|s|`. */
  function LineFeedFrom(s: string, i: nat): (r: nat)
    requires i <= |s|
    ensures i <= r <= |s|
    ensures forall k :: i <= k < r ==> s[k] != '\n'
    ensures r == |s| || s[r] == '\n'
    decreases |s| - i
  {
    if i == |s| || s[i] == '\n' then i else LineFeedFrom(s, i + 1)
  }

  /** Drops one carriage return before a line feed (the `\r?` of `/\r?\n/`). */
  function DropCarriageReturn(line: string): string
  {
    if line != [] && line[|line| - 1] == '\r' then line[..|line| - 1] else line
  }

  /** `s.split(/\r?\n/)`: never empty; the last piece keeps a trailing `\r`. */
  function SplitLines(s: string): (r: seq<string>)
    ensures |r| > 0
    ensures forall k :: 0 <= k < |r| ==> '\n' !in r[k]
    decreases |s|
  {
    var k := LineFeedFrom(s, 0);
    if k == |s| then
      assert forall j :: 0 <= j < |s| ==> s[j] != '\n';
      [s]
    else
      var first := DropCarriageReturn(s[..k]);
      assert forall j :: 0 <= j < |first| ==> first[j] == s[j];
      [first] + SplitLines(s[k + 1..])
  }

  /** `lines.join('\n')`. */
  function JoinLines(lines: seq<string>): string
    decreases |lines|
  {
    if |lines| == 0 then ""
    else if |lines| == 1 then lines[0]
    else lines[0] + "\n" + JoinLines(lines[1..])
  }

  /** A line that survives a join/split round trip unchanged. */
  predicate PlainLine(line: string)
  {
    '\n' !in line && (line == [] || line[|line| - 1] != '\r')
  }

  /** Splitting what was joined gives back the lines, when none holds a line break. */
  lemma {:induction false} SplitJoin(lines: seq<string>)
    requires |lines| > 0
    requires forall k :: 0 <= k < |lines| ==> PlainLine(lines[k])
    ensures SplitLines(JoinLines(lines)) == lines
    decreases |lines|
  {
    var l := lines[0];
    if |lines| == 1 {
      LineFeedAbsent(l);
    } else {
      var rest := JoinLines(lines[1..]);
      var s := l + "\n" + rest;
      assert JoinLines(lines) == s;
      LineFeedAfter(l, rest);
      assert s[..|l|] == l;
      assert s[|l| + 1..] == rest;
      SplitJoin(lines[1..]);
      assert lines == [l] + lines[1..];
    }
  }

  lemma LineFeedAbsent(s: string)
    requires '\n' !in s
    ensures LineFeedFrom(s, 0) == |s|
  {
  }

  lemma LineFeedAfter(l: string, rest: string)
    requires '\n' !in l
    ensures LineFeedFrom(l + "\n" + rest, 0) == |l|
  {
    var s := l + "\n" + rest;
    assert forall k :: 0 <= k < |l| ==> s[k] == l[k];
    assert s[|l|] == '\n';
  }

  /** `c.repeat(n)`. */
  function Repeat(c: char, n: nat): (r: string)
    ensures |r| == n && forall k :: 0 <= k < n ==> r[k] == c
  {
    seq(n, k => c)
  }

  function Max(a: int, b: int): int
  {
    if a >= b then a else b
  }

  function Min(a: int, b: int): int
  {
    if a <= b then a else b
  }
}
