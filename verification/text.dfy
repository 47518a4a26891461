/**
 The Python string operations the cook book relies on: `str.isspace`/`str.strip`,
 `str.lower` (ASCII letters only), the `in` substring test, `str.split(sep, 1)`
 and `str.splitlines`.
 */
module Text {
  import opened Results

  /** The characters Python's `str.isspace` accepts, i.e. what `str.strip()` removes. */
  predicate IsSpace(c: char) {
    || c == ' ' || c == '\t' || c == '\n' || c == '\r' || c == '\U{B}' || c == '\U{C}'
    || ('\U{1C}' <= c <= '\U{1F}')
    || c == '\U{85}' || c == '\U{A0}' || c == '\U{1680}'
    || ('\U{2000}' <= c <= '\U{200A}')
    || c == '\U{2028}' || c == '\U{2029}' || c == '\U{202F}' || c == '\U{205F}' || c == '\U{3000}'
  }

  /** The line boundaries Python's `str.splitlines` breaks on ("\r\n" is one boundary). */
  predicate IsLineBreak(c: char) {
    || c == '\n' || c == '\r' || c == '\U{B}' || c == '\U{C}'
    || c == '\U{1C}' || c == '\U{1D}' || c == '\U{1E}'
    || c == '\U{85}' || c == '\U{2028}' || c == '\U{2029}'
  }

  predicate IsUpper(c: char) {
    'A' <= c <= 'Z'
  }

  /* ---------------------------------------------------------------- lower */

  function LowerChar(c: char): (d: char)
    ensures !IsUpper(d)
    ensures IsUpper(c) ==> d as int == c as int + 32
    ensures !IsUpper(c) ==> d == c
  {
    if IsUpper(c) then (c as int + 32) as char else c
  }

  /** `s.lower()`, restricted to ASCII letters. */
  function Lower(s: string): (r: string)
    ensures |r| == |s|
    ensures forall i :: 0 <= i < |r| ==> !IsUpper(r[i])
    ensures forall i :: 0 <= i < |s| && IsUpper(s[i]) ==> r[i] as int == s[i] as int + 32
    ensures forall i :: 0 <= i < |s| && !IsUpper(s[i]) ==> r[i] == s[i]
  {
    seq(|s|, i requires 0 <= i < |s| => LowerChar(s[i]))
  }

  /** Lowering twice is lowering once. */
  lemma LowerIdempotent(s: string)
    ensures Lower(Lower(s)) == Lower(s)
  {
    var l := Lower(s);
    assert forall i :: 0 <= i < |l| ==> Lower(l)[i] == l[i] by {
      forall i | 0 <= i < |l|
        ensures Lower(l)[i] == l[i]
      {
        assert !IsUpper(l[i]);
      }
    }
  }

  /* ---------------------------------------------------------------- strip */

  /** s[..i] and s[j..] are all whitespace: s[i..j] is s with some surrounding space removed. */
  ghost predicate Trimmed(s: string, i: int, j: int) {
    && 0 <= i <= j <= |s|
    && (forall k :: 0 <= k < i ==> IsSpace(s[k]))
    && (forall k :: j <= k < |s| ==> IsSpace(s[k]))
  }

  /** Number of leading whitespace characters. */
  function LeadingSpace(s: string): (n: nat)
    ensures n <= |s|
    ensures forall k :: 0 <= k < n ==> IsSpace(s[k])
    ensures n < |s| ==> !IsSpace(s[n])
  {
    if s == [] || !IsSpace(s[0]) then 0 else 1 + LeadingSpace(s[1..])
  }

  /** Index where the trailing whitespace of s starts. */
  function TrailingSpace(s: string): (m: nat)
    ensures m <= |s|
    ensures forall k :: m <= k < |s| ==> IsSpace(s[k])
    ensures 0 < m ==> !IsSpace(s[m - 1])
  {
    if s == [] || !IsSpace(s[|s| - 1]) then |s| else TrailingSpace(s[..|s| - 1])
  }

  /** `s.strip()`: the longest slice of s that neither starts nor ends with whitespace. */
  function Strip(s: string): (r: string)
    ensures exists i, j :: Trimmed(s, i, j) && r == s[i..j]
    ensures r == [] || (!IsSpace(r[0]) && !IsSpace(r[|r| - 1]))
  {
    var i := LeadingSpace(s);
    if i == |s| then
      assert Trimmed(s, i, i);
      []
    else
      var j := TrailingSpace(s);
      assert Trimmed(s, i, j);
      s[i..j]
  }

  /** Stripping a second time changes nothing. */
  lemma StripIdempotent(s: string)
    ensures Strip(Strip(s)) == Strip(s)
  {
    var r := Strip(s);
    if r != [] {
      assert LeadingSpace(r) == 0;
      assert TrailingSpace(r) == |r|;
    }
  }

  /** Strip removes exactly the surrounding whitespace: a word that neither starts nor ends
      with whitespace, padded on both sides with whitespace only, strips to the word. */
  lemma StripPadded(s: string, pre: string, w: string, post: string)
    requires s == pre + w + post
    requires forall k :: 0 <= k < |pre| ==> IsSpace(pre[k])
    requires forall k :: 0 <= k < |post| ==> IsSpace(post[k])
    requires w != [] && !IsSpace(w[0]) && !IsSpace(w[|w| - 1])
    ensures Strip(s) == w
  {
    var i, j := |pre|, |pre| + |w|;
    assert s[i..j] == w;
    assert Trimmed(s, i, j) by {
      assert forall k :: 0 <= k < i ==> s[k] == pre[k];
      assert forall k :: j <= k < |s| ==> s[k] == post[k - j];
    }
    assert LeadingSpace(s) == i;
    assert TrailingSpace(s) == j;
  }

  /* ------------------------------------------------------------ substring */

  /** needle occurs in hay starting at position i. */
  ghost predicate OccursAt(needle: string, hay: string, i: nat) {
    i + |needle| <= |hay| && hay[i..i + |needle|] == needle
  }

  /** Python's `needle in hay` for strings. */
  predicate Contains(needle: string, hay: string): (b: bool)
    ensures needle == [] ==> b
    ensures b ==> |needle| <= |hay|
    decreases |hay|
  {
    || (|needle| <= |hay| && hay[..|needle|] == needle)
    || (hay != [] && Contains(needle, hay[1..]))
  }

  /** `in` holds exactly when the needle occurs at some position of the hay. */
  lemma {:induction false} ContainsIffOccurs(needle: string, hay: string)
    ensures Contains(needle, hay) <==> exists i: nat :: OccursAt(needle, hay, i)
    decreases |hay|
  {
    if Contains(needle, hay) {
      if |needle| <= |hay| && hay[..|needle|] == needle {
        assert OccursAt(needle, hay, 0);
      } else {
        ContainsIffOccurs(needle, hay[1..]);
        var i: nat :| OccursAt(needle, hay[1..], i);
        assert hay[1..][i..i + |needle|] == hay[i + 1..i + 1 + |needle|];
        assert OccursAt(needle, hay, i + 1);
      }
    }
    if exists i: nat :: OccursAt(needle, hay, i) {
      var i: nat :| OccursAt(needle, hay, i);
      if i > 0 {
        assert hay[1..][i - 1..i - 1 + |needle|] == hay[i..i + |needle|];
        assert OccursAt(needle, hay[1..], i - 1);
        ContainsIffOccurs(needle, hay[1..]);
      }
    }
  }

  /* ------------------------------------------------------------ split once */

  /** `s.split(sep, 1)`: the text before the first sep and the text after it; None when sep is absent. */
  function SplitOnce(s: string, sep: char): (r: Option<(string, string)>)
    ensures r.None? <==> sep !in s
    ensures r.Some? ==> s == r.value.0 + [sep] + r.value.1 && sep !in r.value.0
  {
    if s == [] then None
    else if s[0] == sep then Some(([], s[1..]))
    else
      match SplitOnce(s[1..], sep)
      case None => None
      case Some((before, after)) => Some(([s[0]] + before, after))
  }

  /* ------------------------------------------------------------ splitlines */

  ghost predicate BreakFree(line: string) {
    forall k :: 0 <= k < |line| ==> !IsLineBreak(line[k])
  }

  /** Position of the first line boundary character of s. */
  function FindBreak(s: string): (r: Option<nat>)
    ensures r.None? <==> BreakFree(s)
    ensures r.Some? ==> r.value < |s| && IsLineBreak(s[r.value]) && BreakFree(s[..r.value])
  {
    if s == [] then None
    else if IsLineBreak(s[0]) then Some(0)
    else
      match FindBreak(s[1..])
      case None => None
      case Some(i) =>
        assert s[..i + 1] == [s[0]] + s[1..][..i];
        Some(i + 1)
  }

  /** Length of the boundary starting at s[i]: "\r\n" counts as one boundary of two characters. */
  function BreakWidth(s: string, i: nat): (w: nat)
    requires i < |s|
    ensures 1 <= w <= 2 && i + w <= |s|
  {
    if s[i] == '\r' && i + 1 < |s| && s[i + 1] == '\n' then 2 else 1
  }

  /** `s.splitlines()`: the lines of s without their boundaries; a final boundary opens no extra line. */
  function SplitLines(s: string): (lines: seq<string>)
    ensures s == [] <==> lines == []
    ensures forall k :: 0 <= k < |lines| ==> BreakFree(lines[k])
    decreases |s|
  {
    if s == [] then []
    else
      match FindBreak(s)
      case None => [s]
      case Some(i) => [s[..i]] + SplitLines(s[i + BreakWidth(s, i)..])
  }

  /** A non-empty text without line boundaries is a single line. */
  lemma SplitLinesSingle(line: string)
    requires line != [] && BreakFree(line)
    ensures SplitLines(line) == [line]
  {
  }

  /** A line boundary sequence that `splitlines` recognises as a single boundary. */
  predicate Terminator(t: string) {
    t == "\r\n" || (|t| == 1 && IsLineBreak(t[0]))
  }

  /** The lines, each followed by the terminator t: how a text box holds one entry per line. */
  function JoinLines(lines: seq<string>, t: string): (s: string)
    ensures lines == [] ==> s == []
    ensures t != [] ==> (s == [] <==> lines == [])
  {
    if lines == [] then [] else lines[0] + t + JoinLines(lines[1..], t)
  }

  /** Joining a line in front of other lines puts the line and one terminator in front. */
  lemma JoinLinesCons(line: string, lines: seq<string>, t: string)
    ensures JoinLines([line] + lines, t) == line + t + JoinLines(lines, t)
  {
    assert ([line] + lines)[0] == line && ([line] + lines)[1..] == lines;
  }

  /** Splitting a break-free line followed by a terminator yields that line, then the lines of the rest. */
  lemma SplitLinesStep(line: string, t: string, rest: string)
    requires BreakFree(line) && Terminator(t)
    requires t == "\r" && rest != [] ==> rest[0] != '\n'
    ensures SplitLines(line + t + rest) == [line] + SplitLines(rest)
  {
    var s := line + t + rest;
    assert s[|line|] == t[0];
    var r := FindBreak(s);
    assert IsLineBreak(s[|line|]);
    assert forall k :: 0 <= k < |line| ==> s[k] == line[k];
    assert r.value == |line|;
    assert s[..|line|] == line;
    if t == "\r\n" {
      assert s[|line| + 1] == '\n';
      assert BreakWidth(s, |line|) == 2;
    } else {
      assert BreakWidth(s, |line|) == 1;
    }
    assert s[|line| + |t|..] == rest;
  }

  /** The first character of a joined text is the first line's first character or the terminator's. */
  lemma JoinLinesHead(lines: seq<string>, t: string)
    requires JoinLines(lines, t) != [] && t != []
    ensures lines != []
    ensures JoinLines(lines, t)[0] == (if lines[0] != [] then lines[0][0] else t[0])
  {
  }

  /** One step of the round trip below: a break-free line in front of joined lines splits off again. */
  lemma SplitJoinStep(line: string, tail: seq<string>, t: string)
    requires Terminator(t) && BreakFree(line)
    requires tail != [] ==> BreakFree(tail[0])
    requires SplitLines(JoinLines(tail, t)) == tail
    ensures SplitLines(JoinLines([line] + tail, t)) == [line] + tail
  {
    var rest := JoinLines(tail, t);
    JoinLinesCons(line, tail, t);
    if t == "\r" && rest != [] {
      JoinLinesHead(tail, t);
      if tail[0] != [] {
        assert !IsLineBreak(tail[0][0]);
      }
    }
    SplitLinesStep(line, t, rest);
  }

  /** Round trip: splitting lines joined with any single terminator gives back exactly those lines,
      blank and space-padded lines included. */
  lemma {:induction false} SplitJoinLines(lines: seq<string>, t: string)
    requires Terminator(t)
    requires forall k :: 0 <= k < |lines| ==> BreakFree(lines[k])
    ensures SplitLines(JoinLines(lines, t)) == lines
  {
    if lines != [] {
      var tail := lines[1..];
      assert forall k :: 0 <= k < |tail| ==> tail[k] == lines[k + 1];
      SplitJoinLines(tail, t);
      SplitJoinStep(lines[0], tail, t);
      assert [lines[0]] + tail == lines;
    }
  }

  /** Each line followed by its own terminator ts[i]; an empty last terminator leaves the
      last line unterminated, as a browser submits a text box. */
  function JoinEach(lines: seq<string>, ts: seq<string>): (s: string)
    requires |ts| == |lines|
    ensures lines == [] ==> s == []
  {
    if lines == [] then [] else lines[0] + ts[0] + JoinEach(lines[1..], ts[1..])
  }

  /** The lines and terminators of a text box that `splitlines` reads back as those lines:
      boundary-free lines, every line but a non-empty last one followed by a terminator, and
      no "\r" that an empty line and a "\n" turn into one "\r\n" boundary. */
  ghost predicate WellTerminated(lines: seq<string>, ts: seq<string>) {
    && |ts| == |lines|
    && (forall i :: 0 <= i < |lines| ==> BreakFree(lines[i]))
    && (forall i :: 0 <= i < |lines| - 1 ==> Terminator(ts[i]))
    && (lines != [] ==> Terminator(ts[|lines| - 1]) || (ts[|lines| - 1] == [] && lines[|lines| - 1] != []))
    && (forall i :: 0 <= i < |lines| - 1 && ts[i] == "\r" && lines[i + 1] == [] ==> ts[i + 1] != "\n")
  }

  lemma WellTerminatedTail(lines: seq<string>, ts: seq<string>)
    requires WellTerminated(lines, ts) && lines != []
    ensures WellTerminated(lines[1..], ts[1..])
  {
    var tl, tt := lines[1..], ts[1..];
    assert forall i :: 0 <= i < |tl| ==> tl[i] == lines[i + 1] && tt[i] == ts[i + 1];
  }

  /** Only the terminator "\n" starts with '\n'. */
  lemma TerminatorHead(t: string)
    requires Terminator(t) && t != "\n"
    ensures t[0] != '\n'
  {
    if t != "\r\n" {
      assert t == [t[0]];
    }
  }

  /** The first character of a joined text that starts with an empty line is its terminator's. */
  lemma JoinEachHead(lines: seq<string>, ts: seq<string>)
    requires |ts| == |lines| && lines != [] && lines[0] == [] && ts[0] != []
    ensures JoinEach(lines, ts) != [] && JoinEach(lines, ts)[0] == ts[0][0]
  {
    var t, r := ts[0], JoinEach(lines[1..], ts[1..]);
    assert JoinEach(lines, ts) == lines[0] + t + r;
    assert lines[0] + t == t;
    assert (t + r)[0] == t[0];
  }

  /** A terminator "\r" is never followed by '\n' in a well-terminated text. */
  lemma NoNewlineAfterReturn(lines: seq<string>, ts: seq<string>)
    requires WellTerminated(lines, ts) && |lines| >= 2 && ts[0] == "\r"
    ensures JoinEach(lines[1..], ts[1..])[0] != '\n'
  {
    var tl, tt := lines[1..], ts[1..];
    assert tl[0] == lines[1] && tt[0] == ts[1];
    if lines[1] != [] {
      assert !IsLineBreak(lines[1][0]);
      assert JoinEach(tl, tt) == lines[1] + ts[1] + JoinEach(tl[1..], tt[1..]);
    } else {
      assert ts[1] != "\n";
      assert Terminator(ts[1]);
      TerminatorHead(ts[1]);
      JoinEachHead(tl, tt);
    }
  }

  /** Round trip for any text box: splitting boundary-free lines, each with its own
      terminator and the last possibly without one, gives back exactly those lines. */
  lemma {:induction false} SplitJoinEach(lines: seq<string>, ts: seq<string>)
    requires WellTerminated(lines, ts)
    ensures SplitLines(JoinEach(lines, ts)) == lines
  {
    if lines != [] {
      var tl, tt := lines[1..], ts[1..];
      WellTerminatedTail(lines, ts);
      SplitJoinEach(tl, tt);
      var rest := JoinEach(tl, tt);
      assert BreakFree(lines[0]);
      if ts[0] == [] {
        assert |lines| == 1;
        SplitLinesSingle(lines[0]);
        assert JoinEach(lines, ts) == lines[0];
      } else {
        assert Terminator(ts[0]);
        if |lines| >= 2 && ts[0] == "\r" {
          NoNewlineAfterReturn(lines, ts);
        }
        SplitLinesStep(lines[0], ts[0], rest);
        assert [lines[0]] + tl == lines;
      }
    }
  }

  /** s with a final "\n" added unless it is empty or already ends with one. */
  function Terminated(s: string): (r: string)
    ensures r == [] || r[|r| - 1] == '\n'
    ensures s <= r && |r| <= |s| + 1
  {
    if s == [] || s[|s| - 1] == '\n' then s else s + "\n"
  }

  /** Adding a line in front of a text does not change whether it ends with a newline. */
  lemma TerminatedCons(line: string, rest: string)
    ensures line + "\n" + Terminated(rest) == Terminated(line + "\n" + rest)
  {
    var s := line + "\n" + rest;
    if rest != [] {
      assert s[|s| - 1] == rest[|rest| - 1];
    }
  }

  /** The only line boundary s uses is "\n". */
  ghost predicate OnlyNewlines(s: string) {
    forall k :: 0 <= k < |s| && IsLineBreak(s[k]) ==> s[k] == '\n'
  }

  /** At a "\n" boundary, splitlines cuts off the line before it and continues after it. */
  lemma SplitLinesAtNewline(s: string, i: nat)
    requires FindBreak(s) == Some(i) && s[i] == '\n'
    ensures SplitLines(s) == [s[..i]] + SplitLines(s[i + 1..])
  {
    assert BreakWidth(s, i) == 1;
  }

  /** The part of a text after some position uses no other boundary than the text does. */
  lemma OnlyNewlinesSuffix(s: string, i: nat)
    requires OnlyNewlines(s) && i <= |s|
    ensures OnlyNewlines(s[i..])
  {
    var rest := s[i..];
    forall k | 0 <= k < |rest| && IsLineBreak(rest[k])
      ensures rest[k] == '\n'
    {
      assert rest[k] == s[i + k];
    }
  }

  /** A single line with no boundary joins to itself plus "\n". */
  lemma JoinSplitSingle(s: string)
    requires s != [] && BreakFree(s)
    ensures JoinLines(SplitLines(s), "\n") == Terminated(s)
  {
    SplitLinesSingle(s);
    assert !IsLineBreak(s[|s| - 1]);
    JoinLinesCons(s, [], "\n");
  }

  /** A text is the part before its i-th character, that character, and the part after. */
  lemma SplitAround(s: string, i: nat)
    requires i < |s|
    ensures s == s[..i] + [s[i]] + s[i + 1..]
  {
  }

  /** Putting a line and "\n" in front of a joined text keeps it the terminated form. */
  lemma JoinTerminatedCons(line: string, tail: seq<string>, rest: string)
    requires JoinLines(tail, "\n") == Terminated(rest)
    ensures JoinLines([line] + tail, "\n") == Terminated(line + "\n" + rest)
  {
    JoinLinesCons(line, tail, "\n");
    TerminatedCons(line, rest);
  }

  /** One step of the round trip below: the first line and its "\n" come back in front. */
  lemma JoinSplitStep(s: string, i: nat)
    requires FindBreak(s) == Some(i) && s[i] == '\n'
    requires JoinLines(SplitLines(s[i + 1..]), "\n") == Terminated(s[i + 1..])
    ensures JoinLines(SplitLines(s), "\n") == Terminated(s)
  {
    SplitAround(s, i);
    SplitLinesAtNewline(s, i);
    JoinTerminatedCons(s[..i], SplitLines(s[i + 1..]), s[i + 1..]);
  }

  /** Round trip the other way for text whose only boundaries are "\n": joining its lines
      with "\n" rebuilds the text, plus a final "\n" if it lacked one. */
  lemma {:induction false} JoinSplitLines(s: string)
    requires OnlyNewlines(s)
    ensures JoinLines(SplitLines(s), "\n") == Terminated(s)
    decreases |s|
  {
    if s != [] {
      match FindBreak(s)
      case None =>
        JoinSplitSingle(s);
      case Some(i) =>
        OnlyNewlinesSuffix(s, i + 1);
        JoinSplitLines(s[i + 1..]);
        JoinSplitStep(s, i);
    }
  }
}
