/**
 The ingredients parser of the add-recipe handler. The ingredients box holds one
 `name=quantity` entry per line; lines without '=' are dropped without a word, the
 line is cut at its first '=', both halves are stripped, and a later line for the
 same ingredient overwrites an earlier one.
 */
module Ingredients {
  import opened Results
  import opened Text

  /** One line of the ingredients box: the stripped text before its first '=' and the
      stripped text after it (which may itself contain '='); None for a line without '='. */
  function ParseLine(line: string): (r: Option<(string, string)>)
    ensures r.None? <==> '=' !in line
  {
    match SplitOnce(line, '=')
    case None => None
    case Some((name, qty)) => Some((Strip(name), Strip(qty)))
  }

  /** The first '=' is the one that counts: ingredient name and quantity are the stripped
      texts on either side of it, so the quantity may itself contain '='. */
  lemma ParseLineAtFirstSeparator(line: string, name: string, qty: string)
    requires line == name + "=" + qty && '=' !in name
    ensures ParseLine(line) == Some((Strip(name), Strip(qty)))
  {
    var (before, after) := SplitOnce(line, '=').value;
    assert line == before + "=" + after;
    assert forall k :: 0 <= k < |name| ==> line[k] != '=' by {
      forall k | 0 <= k < |name|
        ensures line[k] != '='
      {
        assert name[k] == line[k];
      }
    }
    assert forall k :: 0 <= k < |before| ==> line[k] != '=' by {
      forall k | 0 <= k < |before|
        ensures line[k] != '='
      {
        assert before[k] == line[k];
      }
    }
    assert line[|before|] == '=' && line[|name|] == '=';
    assert |before| == |name|;
    assert before == line[..|name|] == name;
    assert after == line[|name| + 1..] == qty;
  }

  /** A line `name = quantity` with whitespace around either part parses to the bare name
      and quantity, as long as the name side holds no '='. */
  lemma ParseLinePadded(line: string, name: string, qty: string, a: string, b: string, c: string, d: string)
    requires line == a + name + b + "=" + c + qty + d
    requires '=' !in a + name + b
    requires forall k :: 0 <= k < |a| ==> IsSpace(a[k])
    requires forall k :: 0 <= k < |b| ==> IsSpace(b[k])
    requires forall k :: 0 <= k < |c| ==> IsSpace(c[k])
    requires forall k :: 0 <= k < |d| ==> IsSpace(d[k])
    requires name != [] && !IsSpace(name[0]) && !IsSpace(name[|name| - 1])
    requires qty != [] && !IsSpace(qty[0]) && !IsSpace(qty[|qty| - 1])
    ensures ParseLine(line) == Some((name, qty))
  {
    assert line == (a + name + b) + "=" + (c + qty + d);
    ParseLineAtFirstSeparator(line, a + name + b, c + qty + d);
    StripPadded(a + name + b, a, name, b);
    StripPadded(c + qty + d, c, qty, d);
  }

  /** The line assigns the ingredient `key`. */
  ghost predicate Defines(line: string, key: string) {
    ParseLine(line).Some? && ParseLine(line).value.0 == key
  }

  /** lines[i] is the last of the lines that assigns `key`. */
  ghost predicate LastDefinition(lines: seq<string>, i: int, key: string) {
    && 0 <= i < |lines|
    && Defines(lines[i], key)
    && forall j :: i < j < |lines| ==> !Defines(lines[j], key)
  }

  /** One turn of the handler's loop: a line that parses assigns its quantity to its
      ingredient name, any other line leaves the dictionary as it is. */
  function Assign(m: map<string, string>, line: string): (m': map<string, string>)
    ensures '=' !in line ==> m' == m
  {
    match ParseLine(line)
    case None => m
    case Some((key, qty)) => m[key := qty]
  }

  /** The dictionary the handler's loop builds from the lines, in order. */
  function FromLines(lines: seq<string>): (m: map<string, string>)
    ensures |m| <= |lines|
  {
    if lines == [] then map[]
    else Assign(FromLines(lines[..|lines| - 1]), lines[|lines| - 1])
  }

  /** Reading one more line is one more turn of the loop. */
  lemma FromLinesSnoc(lines: seq<string>, line: string)
    ensures FromLines(lines + [line]) == Assign(FromLines(lines), line)
  {
    assert (lines + [line])[..|lines|] == lines;
  }

  /** Assigning on top of a union only touches the right-hand part. */
  lemma AssignUnion(m1: map<string, string>, m2: map<string, string>, line: string)
    ensures Assign(m1 + m2, line) == m1 + Assign(m2, line)
  {
    match ParseLine(line)
    case None =>
    case Some((key, qty)) =>
      UnionUpdate(m1, m2, key, qty);
  }

  /** Updating a union updates its right-hand part. */
  lemma UnionUpdate(m1: map<string, string>, m2: map<string, string>, key: string, qty: string)
    ensures (m1 + m2)[key := qty] == m1 + m2[key := qty]
  {
  }

  /** The last line of a non-empty second batch is the last line of the whole. */
  lemma AppendLast(a: seq<string>, b: seq<string>)
    requires b != []
    ensures (a + b)[..|a + b| - 1] == a + b[..|b| - 1]
    ensures (a + b)[|a + b| - 1] == b[|b| - 1]
  {
  }

  /** The ingredients dictionary built from the raw text of the ingredients box. */
  function Parse(text: string): (m: map<string, string>)
    ensures |m| <= |SplitLines(text)|
    ensures text == [] ==> m == map[]
  {
    FromLines(SplitLines(text))
  }

  /** Reading the lines in two batches: the second batch's assignments override the first's. */
  lemma {:induction false} FromLinesAppend(a: seq<string>, b: seq<string>)
    ensures FromLines(a + b) == FromLines(a) + FromLines(b)
    decreases |b|
  {
    if b == [] {
      assert a + b == a;
    } else {
      var init, last := b[..|b| - 1], b[|b| - 1];
      AppendLast(a, b);
      assert FromLines(a + b) == Assign(FromLines(a + init), last);
      FromLinesAppend(a, init);
      AssignUnion(FromLines(a), FromLines(init), last);
    }
  }

  /** A line without '=' contributes nothing, wherever it stands. */
  lemma LineWithoutSeparatorIgnored(a: seq<string>, line: string, b: seq<string>)
    requires '=' !in line
    ensures FromLines(a + [line] + b) == FromLines(a + b)
  {
    FromLinesAppend(a + [line], b);
    FromLinesAppend(a, [line]);
    FromLinesAppend(a, b);
    assert [line][..0] == [];
  }

  /** Every key of the dictionary comes from some line that assigns it. */
  lemma {:induction false} KeysComeFromLines(lines: seq<string>, key: string)
    requires key in FromLines(lines)
    ensures exists i :: 0 <= i < |lines| && Defines(lines[i], key)
    decreases |lines|
  {
    var init := lines[..|lines| - 1];
    if key in FromLines(init) {
      KeysComeFromLines(init, key);
      var i :| 0 <= i < |init| && Defines(init[i], key);
      assert init[i] == lines[i];
    } else {
      assert Defines(lines[|lines| - 1], key);
    }
  }

  /** Every line that parses puts its ingredient in the dictionary. */
  lemma {:induction false} DefinedKeysPresent(lines: seq<string>, i: int, key: string)
    requires 0 <= i < |lines| && Defines(lines[i], key)
    ensures key in FromLines(lines)
    decreases |lines|
  {
    var init := lines[..|lines| - 1];
    if i < |lines| - 1 {
      assert init[i] == lines[i];
      DefinedKeysPresent(init, i, key);
    }
  }

  /** Lines that never assign `key` leave it out of the dictionary. */
  lemma NeverDefined(lines: seq<string>, key: string)
    requires forall j :: 0 <= j < |lines| ==> !Defines(lines[j], key)
    ensures key !in FromLines(lines)
  {
    if key in FromLines(lines) {
      KeysComeFromLines(lines, key);
    }
  }

  /** A last line that assigns `key` sets its quantity. */
  lemma LastLineSets(lines: seq<string>, key: string)
    requires lines != [] && Defines(lines[|lines| - 1], key)
    ensures key in FromLines(lines)
    ensures FromLines(lines)[key] == ParseLine(lines[|lines| - 1]).value.1
  {
  }

  /** Later lines win: the dictionary holds, for each ingredient, the quantity of the
      last line that names it. */
  lemma {:induction false} LastDefinitionWins(lines: seq<string>, i: int, key: string)
    requires LastDefinition(lines, i, key)
    ensures key in FromLines(lines)
    ensures FromLines(lines)[key] == ParseLine(lines[i]).value.1
  {
    var before, after := lines[..i + 1], lines[i + 1..];
    assert lines == before + after;
    FromLinesAppend(before, after);
    assert forall j :: 0 <= j < |after| ==> after[j] == lines[i + 1 + j];
    NeverDefined(after, key);
    assert before[|before| - 1] == lines[i];
    LastLineSets(before, key);
  }

  /** The text-level form: the dictionary built from the box text is the one built from its
      lines, whichever line terminators joined them and whether or not the last line is
      terminated. */
  lemma ParseJoinedLines(lines: seq<string>, ts: seq<string>)
    requires WellTerminated(lines, ts)
    ensures Parse(JoinEach(lines, ts)) == FromLines(lines)
  {
    SplitJoinEach(lines, ts);
  }
}
