/**
  The table of contents beside the editor: `extractHeadings` reads the
  markdown line by line, keeps the lines that match `^(#{1,6})\s+(.+)$`,
  and gives each a level, its trimmed text and the id
  `heading-<line index>-<heading count>`.
 */
module Toc {
  import opened Wrappers
  import opened Strings

  datatype TocItem = TocItem(id: string, level: nat, text: string)

  function Hashes(n: nat): (r: string)
    ensures |r| == n && forall i :: 0 <= i < n ==> r[i] == '#'
  {
    seq(n, _ => '#')
  }

  /** Length of the run of `#` the line starts with. */
  function HashRun(s: string): (k: nat)
    ensures k <= |s| && (forall i :: 0 <= i < k ==> s[i] == '#') && (k < |s| ==> s[k] != '#')
  {
    if s != [] && s[0] == '#' then 1 + HashRun(s[1..]) else 0
  }

  /** Length of the run of white space the text starts with. */
  function SpaceRun(s: string): (k: nat)
    ensures k <= |s| && (forall i :: 0 <= i < k ==> IsSpace(s[i])) && (k < |s| ==> !IsSpace(s[k]))
  {
    if s != [] && IsSpace(s[0]) then 1 + SpaceRun(s[1..]) else 0
  }

  /**
    The match of `^(#{1,6})\s+(.+)$` against one line: the level (the
    length of the first group) and the second group. `\s+` is greedy, so the
    second group starts after the whole run of white space, unless nothing
    but white space is left; then it is the last character, which `.` must
    accept.
   */
  function MatchHeading(line: string): Option<(nat, string)> {
    var h := HashRun(line);
    if h == 0 || h > 6 then None
    else
      var r := line[h..];
      var w := SpaceRun(r);
      if w == 0 then None
      else if w < |r| then (if NoLineTerminator(r[w..]) then Some((h, r[w..])) else None)
      else if w >= 2 && !IsLineTerminator(r[w - 1]) then Some((h, r[w - 1..]))
      else None
  }

  function HeadingId(lineIndex: nat, index: nat): string {
    "heading-" + NatToString(lineIndex) + "-" + NatToString(index)
  }

  /** The entry for a matching line, the `index`-th heading found. */
  function ItemAt(line: string, lineIndex: nat, index: nat): TocItem
    requires MatchHeading(line).Some?
  {
    var (level, text) := MatchHeading(line).value;
    TocItem(HeadingId(lineIndex, index), level, Trim(text))
  }

  /** The indices of the matching lines, in order. */
  function HeadingLines(lines: seq<string>): seq<nat>
    decreases |lines|
  {
    if lines == [] then []
    else
      var n := |lines| - 1;
      HeadingLines(lines[..n]) + (if MatchHeading(lines[n]).Some? then [n] else [])
  }

  /** `extractHeadings` over the lines: the entries of the matching lines, counted from 0. */
  function Headings(lines: seq<string>): (r: seq<TocItem>)
    ensures |r| == |HeadingLines(lines)|
  {
    var hl := HeadingLines(lines);
    HeadingLinesSound(lines);
    seq(|hl|, k requires 0 <= k < |hl| => ItemAt(lines[hl[k]], hl[k], k))
  }

  /** `extractHeadings(markdown)`: the loop over `split('\n')` with its running count. */
  method ExtractHeadings(markdown: string) returns (headings: seq<TocItem>)
    ensures headings == Headings(Split(markdown, '\n'))
  {
    var lines := Split(markdown, '\n');
    headings := [];
    var index := 0;
    var lineIndex := 0;
    while lineIndex < |lines|
      invariant 0 <= lineIndex <= |lines|
      invariant headings == Headings(lines[..lineIndex])
      invariant index == |headings|
    {
      var line := lines[lineIndex];
      HeadingsStep(lines, lineIndex);
      var m := MatchHeading(line);
      if m.Some? {
        var level := m.value.0;
        var text := Trim(m.value.1);
        var id := HeadingId(lineIndex, index);
        assert TocItem(id, level, text) == ItemAt(line, lineIndex, index);
        index := index + 1;
        headings := headings + [TocItem(id, level, text)];
      }
      lineIndex := lineIndex + 1;
    }
    assert lines[..|lines|] == lines;
  }

  // ---------------------------------------------------------------------------
  // The matcher

  /** A match has a level from 1 to 6 and a non-empty second group free of line breaks, after white space. */
  lemma MatchShape(line: string) returns (ws: string)
    requires MatchHeading(line).Some?
    ensures var (level, g) := MatchHeading(line).value;
      1 <= level <= 6 && g != [] && NoLineTerminator(g) &&
      ws != [] && AllSpace(ws) && line == Hashes(level) + ws + g
  {
    var h, r, w := MatchParts(line);
    var g := MatchHeading(line).value.1;
    ws := if w < |r| then r[..w] else r[..w - 1];
    assert r == ws + g;
    assert AllSpace(ws) by {
      forall i | 0 <= i < |ws| ensures IsSpace(ws[i]) { assert ws[i] == r[i]; }
    }
    HashesPrefix(line, h);
    Assoc(Hashes(h), ws, g);
  }

  lemma Assoc(a: string, b: string, c: string)
    ensures a + b + c == a + (b + c)
  {
  }

  /** The pieces of a match: the run of `#`, what follows it, and the run of white space after that. */
  lemma MatchParts(line: string) returns (h: nat, r: string, w: nat)
    requires MatchHeading(line).Some?
    ensures h == MatchHeading(line).value.0 && 1 <= h <= 6 && h <= |line| && r == line[h..]
    ensures w == SpaceRun(r) && 0 < w <= |r| && (w == |r| ==> w >= 2 && !IsLineTerminator(r[w - 1]))
    ensures MatchHeading(line).value.1 == (if w < |r| then r[w..] else r[w - 1..])
    ensures forall i :: 0 <= i < h ==> line[i] == '#'
    ensures forall i :: 0 <= i < w ==> IsSpace(r[i])
    ensures MatchHeading(line).value.1 != [] && NoLineTerminator(MatchHeading(line).value.1)
  {
    h := HashRun(line);
    r := line[h..];
    w := SpaceRun(r);
  }

  lemma HashesPrefix(line: string, h: nat)
    requires h <= |line| && forall i :: 0 <= i < h ==> line[i] == '#'
    ensures line == Hashes(h) + line[h..]
  {
    assert line[..h] == Hashes(h);
    assert line == line[..h] + line[h..];
  }

  /**
    Conversely, one to six `#`, white space, then text free of line
    breaks that does not start with white space is a heading of that
    level whose second group is that text.
   */
  lemma HeadingMatches(level: nat, ws: string, g: string)
    requires 1 <= level <= 6 && ws != [] && AllSpace(ws)
    requires g != [] && NoLineTerminator(g) && !IsSpace(g[0])
    ensures MatchHeading(Hashes(level) + ws + g) == Some((level, g))
  {
    var line := Hashes(level) + ws + g;
    assert !IsSpace('#');
    assert line[level] == ws[0];
    HashRunIs(line, level);
    var r := line[level..];
    assert r == ws + g;
    SpaceRunIs(r, |ws|);
    assert r[|ws|..] == g;
  }

  lemma {:induction false} HashRunIs(s: string, k: nat)
    requires k <= |s| && (forall i :: 0 <= i < k ==> s[i] == '#') && (k < |s| ==> s[k] != '#')
    ensures HashRun(s) == k
  {
    if k > 0 {
      HashRunIs(s[1..], k - 1);
    }
  }

  lemma {:induction false} SpaceRunIs(s: string, k: nat)
    requires k <= |s| && (forall i :: 0 <= i < k ==> IsSpace(s[i])) && (k < |s| ==> !IsSpace(s[k]))
    ensures SpaceRun(s) == k
  {
    if k > 0 {
      SpaceRunIs(s[1..], k - 1);
    }
  }

  /** Seven or more `#` are never a heading. */
  lemma SevenHashesNone(rest: string)
    ensures MatchHeading(Hashes(7) + rest) == None
  {
    var line := Hashes(7) + rest;
    HashRunAtLeast(line, 7);
  }

  lemma {:induction false} HashRunAtLeast(s: string, k: nat)
    requires k <= |s| && forall i :: 0 <= i < k ==> s[i] == '#'
    ensures HashRun(s) >= k
  {
    if k > 0 {
      HashRunAtLeast(s[1..], k - 1);
    }
  }

  // ---------------------------------------------------------------------------
  // The scan

  lemma HeadingLinesStep(lines: seq<string>, i: nat)
    requires i < |lines|
    ensures HeadingLines(lines[..i + 1]) ==
      HeadingLines(lines[..i]) + (if MatchHeading(lines[i]).Some? then [i] else [])
  {
    var p := lines[..i + 1];
    assert p[..i] == lines[..i];
  }

  lemma HeadingsStep(lines: seq<string>, i: nat)
    requires i < |lines|
    ensures Headings(lines[..i + 1]) == Headings(lines[..i]) +
      (if MatchHeading(lines[i]).Some? then [ItemAt(lines[i], i, |Headings(lines[..i])|)] else [])
  {
    var p := lines[..i + 1];
    var q := lines[..i];
    HeadingLinesStep(lines, i);
    HeadingLinesSound(q);
    HeadingLinesSound(p);
    var hq := HeadingLines(q);
    var a := Headings(p);
    var b := Headings(q);
    forall k | 0 <= k < |hq| ensures a[k] == b[k] {
      assert p[hq[k]] == q[hq[k]];
    }
    var x := if MatchHeading(lines[i]).Some? then [ItemAt(lines[i], i, |b|)] else [];
    if MatchHeading(lines[i]).Some? {
      assert a[|b|] == ItemAt(p[i], i, |b|);
    }
    ConcatBy(a, b, x);
  }

  /** Two sequences agree with a concatenation when they agree position by position. */
  lemma ConcatBy<T>(a: seq<T>, b: seq<T>, x: seq<T>)
    requires |a| == |b| + |x|
    requires forall k :: 0 <= k < |b| ==> a[k] == b[k]
    requires forall k :: 0 <= k < |x| ==> a[|b| + k] == x[k]
    ensures a == b + x
  {
  }

  /** The matching lines, each once and in increasing order, and no other line. */
  lemma HeadingLinesSound(lines: seq<string>)
    ensures forall k :: 0 <= k < |HeadingLines(lines)| ==>
      HeadingLines(lines)[k] < |lines| && MatchHeading(lines[HeadingLines(lines)[k]]).Some?
    ensures forall j, k :: 0 <= j < k < |HeadingLines(lines)| ==> HeadingLines(lines)[j] < HeadingLines(lines)[k]
    ensures forall n :: 0 <= n < |lines| && MatchHeading(lines[n]).Some? ==> n in HeadingLines(lines)
  {
    HeadingLinesMatch(lines);
    HeadingLinesSorted(lines);
    HeadingLinesComplete(lines);
  }

  lemma {:induction false} HeadingLinesMatch(lines: seq<string>)
    ensures forall k :: 0 <= k < |HeadingLines(lines)| ==>
      HeadingLines(lines)[k] < |lines| && MatchHeading(lines[HeadingLines(lines)[k]]).Some?
    decreases |lines|
  {
    if lines != [] {
      var n := |lines| - 1;
      var p := lines[..n];
      HeadingLinesMatch(p);
      var hp := HeadingLines(p);
      var x := if MatchHeading(lines[n]).Some? then [n] else [];
      assert HeadingLines(lines) == hp + x;
      forall k | 0 <= k < |hp| ensures lines[hp[k]] == p[hp[k]] { }
    }
  }

  lemma {:induction false} HeadingLinesSorted(lines: seq<string>)
    ensures forall k :: 0 <= k < |HeadingLines(lines)| ==> HeadingLines(lines)[k] < |lines|
    ensures forall j, k :: 0 <= j < k < |HeadingLines(lines)| ==> HeadingLines(lines)[j] < HeadingLines(lines)[k]
    decreases |lines|
  {
    if lines != [] {
      var n := |lines| - 1;
      var p := lines[..n];
      HeadingLinesSorted(p);
      var hp := HeadingLines(p);
      var x := if MatchHeading(lines[n]).Some? then [n] else [];
      assert HeadingLines(lines) == hp + x;
    }
  }

  lemma {:induction false} HeadingLinesComplete(lines: seq<string>)
    ensures forall n :: 0 <= n < |lines| && MatchHeading(lines[n]).Some? ==> n in HeadingLines(lines)
    decreases |lines|
  {
    if lines != [] {
      var n := |lines| - 1;
      var p := lines[..n];
      HeadingLinesComplete(p);
      var hp := HeadingLines(p);
      var x := if MatchHeading(lines[n]).Some? then [n] else [];
      assert HeadingLines(lines) == hp + x;
      forall m | 0 <= m < n && MatchHeading(lines[m]).Some? ensures m in HeadingLines(lines) {
        assert lines[m] == p[m];
      }
    }
  }

  /** Every entry has a level from 1 to 6: the number of `#` its line starts with. */
  lemma HeadingsLevels(lines: seq<string>)
    ensures forall k :: 0 <= k < |Headings(lines)| ==> 1 <= Headings(lines)[k].level <= 6
    ensures forall k :: 0 <= k < |Headings(lines)| ==>
      HeadingLines(lines)[k] < |lines| && Headings(lines)[k].level == HashRun(lines[HeadingLines(lines)[k]])
  {
    HeadingLinesSound(lines);
    var hl := HeadingLines(lines);
    forall k | 0 <= k < |hl| ensures 1 <= Headings(lines)[k].level <= 6 {
      var _ := MatchShape(lines[hl[k]]);
    }
  }

  /** There are no entries exactly when no line is a heading; then nothing is rendered. */
  lemma NoHeadingsIff(lines: seq<string>)
    ensures Headings(lines) == [] <==> forall n :: 0 <= n < |lines| ==> MatchHeading(lines[n]).None?
  {
    HeadingLinesSound(lines);
    var hl := HeadingLines(lines);
    if hl != [] {
      assert MatchHeading(lines[hl[0]]).Some?;
    }
  }

  // ---------------------------------------------------------------------------
  // Distinct ids

  lemma {:induction false} NatToStringInjective(m: nat, n: nat)
    ensures NatToString(m) == NatToString(n) ==> m == n
    decreases m
  {
    if NatToString(m) == NatToString(n) && m >= 10 && n >= 10 {
      var s := NatToString(m);
      assert NatToString(m / 10) == s[..|s| - 1] == NatToString(n / 10);
      NatToStringInjective(m / 10, n / 10);
      assert DigitChar(m % 10) == DigitChar(n % 10);
    }
  }

  lemma IdText(a: nat, b: nat)
    ensures HeadingId(a, b) == "heading-" + (NatToString(a) + "-" + NatToString(b))
    ensures |"heading-"| == 8
  {
  }

  /** The two numbers of an id can be read back from it. */
  lemma HeadingIdInjective(a: nat, b: nat, c: nat, d: nat)
    ensures HeadingId(a, b) == HeadingId(c, d) ==> a == c && b == d
  {
    IdText(a, b);
    IdText(c, d);
    if HeadingId(a, b) == HeadingId(c, d) {
      var t1 := NatToString(a) + "-" + NatToString(b);
      var t2 := NatToString(c) + "-" + NatToString(d);
      assert t1 == HeadingId(a, b)[8..];
      assert t2 == HeadingId(c, d)[8..];
      SplitAtDash(NatToString(a), NatToString(b), NatToString(c), NatToString(d));
      NatToStringInjective(a, c);
      NatToStringInjective(b, d);
    }
  }

  /** Text of digits, a dash and more text splits back at its first dash. */
  lemma SplitAtDash(x: string, y: string, x2: string, y2: string)
    requires forall i :: 0 <= i < |x| ==> IsDigit(x[i])
    requires forall i :: 0 <= i < |x2| ==> IsDigit(x2[i])
    ensures x + "-" + y == x2 + "-" + y2 ==> x == x2 && y == y2
  {
    if x + "-" + y == x2 + "-" + y2 {
      DashAfterDigits(x, y);
      DashAfterDigits(x2, y2);
      var s := x + "-" + y;
      assert x == s[..|x|];
      assert x2 == s[..|x2|];
      assert y == s[|x| + 1..];
      assert y2 == s[|x2| + 1..];
    }
  }

  lemma DashAfterDigits(x: string, y: string)
    requires forall i :: 0 <= i < |x| ==> IsDigit(x[i])
    ensures IndexOfChar(x + "-" + y, '-') == |x|
  {
    var s := x + "-" + y;
    assert forall i :: 0 <= i < |x| ==> s[i] == x[i];
    assert s[|x|] == '-';
  }

  /** No two entries share an id. */
  lemma HeadingIdsDistinct(lines: seq<string>)
    ensures forall j, k :: 0 <= j < k < |Headings(lines)| ==> Headings(lines)[j].id != Headings(lines)[k].id
  {
    var hs := Headings(lines);
    var hl := HeadingLines(lines);
    forall j, k | 0 <= j < k < |hs| ensures hs[j].id != hs[k].id {
      HeadingIdInjective(hl[j], j, hl[k], k);
    }
  }
}
