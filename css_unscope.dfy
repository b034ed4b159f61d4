/**
  The ordered chain of eight global regular-expression replacements that
  takes a template's CSS, written for the scoped preview
  (`.bytemd-preview .markdown-body ...`), back to plain selectors before the
  styles are inlined.

  Every pattern is a fixed anchor followed by `\s+`, an identifier
  (`[a-zA-Z][a-zA-Z0-9]*`) or a word (`[\w-]+`). None of these runs can give
  characters back to the atom after it (that atom starts with `.`, a letter
  or the end), so each regular expression matches exactly what the
  longest-run reading below matches. A global replace tries the pattern at
  every position from the left and resumes after each match.
 */
module CssUnscope {
  import opened Wrappers
  import opened Strings

  const PreviewName: string := "bytemd-preview"
  const BodyName: string := "markdown-body"
  /** The class selectors `.bytemd-preview` and `.markdown-body`. */
  const PreviewAnchor: string := "." + PreviewName
  const BodyAnchor: string := "." + BodyName

  predicate IsAlpha(c: char) { 'a' <= c <= 'z' || 'A' <= c <= 'Z' }
  predicate IsAlnum(c: char) { IsAlpha(c) || '0' <= c <= '9' }
  /** `[\w-]`. */
  predicate IsWordOrDash(c: char) { IsAlnum(c) || c == '_' || c == '-' }

  /** End of the longest run of characters satisfying `p` that starts at `i`. */
  function Span(s: string, i: nat, p: char -> bool): (j: nat)
    requires i <= |s|
    ensures i <= j <= |s|
    ensures forall k :: i <= k < j ==> p(s[k])
    ensures j < |s| ==> !p(s[j])
    decreases |s| - i
  {
    if i < |s| && p(s[i]) then Span(s, i + 1, p) else i
  }

  /** The eight patterns, in the order the chain applies them. */
  datatype Rule =
    | PreviewBodyDot        // \.bytemd-preview\s+\.markdown-body\.                     -> .
    | PreviewBodyTagClass   // ...\s+(tag)\s+\.([\w-]+)                                -> $1 .$2
    | PreviewBodyTagDotClass // ...\s+(tag\.[\w-]+)                                    -> $1
    | PreviewBodyTagTag     // ...\s+(tag\s+tag)                                       -> $1
    | PreviewBodySpace      // \.bytemd-preview\s+\.markdown-body\s+                   -> ''
    | PreviewSpace          // \.bytemd-preview\s+                                     -> ''
    | BodySpace             // \.markdown-body\s+                                      -> ''
    | BodyDot               // \.markdown-body\.                                       -> .

  const Chain: seq<Rule> := [PreviewBodyDot, PreviewBodyTagClass, PreviewBodyTagDotClass,
    PreviewBodyTagTag, PreviewBodySpace, PreviewSpace, BodySpace, BodyDot]

  /** Position just after `.bytemd-preview\s+\.markdown-body` at the start of `s`, if it is there. */
  function MatchPreviewBody(s: string): (r: Option<nat>)
    ensures r.Some? ==> |PreviewAnchor| + 1 + |BodyAnchor| <= r.value <= |s| && StartsWith(s, PreviewAnchor)
  {
    if StartsWith(s, PreviewAnchor) then
      var j := Span(s, |PreviewAnchor|, IsSpace);
      if j > |PreviewAnchor| && StartsWith(s[j..], BodyAnchor) then Some(j + |BodyAnchor|) else None
    else None
  }

  /** `[a-zA-Z][a-zA-Z0-9]*` at `i`: the end of the identifier, if one starts there. */
  function Ident(s: string, i: nat): (r: Option<nat>)
    requires i <= |s|
    ensures r.Some? ==> i < r.value <= |s|
  {
    if i < |s| && IsAlpha(s[i]) then Some(Span(s, i + 1, IsAlnum)) else None
  }

  /**
    The match of `rule` at the start of `s`: its length and its replacement
    text. Every match is at least one character long.
   */
  function MatchAt(rule: Rule, s: string): (r: Option<(nat, string)>)
    ensures r.Some? ==> 1 <= r.value.0 <= |s|
    ensures r.Some? ==> StartsWith(s, PreviewAnchor) || StartsWith(s, BodyAnchor)
  {
    match rule
    case PreviewSpace =>
      if StartsWith(s, PreviewAnchor) then
        var j := Span(s, |PreviewAnchor|, IsSpace);
        if j > |PreviewAnchor| then Some((j, "")) else None
      else None
    case BodySpace =>
      if StartsWith(s, BodyAnchor) then
        var j := Span(s, |BodyAnchor|, IsSpace);
        if j > |BodyAnchor| then Some((j, "")) else None
      else None
    case BodyDot =>
      if StartsWith(s, BodyAnchor) && |BodyAnchor| < |s| && s[|BodyAnchor|] == '.' then
        Some((|BodyAnchor| + 1, "."))
      else None
    case PreviewBodyDot =>
      (match MatchPreviewBody(s)
       case None => None
       case Some(k) => if k < |s| && s[k] == '.' then Some((k + 1, ".")) else None)
    case PreviewBodySpace =>
      (match MatchPreviewBody(s)
       case None => None
       case Some(k) =>
         var j := Span(s, k, IsSpace);
         if j > k then Some((j, "")) else None)
    case PreviewBodyTagClass =>
      (match MatchPreviewBody(s)
       case None => None
       case Some(k) => TagClassAfter(s, k))
    case PreviewBodyTagDotClass =>
      (match MatchPreviewBody(s)
       case None => None
       case Some(k) => TagDotClassAfter(s, k))
    case PreviewBodyTagTag =>
      (match MatchPreviewBody(s)
       case None => None
       case Some(k) => TagTagAfter(s, k))
  }

  /** `\s+([a-zA-Z][a-zA-Z0-9]*)\s+\.([\w-]+)` at `k`, replaced by `$1 .$2`. */
  function TagClassAfter(s: string, k: nat): (r: Option<(nat, string)>)
    requires k <= |s|
    ensures r.Some? ==> k < r.value.0 <= |s|
  {
    var j1 := Span(s, k, IsSpace);
    if j1 == k then None
    else match Ident(s, j1)
      case None => None
      case Some(j2) =>
        var j3 := Span(s, j2, IsSpace);
        if j3 == j2 || j3 == |s| || s[j3] != '.' then None
        else
          var j4 := Span(s, j3 + 1, IsWordOrDash);
          if j4 == j3 + 1 then None else Some((j4, s[j1..j2] + " ." + s[j3 + 1..j4]))
  }

  /** `\s+([a-zA-Z][a-zA-Z0-9]*\.[\w-]+)` at `k`, replaced by `$1`. */
  function TagDotClassAfter(s: string, k: nat): (r: Option<(nat, string)>)
    requires k <= |s|
    ensures r.Some? ==> k < r.value.0 <= |s|
  {
    var j1 := Span(s, k, IsSpace);
    if j1 == k then None
    else match Ident(s, j1)
      case None => None
      case Some(j2) =>
        if j2 == |s| || s[j2] != '.' then None
        else
          var j4 := Span(s, j2 + 1, IsWordOrDash);
          if j4 == j2 + 1 then None else Some((j4, s[j1..j4]))
  }

  /** `\s+([a-zA-Z][a-zA-Z0-9]*\s+[a-zA-Z][a-zA-Z0-9]*)` at `k`, replaced by `$1`. */
  function TagTagAfter(s: string, k: nat): (r: Option<(nat, string)>)
    requires k <= |s|
    ensures r.Some? ==> k < r.value.0 <= |s|
  {
    var j1 := Span(s, k, IsSpace);
    if j1 == k then None
    else match Ident(s, j1)
      case None => None
      case Some(j2) =>
        var j3 := Span(s, j2, IsSpace);
        if j3 == j2 then None
        else match Ident(s, j3)
          case None => None
          case Some(j4) => Some((j4, s[j1..j4]))
  }

  /** `s.replace(pattern, replacement)` with the `g` flag. */
  function ReplaceAll(rule: Rule, s: string): string
    decreases |s|
  {
    if s == [] then []
    else
      match MatchAt(rule, s)
      case Some((len, rep)) => rep + ReplaceAll(rule, s[len..])
      case None => [s[0]] + ReplaceAll(rule, s[1..])
  }

  function ApplyChain(rules: seq<Rule>, css: string): string
    decreases |rules|
  {
    if rules == [] then css else ApplyChain(rules[1..], ReplaceAll(rules[0], css))
  }

  /** The CSS handed to the inliner: the chain applied in its fixed order. */
  function Unscope(css: string): string {
    ApplyChain(Chain, css)
  }

  /** Text in which neither anchor occurs passes every replacement unchanged. */
  lemma {:induction false} ReplaceAllAnchorFree(rule: Rule, s: string)
    requires !Contains(s, PreviewAnchor) && !Contains(s, BodyAnchor)
    ensures ReplaceAll(rule, s) == s
    decreases |s|
  {
    if s != [] {
      ReplaceAllAnchorFree(rule, s[1..]);
    }
  }

  lemma {:induction false} ApplyChainAnchorFree(rules: seq<Rule>, css: string)
    requires !Contains(css, PreviewAnchor) && !Contains(css, BodyAnchor)
    ensures ApplyChain(rules, css) == css
    decreases |rules|
  {
    if rules != [] {
      ReplaceAllAnchorFree(rules[0], css);
      ApplyChainAnchorFree(rules[1..], css);
    }
  }

  /** CSS that never mentions the preview scope is inlined exactly as written. */
  lemma UnscopeAnchorFree(css: string)
    requires !Contains(css, PreviewAnchor) && !Contains(css, BodyAnchor)
    ensures Unscope(css) == css
  {
    ApplyChainAnchorFree(Chain, css);
  }

  /** The first rule: `.bytemd-preview <spaces> .markdown-body.` becomes `.`, and the scan resumes after it. */
  lemma PreviewBodyDotRewrites(ws: string, rest: string)
    requires ws != [] && AllSpace(ws)
    ensures ReplaceAll(PreviewBodyDot, PreviewAnchor + ws + BodyAnchor + "." + rest) == "." + ReplaceAll(PreviewBodyDot, rest)
  {
    var s := PreviewAnchor + ws + BodyAnchor + "." + rest;
    var j := |PreviewAnchor| + |ws| + |BodyAnchor|;
    assert s == PreviewAnchor + ws + (BodyAnchor + ("." + rest));
    PrefixMatch(ws, "." + rest);
    assert s[j] == '.';
    assert s[j + 1..] == rest;
  }

  /** A string without a dot holds no occurrence of a pattern that starts with one. */
  lemma {:induction false} NoDotNoOccurrence(s: string, x: string)
    requires x != [] && x[0] == '.'
    requires forall i :: 0 <= i < |s| ==> s[i] != '.'
    ensures !Contains(s, x)
    decreases |s|
  {
    if s != [] {
      assert !StartsWith(s, x) by {
        if |x| <= |s| { assert s[..|x|][0] == s[0]; }
      }
      NoDotNoOccurrence(s[1..], x);
    }
  }

  /** A string shorter than a pattern does not contain it. */
  lemma {:induction false} ShortNoOccurrence(s: string, x: string)
    requires |s| < |x|
    ensures !Contains(s, x)
    decreases |s|
  {
    if s != [] {
      ShortNoOccurrence(s[1..], x);
    }
  }

  lemma ConsParts(x: string, y: string)
    requires x != []
    ensures (x + y)[0] == x[0] && (x + y)[1..] == x[1..] + y && [x[0]] + (x[1..] + y) == x + y
  {
    assert (x + y)[1..] == x[1..] + y;
  }

  /** A character other than a dot starts no match and is copied. */
  lemma ReplaceAllNoDot(rule: Rule, s: string)
    requires s != [] && s[0] != '.'
    ensures ReplaceAll(rule, s) == [s[0]] + ReplaceAll(rule, s[1..])
  {
    assert !StartsWith(s, PreviewAnchor) && !StartsWith(s, BodyAnchor) by {
      assert PreviewAnchor[0] == '.' && BodyAnchor[0] == '.';
    }
  }

  /** Every rule starts with a dot, so a dot-free prefix is copied as it is. */
  lemma {:induction false} ReplaceAllDotFreePrefix(rule: Rule, x: string, y: string)
    requires forall i :: 0 <= i < |x| ==> x[i] != '.'
    ensures ReplaceAll(rule, x + y) == x + ReplaceAll(rule, y)
    decreases |x|
  {
    if x != [] {
      ConsParts(x, y);
      ReplaceAllNoDot(rule, x + y);
      ReplaceAllDotFreePrefix(rule, x[1..], y);
      ConsParts(x, ReplaceAll(rule, y));
    } else {
      assert x + y == y;
    }
  }

  /** Strings shorter than both anchors pass the whole chain unchanged. */
  lemma ShortPassesChain(rules: seq<Rule>, s: string)
    requires |s| < |BodyAnchor|
    ensures ApplyChain(rules, s) == s
  {
    ShortNoOccurrence(s, PreviewAnchor);
    ShortNoOccurrence(s, BodyAnchor);
    ApplyChainAnchorFree(rules, s);
  }

  /** The longest run of `p` over `x + y` from the start of `x` stops where `y` starts. */
  lemma {:induction false} SpanRun(pre: string, x: string, y: string, p: char -> bool)
    requires forall i :: 0 <= i < |x| ==> p(x[i])
    requires y != [] ==> !p(y[0])
    ensures Span(pre + x + y, |pre|, p) == |pre| + |x|
    decreases |x|
  {
    var s := pre + x + y;
    if x != [] {
      assert s == (pre + [x[0]]) + x[1..] + y;
      SpanRun(pre + [x[0]], x[1..], y, p);
    } else if y != [] {
      assert s[|pre|] == y[0];
    }
  }

  /** A dot-free prefix cannot hold the start of an occurrence of a pattern that starts with a dot. */
  lemma {:induction false} ContainsPastDotFree(x: string, y: string, a: string)
    requires a != [] && a[0] == '.'
    requires forall i :: 0 <= i < |x| ==> x[i] != '.'
    requires Contains(x + y, a)
    ensures Contains(y, a)
    decreases |x|
  {
    if x != [] {
      assert !StartsWith(x + y, a) by { assert (x + y)[0] == x[0]; }
      assert (x + y)[1..] == x[1..] + y;
      ContainsPastDotFree(x[1..], y, a);
    } else {
      assert x + y == y;
    }
  }

  predicate IsIdent(t: string) {
    t != [] && IsAlpha(t[0]) && forall i :: 1 <= i < |t| ==> IsAlnum(t[i])
  }

  predicate IsWord(w: string) {
    w != [] && forall i :: 0 <= i < |w| ==> IsWordOrDash(w[i])
  }

  predicate DotFree(x: string) {
    forall i :: 0 <= i < |x| ==> x[i] != '.'
  }

  lemma DotFreeConcat(a: string, b: string)
    requires DotFree(a) && DotFree(b)
    ensures DotFree(a + b)
  {
    forall i | 0 <= i < |a + b| ensures (a + b)[i] != '.' {
      if i >= |a| { assert (a + b)[i] == b[i - |a|]; }
    }
  }

  /** Spaces, identifiers and the anchors past their first character hold no dot. */
  lemma DotFreeParts(ws: string, t: string)
    requires AllSpace(ws) && (t == [] || IsIdent(t))
    ensures DotFree(ws) && DotFree(t) && DotFree(PreviewName) && DotFree(BodyName)
  {
  }

  /** `x + "." + w` with `x` dot-free and `w` short passes every rule unchanged. */
  lemma ShortTailPassesChain(rules: seq<Rule>, x: string, w: string)
    requires DotFree(x) && |w| + 1 < |BodyAnchor|
    ensures ApplyChain(rules, x + "." + w) == x + "." + w
  {
    var s := x + ("." + w);
    assert s == x + "." + w;
    ShortNoOccurrence("." + w, PreviewAnchor);
    ShortNoOccurrence("." + w, BodyAnchor);
    if Contains(s, PreviewAnchor) { ContainsPastDotFree(x, "." + w, PreviewAnchor); }
    if Contains(s, BodyAnchor) { ContainsPastDotFree(x, "." + w, BodyAnchor); }
    ApplyChainAnchorFree(rules, s);
  }

  /** `.bytemd-preview<ws0>.markdown-body<ws1><tag><ws2>.<class>`: the shape the tag-class rule targets. */
  function TagClassSelector(ws0: string, ws1: string, t: string, ws2: string, w: string): string {
    PreviewAnchor + ws0 + BodyAnchor + ws1 + t + ws2 + "." + w
  }

  predicate TagClassParts(ws0: string, ws1: string, t: string, ws2: string, w: string) {
    ws0 != [] && AllSpace(ws0) && ws1 != [] && AllSpace(ws1) && ws2 != [] && AllSpace(ws2) &&
    IsIdent(t) && IsWord(w) && |w| + 1 < |BodyAnchor|
  }

  /** Where the scope prefix of such a selector ends. */
  lemma TagClassPrefix(ws0: string, ws1: string, t: string, ws2: string, w: string)
    requires TagClassParts(ws0, ws1, t, ws2, w)
    ensures var s := TagClassSelector(ws0, ws1, t, ws2, w);
      MatchPreviewBody(s) == Some(|PreviewAnchor| + |ws0| + |BodyAnchor|) &&
      s[|PreviewAnchor| + |ws0| + |BodyAnchor|..] == ws1 + t + ws2 + "." + w
  {
    SelectorRegroup(PreviewAnchor, ws0, BodyAnchor, ws1, t, ws2, ".", w);
    PrefixMatch(ws0, ws1 + t + ws2 + "." + w);
  }

  lemma SelectorRegroup(a: string, b: string, c: string, d: string, e: string, f: string, g: string, h: string)
    ensures a + b + c + d + e + f + g + h == a + b + (c + (d + e + f + g + h))
    ensures a + b + c + d + e + f + g + h == a + b + (c + d + e + f + g + h)
  {
  }

  lemma Regroup4(a: string, b: string, c: string, d: string)
    ensures (a + b) + c + d == a + ((b + c) + d)
  {
  }

  /** The scope prefix `.bytemd-preview<ws0>.markdown-body` is matched whole, whatever follows it. */
  lemma PrefixMatch(ws0: string, tail: string)
    requires ws0 != [] && AllSpace(ws0)
    ensures var s := PreviewAnchor + ws0 + (BodyAnchor + tail);
      MatchPreviewBody(s) == Some(|PreviewAnchor| + |ws0| + |BodyAnchor|) &&
      s[|PreviewAnchor| + |ws0| + |BodyAnchor|..] == tail
  {
    var rest := BodyAnchor + tail;
    var s := PreviewAnchor + ws0 + rest;
    assert rest[0] == '.';
    SpanRun(PreviewAnchor, ws0, rest, IsSpace);
    assert s[..|PreviewAnchor|] == PreviewAnchor;
    assert s[|PreviewAnchor| + |ws0|..] == rest;
    assert rest[..|BodyAnchor|] == BodyAnchor;
    assert s == (PreviewAnchor + ws0 + BodyAnchor) + tail;
  }

  /** A dot-free text followed by `.` and a short class name passes one replacement unchanged. */
  lemma DotFreeTailFixed(rule: Rule, x: string, w: string)
    requires DotFree(x) && |w| + 1 < |BodyAnchor|
    ensures ReplaceAll(rule, x + "." + w) == x + "." + w
  {
    assert x + "." + w == x + ("." + w);
    ReplaceAllDotFreePrefix(rule, x, "." + w);
    ShortNoOccurrence("." + w, PreviewAnchor);
    ShortNoOccurrence("." + w, BodyAnchor);
    ReplaceAllAnchorFree(rule, "." + w);
  }

  /** Text starting with `.markdown-body` does not start with `.bytemd-preview`, so the first rule does not match there. */
  lemma BodyHeadNoMatch(rest: string)
    ensures MatchAt(PreviewBodyDot, BodyAnchor + rest).None?
  {
    var s := BodyAnchor + rest;
    assert s[1] == BodyName[0] == 'm';
    assert PreviewAnchor[1] == PreviewName[0] == 'b';
    assert !StartsWith(s, PreviewAnchor);
  }

  /** `.markdown-body<ws1><tag><ws2>` past its dot holds no dot. */
  lemma BodyTailDotFree(ws1: string, t: string, ws2: string)
    requires AllSpace(ws1) && IsIdent(t) && AllSpace(ws2)
    ensures DotFree(BodyName + ws1 + t + ws2)
  {
    DotFreeParts(ws1, t);
    DotFreeParts(ws2, []);
    DotFreeConcat(BodyName, ws1);
    DotFreeConcat(BodyName + ws1, t);
    DotFreeConcat(BodyName + ws1 + t, ws2);
  }

  lemma Regroup(a: string, b: string, c: string, d: string, e: string, f: string, g: string)
    ensures (a + b) + c + d + e + f + g == a + (b + c + d + e + f + g)
    ensures (a + b) + c + d + e + f + g == (a + b) + (c + d + e + f + g)
  {
  }

  lemma TailRegroup(p: string, a: string, b: string, c: string, d: string, e: string)
    ensures p + (a + b + c + d + e) == p + a + b + c + d + e
    ensures p + (a + b + c + d + e) == p + a + (b + c + d + e)
  {
  }

  /** `.markdown-body<ws1><tag><ws2>.<class>` passes the first rule unchanged. */
  lemma RuleOneBodyIdle(ws1: string, t: string, ws2: string, w: string)
    requires TagClassTail(ws1, t, ws2, w) && |w| + 1 < |BodyAnchor|
    ensures ReplaceAll(PreviewBodyDot, BodyAnchor + ws1 + t + ws2 + "." + w) == BodyAnchor + ws1 + t + ws2 + "." + w
  {
    var bt := BodyAnchor + ws1 + t + ws2 + "." + w;
    var mid := BodyName + ws1 + t + ws2;
    Regroup(".", BodyName, ws1, t, ws2, ".", w);
    assert bt == "." + (mid + "." + w);
    assert bt == BodyAnchor + (ws1 + t + ws2 + "." + w);
    BodyHeadNoMatch(ws1 + t + ws2 + "." + w);
    ReplaceAllSkip(PreviewBodyDot, bt);
    BodyTailDotFree(ws1, t, ws2);
    DotFreeTailFixed(PreviewBodyDot, mid, w);
    assert bt == [bt[0]] + bt[1..];
  }

  /** The first rule does not match at the start of such a selector. */
  lemma RuleOneNoMatch(ws0: string, ws1: string, t: string, ws2: string, w: string)
    requires TagClassParts(ws0, ws1, t, ws2, w)
    ensures MatchAt(PreviewBodyDot, TagClassSelector(ws0, ws1, t, ws2, w)).None?
  {
    var s := TagClassSelector(ws0, ws1, t, ws2, w);
    var k := |PreviewAnchor| + |ws0| + |BodyAnchor|;
    TagClassPrefix(ws0, ws1, t, ws2, w);
    assert s[k] == ws1[0];
  }

  /** Where no match starts, the first character is copied and the scan moves on. */
  lemma ReplaceAllSkip(rule: Rule, s: string)
    requires s != [] && MatchAt(rule, s).None?
    ensures ReplaceAll(rule, s) == [s[0]] + ReplaceAll(rule, s[1..])
  {
  }

  /** The selector past its leading dot is a dot-free head and the `.markdown-body` part. */
  lemma TagClassSelectorTail(ws0: string, ws1: string, t: string, ws2: string, w: string)
    requires TagClassParts(ws0, ws1, t, ws2, w)
    ensures TagClassSelector(ws0, ws1, t, ws2, w)[1..] ==
      (PreviewName + ws0) + (BodyAnchor + ws1 + t + ws2 + "." + w)
    ensures DotFree(PreviewName + ws0)
  {
    var x := BodyAnchor + ws1 + t + ws2 + "." + w;
    SelectorRegroup(PreviewAnchor, ws0, BodyAnchor, ws1, t, ws2, ".", w);
    Regroup4(".", PreviewName, ws0, x);
    assert TagClassSelector(ws0, ws1, t, ws2, w) == "." + ((PreviewName + ws0) + x);
    DotFreeParts(ws0, []);
    DotFreeConcat(PreviewName, ws0);
  }

  /** The first rule does not fire on such a selector. */
  lemma TagClassRuleOneIdle(ws0: string, ws1: string, t: string, ws2: string, w: string)
    requires TagClassParts(ws0, ws1, t, ws2, w)
    ensures var s := TagClassSelector(ws0, ws1, t, ws2, w); ReplaceAll(PreviewBodyDot, s) == s
  {
    var s := TagClassSelector(ws0, ws1, t, ws2, w);
    RuleOneNoMatch(ws0, ws1, t, ws2, w);
    ReplaceAllSkip(PreviewBodyDot, s);
    TagClassSelectorTail(ws0, ws1, t, ws2, w);
    ReplaceAllDotFreePrefix(PreviewBodyDot, PreviewName + ws0, BodyAnchor + ws1 + t + ws2 + "." + w);
    RuleOneBodyIdle(ws1, t, ws2, w);
    assert s == [s[0]] + s[1..];
  }

  /** An identifier followed by a non-alphanumeric character (or the end) is matched whole. */
  lemma IdentRun(pre: string, t: string, y: string)
    requires IsIdent(t)
    requires y != [] ==> !IsAlnum(y[0])
    ensures Ident(pre + t + y, |pre|) == Some(|pre| + |t|)
  {
    var s := pre + t + y;
    assert s[|pre|] == t[0];
    assert s == (pre + [t[0]]) + t[1..] + y;
    SpanRun(pre + [t[0]], t[1..], y, IsAlnum);
  }

  /** `TagClassAfter` read off the four boundaries of its match. */
  lemma TagClassAfterAt(s: string, k: nat, j1: nat, j2: nat, j3: nat)
    requires k < j1 < j2 < j3 && j3 + 1 < |s|
    requires Span(s, k, IsSpace) == j1 && Ident(s, j1) == Some(j2)
    requires Span(s, j2, IsSpace) == j3 && s[j3] == '.' && Span(s, j3 + 1, IsWordOrDash) == |s|
    ensures TagClassAfter(s, k) == Some((|s|, s[j1..j2] + " ." + s[j3 + 1..]))
  {
    var j4 := Span(s, j3 + 1, IsWordOrDash);
    assert j3 != j2 && j3 != |s| && j4 != j3 + 1;
    assert s[j3 + 1..j4] == s[j3 + 1..];
  }

  predicate TagClassTail(ws1: string, t: string, ws2: string, w: string) {
    ws1 != [] && AllSpace(ws1) && ws2 != [] && AllSpace(ws2) && IsIdent(t) && IsWord(w)
  }

  lemma TagClassSpan1(pre: string, ws1: string, t: string, ws2: string, w: string)
    requires TagClassTail(ws1, t, ws2, w)
    ensures Span(pre + ws1 + t + ws2 + "." + w, |pre|, IsSpace) == |pre| + |ws1|
  {
    assert pre + ws1 + t + ws2 + "." + w == pre + ws1 + (t + ws2 + "." + w);
    SpanRun(pre, ws1, t + ws2 + "." + w, IsSpace);
  }

  lemma TagClassIdent(pre: string, ws1: string, t: string, ws2: string, w: string)
    requires TagClassTail(ws1, t, ws2, w)
    ensures Ident(pre + ws1 + t + ws2 + "." + w, |pre| + |ws1|) == Some(|pre| + |ws1| + |t|)
  {
    assert pre + ws1 + t + ws2 + "." + w == (pre + ws1) + t + (ws2 + "." + w);
    IdentRun(pre + ws1, t, ws2 + "." + w);
  }

  lemma TagClassSpan2(pre: string, ws1: string, t: string, ws2: string, w: string)
    requires TagClassTail(ws1, t, ws2, w)
    ensures Span(pre + ws1 + t + ws2 + "." + w, |pre| + |ws1| + |t|, IsSpace) == |pre| + |ws1| + |t| + |ws2|
  {
    assert pre + ws1 + t + ws2 + "." + w == (pre + ws1 + t) + ws2 + ("." + w);
    SpanRun(pre + ws1 + t, ws2, "." + w, IsSpace);
  }

  lemma TagClassSpan3(pre: string, ws1: string, t: string, ws2: string, w: string)
    requires TagClassTail(ws1, t, ws2, w)
    ensures var s := pre + ws1 + t + ws2 + "." + w; var j3 := |pre| + |ws1| + |t| + |ws2|;
      s[j3] == '.' && Span(s, j3 + 1, IsWordOrDash) == |s| && s[j3 + 1..] == w
  {
    assert pre + ws1 + t + ws2 + "." + w == (pre + ws1 + t + ws2 + ".") + w + [];
    SpanRun(pre + ws1 + t + ws2 + ".", w, [], IsWordOrDash);
  }

  /** `\s+tag\s+\.class` right after `pre` is matched up to the end and replaced by `tag .class`. */
  lemma TagClassAfterParts(pre: string, ws1: string, t: string, ws2: string, w: string)
    requires TagClassTail(ws1, t, ws2, w)
    ensures var s := pre + ws1 + t + ws2 + "." + w;
      TagClassAfter(s, |pre|) == Some((|s|, t + " ." + w))
  {
    var s := pre + ws1 + t + ws2 + "." + w;
    var j1 := |pre| + |ws1|;
    var j2 := j1 + |t|;
    var j3 := j2 + |ws2|;
    TagClassSpan1(pre, ws1, t, ws2, w);
    TagClassIdent(pre, ws1, t, ws2, w);
    TagClassSpan2(pre, ws1, t, ws2, w);
    TagClassSpan3(pre, ws1, t, ws2, w);
    MidRegroup(pre, ws1, t, ws2, ".", w);
    SliceMiddle(pre + ws1, t, ws2 + "." + w);
    TagClassAfterAt(s, |pre|, j1, j2, j3);
  }

  lemma MidRegroup(p: string, a: string, t: string, b: string, d: string, w: string)
    ensures p + a + t + b + d + w == (p + a) + t + (b + d + w)
  {
  }

  lemma SliceMiddle(a: string, b: string, c: string)
    ensures (a + b + c)[|a|..|a| + |b|] == b
  {
  }

  /** The tag-class rule rewrites such a selector, joining tag and class with exactly one space. */
  lemma TagClassRewrite(ws0: string, ws1: string, t: string, ws2: string, w: string)
    requires TagClassParts(ws0, ws1, t, ws2, w)
    ensures ReplaceAll(PreviewBodyTagClass, TagClassSelector(ws0, ws1, t, ws2, w)) == t + " ." + w
  {
    var s := TagClassSelector(ws0, ws1, t, ws2, w);
    var k := |PreviewAnchor| + |ws0| + |BodyAnchor|;
    TagClassPrefix(ws0, ws1, t, ws2, w);
    TagClassAfterSelector(ws0, ws1, t, ws2, w);
    TagClassMatch(s, k);
    ReplaceAllWhole(PreviewBodyTagClass, s, t + " ." + w);
  }

  /** Past the scope prefix, the tag-class pattern takes the rest of such a selector. */
  lemma TagClassAfterSelector(ws0: string, ws1: string, t: string, ws2: string, w: string)
    requires TagClassParts(ws0, ws1, t, ws2, w)
    ensures var s := TagClassSelector(ws0, ws1, t, ws2, w);
      TagClassAfter(s, |PreviewAnchor| + |ws0| + |BodyAnchor|) == Some((|s|, t + " ." + w))
  {
    TagClassAfterParts(PreviewAnchor + ws0 + BodyAnchor, ws1, t, ws2, w);
  }

  /** After the scope prefix, the tag-class rule's match is `TagClassAfter`'s. */
  lemma TagClassMatch(s: string, k: nat)
    requires MatchPreviewBody(s) == Some(k)
    ensures MatchAt(PreviewBodyTagClass, s) == TagClassAfter(s, k)
  {
  }

  /** A match covering the whole text leaves only its replacement. */
  lemma ReplaceAllWhole(rule: Rule, s: string, rep: string)
    requires MatchAt(rule, s) == Some((|s|, rep))
    ensures ReplaceAll(rule, s) == rep
  {
    assert s[|s|..] == [];
  }

  /** The generic prefix strip keeps the original spacing between tag and class. */
  lemma TagClassGenericStrip(ws0: string, ws1: string, t: string, ws2: string, w: string)
    requires TagClassParts(ws0, ws1, t, ws2, w)
    ensures ReplaceAll(PreviewBodySpace, TagClassSelector(ws0, ws1, t, ws2, w)) == t + ws2 + "." + w
  {
    var s := TagClassSelector(ws0, ws1, t, ws2, w);
    var pre := PreviewAnchor + ws0 + BodyAnchor;
    var rest := t + ws2 + "." + w;
    TagClassPrefix(ws0, ws1, t, ws2, w);
    TailRegroup(pre, ws1, t, ws2, ".", w);
    SpanRun(pre, ws1, rest, IsSpace);
    assert s[|pre| + |ws1|..] == rest;
    SpaceMatch(s, |pre|);
    assert DotFree(t + ws2) by {
      DotFreeParts(ws2, t);
      DotFreeConcat(t, ws2);
    }
    DotFreeTailFixed(PreviewBodySpace, t + ws2, w);
  }

  /** The generic prefix strip drops the scope prefix and the spaces after it, then goes on. */
  lemma SpaceMatch(s: string, k: nat)
    requires MatchPreviewBody(s) == Some(k) && Span(s, k, IsSpace) > k
    ensures ReplaceAll(PreviewBodySpace, s) == ReplaceAll(PreviewBodySpace, s[Span(s, k, IsSpace)..])
  {
    var j := Span(s, k, IsSpace);
    assert MatchAt(PreviewBodySpace, s) == Some((j, ""));
    ReplaceAllMatch(PreviewBodySpace, s, j, "");
  }

  /** A match at the start is replaced, and the scan resumes after it. */
  lemma ReplaceAllMatch(rule: Rule, s: string, len: nat, rep: string)
    requires MatchAt(rule, s) == Some((len, rep))
    ensures ReplaceAll(rule, s) == rep + ReplaceAll(rule, s[len..])
  {
  }

  lemma SpaceDot(t: string, w: string)
    ensures t + " ." + w == t + " " + "." + w
  {
    assert " ." == " " + ".";
  }

  /** The tag and class joined by one space differ from them joined by any other spacing. */
  lemma SpacingDiffers(t: string, ws2: string, w: string)
    requires ws2 != " " && ws2 != [] && AllSpace(ws2)
    ensures t + " ." + w != t + ws2 + "." + w
  {
    var a := t + " ." + w;
    var b := t + ws2 + "." + w;
    if |ws2| == 1 {
      assert ws2 != [' '] && ws2 == [ws2[0]];
      assert a[|t|] != b[|t|];
    } else {
      assert a[|t| + 1] == '.' && b[|t| + 1] == ws2[1];
    }
  }

  lemma ApplyChainStep(rules: seq<Rule>, css: string)
    requires rules != []
    ensures ApplyChain(rules, css) == ApplyChain(rules[1..], ReplaceAll(rules[0], css))
  {
  }

  /** Through the chain in its order, such a selector comes out as `tag .class`. */
  lemma TagClassThroughChain(ws0: string, ws1: string, t: string, ws2: string, w: string)
    requires TagClassParts(ws0, ws1, t, ws2, w)
    ensures Unscope(TagClassSelector(ws0, ws1, t, ws2, w)) == t + " ." + w
  {
    var sel := TagClassSelector(ws0, ws1, t, ws2, w);
    TagClassRuleOneIdle(ws0, ws1, t, ws2, w);
    ApplyChainStep(Chain, sel);
    TagClassRewrite(ws0, ws1, t, ws2, w);
    ApplyChainStep(Chain[1..], sel);
    assert Chain[1..][1..] == Chain[2..];
    assert DotFree(t + " ") by {
      DotFreeParts(" ", t);
      DotFreeConcat(t, " ");
    }
    ShortTailPassesChain(Chain[2..], t + " ", w);
    SpaceDot(t, w);
  }

  /** With the generic prefix strip run first, such a selector keeps its spacing. */
  lemma TagClassStripFirst(ws0: string, ws1: string, t: string, ws2: string, w: string)
    requires TagClassParts(ws0, ws1, t, ws2, w)
    ensures ApplyChain([PreviewBodySpace] + Chain, TagClassSelector(ws0, ws1, t, ws2, w)) == t + ws2 + "." + w
  {
    var sel := TagClassSelector(ws0, ws1, t, ws2, w);
    ApplyChainStep([PreviewBodySpace] + Chain, sel);
    assert ([PreviewBodySpace] + Chain)[1..] == Chain;
    TagClassGenericStrip(ws0, ws1, t, ws2, w);
    assert DotFree(t + ws2) by {
      DotFreeParts(ws2, t);
      DotFreeConcat(t, ws2);
    }
    ShortTailPassesChain(Chain, t + ws2, w);
  }

  /**
    The order is fixed and matters: on `.bytemd-preview .markdown-body p  .c`
    and every selector of that shape, the chain gives `p .c` (the tag-class
    rule joins tag and class with one space), while the generic prefix strip,
    had it run first, would keep the original spacing, which no later rule
    touches.
   */
  lemma OrderMatters(ws0: string, ws1: string, t: string, ws2: string, w: string)
    requires TagClassParts(ws0, ws1, t, ws2, w)
    ensures Unscope(TagClassSelector(ws0, ws1, t, ws2, w)) == t + " ." + w
    ensures ApplyChain([PreviewBodySpace] + Chain, TagClassSelector(ws0, ws1, t, ws2, w)) == t + ws2 + "." + w
    ensures ws2 != " " ==> t + " ." + w != t + ws2 + "." + w
  {
    TagClassThroughChain(ws0, ws1, t, ws2, w);
    TagClassStripFirst(ws0, ws1, t, ws2, w);
    if ws2 != " " { SpacingDiffers(t, ws2, w); }
  }
}
