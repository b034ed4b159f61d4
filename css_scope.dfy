/**
  Selector scoping: the `css.replace(/([^{}]+)\{/g, ...)` rewrite that puts
  `.bytemd-preview .markdown-body ` in front of each selector, once as the
  style injector applies it to a stored template and once as the editor
  applies it to freshly typed CSS.

  The global regular expression only matches a maximal brace-free run
  that is followed by `{` (a run followed by `}` or by the end of the text
  cannot match at any of its positions), so the text splits at its braces:
  each brace-free segment before a `{` goes through the callback, every
  other character is copied.
 */
module CssScope {
  import opened Wrappers
  import opened Strings
  import TemplateStorage
  import WechatFormatter
  import CssUnscope

  const PreviewAnchor: string := CssUnscope.PreviewAnchor
  const BodyAnchor: string := CssUnscope.BodyAnchor
  const PreviewContent: string := ".preview-content"

  /** The text put in front of a scoped selector. */
  const ScopePrefix: string := PreviewAnchor + " " + BodyAnchor + " "

  predicate IsBrace(c: char) { c == '{' || c == '}' }

  predicate BraceFree(s: string) {
    s == [] || (!IsBrace(s[0]) && BraceFree(s[1..]))
  }

  /** Where the first brace is, or the length when there is none. */
  function BraceIndex(s: string): (k: nat)
    ensures k <= |s| && BraceFree(s[..k])
    ensures k < |s| ==> IsBrace(s[k])
  {
    if s == [] || IsBrace(s[0]) then 0
    else
      var k := BraceIndex(s[1..]);
      assert s[..k + 1][1..] == s[1..][..k];
      k + 1
  }

  /** The callback: a skipped selector gives the match back, any other one is trimmed and prefixed. */
  function Rewrite(seg: string, skip: string -> bool): string {
    var t := Trim(seg);
    if skip(t) then seg + "{" else ScopePrefix + t + " {"
  }

  /** The global replace, one brace-delimited piece at a time. */
  function Scope(s: string, skip: string -> bool): string
    decreases |s|
  {
    var k := BraceIndex(s);
    if k == |s| then s
    else if k > 0 && s[k] == '{' then Rewrite(s[..k], skip) + Scope(s[k + 1..], skip)
    else s[..k + 1] + Scope(s[k + 1..], skip)
  }

  /** The style injector's callback leaves at-rules and selectors naming either anchor alone. */
  predicate InjectorSkip(t: string) {
    StartsWith(t, "@") || Contains(t, PreviewAnchor) || Contains(t, BodyAnchor)
  }

  /** The editor's callback leaves at-rules and selectors naming `.markdown-body` or `.preview-content` alone. */
  predicate EditorSkip(t: string) {
    StartsWith(t, "@") || Contains(t, BodyAnchor) || Contains(t, PreviewContent)
  }

  /** The style injector's rewrite of the trimmed template CSS: none when it is empty or already names an anchor. */
  function InjectorScope(css: string): string {
    if css != "" && !Contains(css, PreviewAnchor) && !Contains(css, BodyAnchor) then Scope(css, InjectorSkip)
    else css
  }

  /**
    The text the style injector writes into its `<style>` element: empty
    without an id, without a stored template or with empty CSS, else the
    template's CSS trimmed and scoped.
   */
  function InjectedStyle(templates: seq<TemplateStorage.Template>, templateId: Option<string>): string {
    if templateId.None? || templateId.value == "" then ""
    else match TemplateStorage.TemplateById(templates, templateId.value)
      case Some(t) => if t.css != "" then InjectorScope(Trim(t.css)) else ""
      case None => ""
  }

  /** `handleStyleChange`: CSS naming `.preview-content` or `.markdown-body` is kept verbatim, other CSS is scoped. */
  function EditorScope(style: string): string {
    if Contains(style, PreviewContent) || Contains(style, BodyAnchor) then style
    else Scope(style, EditorSkip)
  }

  // ---------------------------------------------------------------------------
  // How the rewrite reads its input

  lemma {:induction false} BraceIndexAfter(seg: string, b: char, rest: string)
    requires BraceFree(seg) && IsBrace(b)
    ensures BraceIndex(seg + [b] + rest) == |seg|
    decreases |seg|
  {
    if seg != [] {
      assert (seg + [b] + rest)[1..] == seg[1..] + [b] + rest;
      BraceIndexAfter(seg[1..], b, rest);
    }
  }

  /** A non-empty brace-free segment before `{` goes through the callback; the scan goes on after the brace. */
  lemma ScopeRule(seg: string, rest: string, skip: string -> bool)
    requires seg != [] && BraceFree(seg)
    ensures Scope(seg + "{" + rest, skip) == Rewrite(seg, skip) + Scope(rest, skip)
  {
    var s := seg + "{" + rest;
    BraceIndexAfter(seg, '{', rest);
    assert s[..|seg|] == seg;
    assert s[|seg| + 1..] == rest;
  }

  /** A segment before `}` (a declaration body) is copied as it is, and so is a `{` with nothing before it. */
  lemma ScopeBody(seg: string, b: char, rest: string, skip: string -> bool)
    requires BraceFree(seg) && (b == '}' || (b == '{' && seg == []))
    ensures Scope(seg + [b] + rest, skip) == seg + [b] + Scope(rest, skip)
  {
    var s := seg + [b] + rest;
    BraceIndexAfter(seg, b, rest);
    assert s[..|seg| + 1] == seg + [b];
    assert s[|seg| + 1..] == rest;
  }

  lemma {:induction false} BraceIndexFree(s: string)
    requires BraceFree(s)
    ensures BraceIndex(s) == |s|
    decreases |s|
  {
    if s != [] { BraceIndexFree(s[1..]); }
  }

  /** Text after the last brace is copied. */
  lemma ScopeTail(seg: string, skip: string -> bool)
    requires BraceFree(seg)
    ensures Scope(seg, skip) == seg
  {
    BraceIndexFree(seg);
  }

  // ---------------------------------------------------------------------------
  // The style injector

  /** CSS that already names either anchor is stored unchanged; so is empty CSS. */
  lemma InjectorGuard(css: string)
    ensures css == "" || Contains(css, PreviewAnchor) || Contains(css, BodyAnchor) ==> InjectorScope(css) == css
    ensures css != "" && !Contains(css, PreviewAnchor) && !Contains(css, BodyAnchor) ==>
      InjectorScope(css) == Scope(css, InjectorSkip)
  {
  }

  /** An at-rule head is given back as matched, under either callback. */
  lemma AtRulePassThrough(seg: string, rest: string)
    requires seg != [] && BraceFree(seg) && StartsWith(Trim(seg), "@")
    ensures Scope(seg + "{" + rest, InjectorSkip) == seg + "{" + Scope(rest, InjectorSkip)
    ensures Scope(seg + "{" + rest, EditorSkip) == seg + "{" + Scope(rest, EditorSkip)
  {
    ScopeRule(seg, rest, InjectorSkip);
    ScopeRule(seg, rest, EditorSkip);
  }

  /** A selector naming no anchor and not starting with `@` is trimmed and prefixed. */
  lemma InjectorScopesSelector(seg: string, rest: string)
    requires seg != [] && BraceFree(seg) && !InjectorSkip(Trim(seg))
    ensures Scope(seg + "{" + rest, InjectorSkip) == ScopePrefix + Trim(seg) + " {" + Scope(rest, InjectorSkip)
  {
    ScopeRule(seg, rest, InjectorSkip);
  }

  /** A selector already naming an anchor is given back as matched. */
  lemma InjectorKeepsAnchored(seg: string, rest: string)
    requires seg != [] && BraceFree(seg)
    requires Contains(Trim(seg), PreviewAnchor) || Contains(Trim(seg), BodyAnchor)
    ensures Scope(seg + "{" + rest, InjectorSkip) == seg + "{" + Scope(rest, InjectorSkip)
  {
    ScopeRule(seg, rest, InjectorSkip);
  }

  /**
    A declaration body is never rewritten, but a rule nested in an at-rule
    block is scoped like a top-level one: `@m{s{d}}` becomes
    `@m{.bytemd-preview .markdown-body s {d}}`.
   */
  lemma NestedRuleScoped(at: string, sel: string, body: string)
    requires at != [] && BraceFree(at) && StartsWith(Trim(at), "@")
    requires sel != [] && BraceFree(sel) && !InjectorSkip(Trim(sel))
    requires BraceFree(body)
    ensures Scope(at + "{" + sel + "{" + body + "}}", InjectorSkip) ==
      at + "{" + ScopePrefix + Trim(sel) + " {" + body + "}}"
  {
    var r2 := body + "}" + "}";
    var r1 := sel + "{" + r2;
    var t2 := Scope(r2, InjectorSkip);
    var t1 := Scope(r1, InjectorSkip);
    ClosingBraces(body);
    assert t2 == body + "}}";
    InjectorScopesSelector(sel, r2);
    assert t1 == ScopePrefix + Trim(sel) + " {" + t2;
    AtRulePassThrough(at, r1);
    NestedShape(at, sel, body);
    assert Scope(at + "{" + r1, InjectorSkip) == at + "{" + t1;
    NestedResult(at, Trim(sel), body);
  }

  lemma NestedResult(at: string, t: string, body: string)
    ensures at + "{" + (ScopePrefix + t + " {" + (body + "}}")) == at + "{" + ScopePrefix + t + " {" + body + "}}"
  {
  }

  lemma NestedShape(at: string, sel: string, body: string)
    ensures at + "{" + sel + "{" + body + "}}" == at + "{" + (sel + "{" + (body + "}" + "}"))
  {
  }

  /** A declaration body and the two braces closing a nested block are copied. */
  lemma ClosingBraces(body: string)
    requires BraceFree(body)
    ensures Scope(body + "}" + "}", InjectorSkip) == body + "}}"
  {
    ScopeBody([], '}', "", InjectorSkip);
    assert Scope("", InjectorSkip) == "";
    assert Scope("}", InjectorSkip) == "}" by { assert [] + ['}'] + "" == "}"; }
    ScopeBody(body, '}', "}", InjectorSkip);
  }

  // ---------------------------------------------------------------------------
  // Idempotence

  /** The prefix names both anchors. */
  lemma PrefixAnchors()
    ensures Contains(ScopePrefix, PreviewAnchor) && Contains(ScopePrefix, BodyAnchor)
  {
    ContainsMiddle([], PreviewAnchor, " " + BodyAnchor + " ");
    assert [] + PreviewAnchor + (" " + BodyAnchor + " ") == ScopePrefix;
    ContainsMiddle(PreviewAnchor + " ", BodyAnchor, " ");
  }

  /** Anything glued after the prefix names both anchors. */
  lemma PrefixedMarks(x: string)
    ensures Contains(ScopePrefix + x, PreviewAnchor) && Contains(ScopePrefix + x, BodyAnchor)
  {
    PrefixAnchors();
    ContainsInConcat(ScopePrefix, x, PreviewAnchor);
    ContainsInConcat(ScopePrefix, x, BodyAnchor);
  }

  /** One step of the scan: a first piece `o` of the input becomes either itself or a prefixed selector. */
  lemma ScopeStep(s: string, skip: string -> bool) returns (o: string, p: string, r: string, x: string)
    requires BraceIndex(s) < |s|
    ensures s == o + r && |r| < |s|
    ensures Scope(s, skip) == p + Scope(r, skip)
    ensures p == o || p == ScopePrefix + x
  {
    var k := BraceIndex(s);
    o := s[..k + 1];
    r := s[k + 1..];
    x := Trim(s[..k]) + " {";
    p := if k > 0 && s[k] == '{' then Rewrite(s[..k], skip) else o;
    TakeDrop(s, k + 1);
    ScopeUnfold(s, skip);
    if k > 0 && s[k] == '{' {
      TakeBrace(s, k);
      RewriteShape(s[..k], skip);
    }
  }

  lemma TakeDrop(s: string, i: nat)
    requires i <= |s|
    ensures s == s[..i] + s[i..]
  {
  }

  /** The scan at the first brace. */
  lemma ScopeUnfold(s: string, skip: string -> bool)
    requires BraceIndex(s) < |s|
    ensures var k := BraceIndex(s);
      Scope(s, skip) == (if k > 0 && s[k] == '{' then Rewrite(s[..k], skip) else s[..k + 1]) + Scope(s[k + 1..], skip)
  {
  }

  lemma TakeBrace(s: string, k: nat)
    requires k < |s| && s[k] == '{'
    ensures s[..k + 1] == s[..k] + "{"
  {
    assert s[..k + 1] == s[..k] + [s[k]];
  }

  lemma RewriteShape(seg: string, skip: string -> bool)
    ensures Rewrite(seg, skip) == seg + "{" || Rewrite(seg, skip) == ScopePrefix + (Trim(seg) + " {")
  {
  }

  /** Whenever the rewrite changes anything, its output names both anchors. */
  lemma {:induction false} ScopeMarks(s: string, skip: string -> bool)
    ensures Scope(s, skip) != s ==> Contains(Scope(s, skip), PreviewAnchor) && Contains(Scope(s, skip), BodyAnchor)
    decreases |s|
  {
    if BraceIndex(s) < |s| {
      var o, p, r, x := ScopeStep(s, skip);
      var t := Scope(r, skip);
      if p != o {
        PrefixedMarks(x);
      } else if t != r {
        ScopeMarks(r, skip);
      }
      if p != o || t != r {
        ContainsInConcat(p, t, PreviewAnchor);
        ContainsInConcat(p, t, BodyAnchor);
      }
    }
  }

  /** Scoping scoped CSS again changes nothing: rewritten CSS names `.bytemd-preview`, which the guard stops at. */
  lemma InjectorIdempotent(css: string)
    ensures InjectorScope(InjectorScope(css)) == InjectorScope(css)
  {
    ScopeMarks(css, InjectorSkip);
  }

  /** The editor's rewrite is idempotent too: rewritten CSS names `.markdown-body`. */
  lemma EditorIdempotent(style: string)
    ensures EditorScope(EditorScope(style)) == EditorScope(style)
  {
    ScopeMarks(style, EditorSkip);
  }

  // ---------------------------------------------------------------------------
  // Where the text comes from

  /**
    The injected text is the formatter's template CSS, scoped: empty for a
    missing id, template or CSS, else the trimmed CSS through the guard.
   */
  lemma InjectedIsScopedTemplateCss(templates: seq<TemplateStorage.Template>, templateId: Option<string>)
    ensures InjectedStyle(templates, templateId) == InjectorScope(WechatFormatter.TemplateCss(templates, templateId))
    ensures templateId.None? ==> InjectedStyle(templates, templateId) == ""
    ensures templateId.Some? && (forall k :: 0 <= k < |templates| ==> templates[k].id != templateId.value) ==>
      InjectedStyle(templates, templateId) == ""
  {
    WechatFormatter.TemplateCssCases(templates, templateId);
  }

  // ---------------------------------------------------------------------------
  // The editor against the injector

  /** Editor CSS naming `.preview-content` or `.markdown-body` is kept verbatim. */
  lemma EditorGuard(style: string)
    ensures Contains(style, PreviewContent) || Contains(style, BodyAnchor) ==> EditorScope(style) == style
    ensures !Contains(style, PreviewContent) && !Contains(style, BodyAnchor) ==>
      EditorScope(style) == Scope(style, EditorSkip)
  {
  }

  /**
    A selector naming only `.bytemd-preview` stops the injector but not the
    editor: the editor prefixes it a second time.
   */
  lemma PreviewAnchorAlone(seg: string, rest: string)
    requires seg != [] && BraceFree(seg) && !IsSpace(seg[0]) && !IsSpace(seg[|seg| - 1])
    requires !StartsWith(seg, "@") && Contains(seg, PreviewAnchor)
    requires !Contains(seg + "{" + rest, BodyAnchor) && !Contains(seg + "{" + rest, PreviewContent)
    ensures InjectorScope(seg + "{" + rest) == seg + "{" + rest
    ensures EditorScope(seg + "{" + rest) == ScopePrefix + seg + " {" + Scope(rest, EditorSkip)
  {
    var s := seg + "{" + rest;
    TrimOfTrimmed(seg);
    ContainsInConcat(seg, "{" + rest, PreviewAnchor);
    assert s == seg + ("{" + rest);
    if Contains(seg, BodyAnchor) { ContainsInConcat(seg, "{" + rest, BodyAnchor); }
    if Contains(seg, PreviewContent) { ContainsInConcat(seg, "{" + rest, PreviewContent); }
    ScopeRule(seg, rest, EditorSkip);
  }
}
