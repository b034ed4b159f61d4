/**
  `generateWechatHtml` (wechatFormatter.ts): the CSS of the chosen template,
  the article container taken from the live preview or from `processContent`,
  the computed-style pass that copies selected properties into each
  element's `style` attribute, and the final strip of `class`, `id` and
  `data-*` attributes; also the simple selector matcher `matchesSelector`.

  The browser's CSS engine is an input: a `StyleTree` holds, for the cloned
  article, the value `getComputedStyle` reports for each property, in the
  shape of the clone's element tree. Parsing and serialising are left out:
  the fallback HTML is parsed by a parameter.
 */
module WechatFormatter {
  import opened Wrappers
  import opened Strings
  import opened Dom
  import opened Roles
  import opened Lists
  import TemplateStorage
  import HtmlGenerator

  // ---------------------------------------------------------------------------
  // matchesSelector

  /** `matchesSelector(element, selector)` for an element. */
  function MatchesSelector(n: Node, selector: string): bool
    requires n.Element?
  {
    MatchesTrimmed(n, Trim(selector))
  }

  /** The selector test once the selector is trimmed. */
  function MatchesTrimmed(n: Node, s: string): bool
    requires n.Element?
  {
    if StartsWith(s, ".") then s[1..] in n.classes
    else if StartsWith(s, "#") then GetAttr(n, "id") == s[1..]
    else if s == ToLower(n.tag) then true
    else if '.' in s then
      var parts := Split(s, '.');
      assert IndexOfChar(s, '.') < |s|;
      ToLower(n.tag) == parts[0] && parts[1] in n.classes
    else false
  }

  /** No white space at either end, so `trim()` keeps the selector as it is. */
  predicate Trimmed(s: string) {
    s == [] || (!IsSpace(s[0]) && !IsSpace(s[|s| - 1]))
  }

  lemma SelectorTrimmed(n: Node, s: string)
    requires n.Element? && Trimmed(s)
    ensures MatchesSelector(n, s) == MatchesTrimmed(n, s)
  {
    TrimOfTrimmed(s);
  }

  predicate DotFree(s: string) {
    forall i :: 0 <= i < |s| ==> s[i] != '.'
  }

  /** `.c` matches exactly the elements carrying class `c`. */
  lemma MatchesClassIff(n: Node, c: string)
    requires n.Element? && Trimmed("." + c)
    ensures MatchesSelector(n, "." + c) <==> c in n.classes
  {
    SelectorTrimmed(n, "." + c);
    assert ("." + c)[..1] == ".";
    assert ("." + c)[1..] == c;
  }

  /** `#i` matches exactly the element whose `id` is `i`. */
  lemma MatchesIdIff(n: Node, i: string)
    requires n.Element? && Trimmed("#" + i)
    ensures MatchesSelector(n, "#" + i) <==> GetAttr(n, "id") == i
  {
    SelectorTrimmed(n, "#" + i);
    assert ("#" + i)[..1] == "#";
    assert ("#" + i)[1..] == i;
  }

  /** A bare tag name matches exactly the elements with that (lower-cased) tag. */
  lemma MatchesTagIff(n: Node, t: string)
    requires n.Element? && Trimmed(t) && DotFree(t) && t != [] && t[0] != '#'
    ensures MatchesSelector(n, t) <==> t == ToLower(n.tag)
  {
    SelectorTrimmed(n, t);
    assert !StartsWith(t, ".") by { assert t[..1][0] == t[0]; }
    assert !StartsWith(t, "#") by { assert t[..1][0] == t[0]; }
    assert '.' !in t;
  }

  /** A tag name has no dot, so neither has its lower-case form. */
  lemma LowerDotFree(t: string)
    requires DotFree(t)
    ensures DotFree(ToLower(t))
  {
  }

  lemma SplitTagClass(t: string, c: string)
    requires DotFree(t) && DotFree(c)
    ensures Split(t + "." + c, '.') == [t, c]
  {
    var s := t + "." + c;
    assert forall i :: 0 <= i < |t| ==> s[i] == t[i];
    assert s[|t|] == '.';
    assert IndexOfChar(s, '.') == |t|;
    assert s[..|t|] == t;
    assert s[|t| + 1..] == c;
    assert IndexOfChar(c, '.') == |c|;
  }

  /** `t.c` matches exactly the elements with tag `t` carrying class `c`. */
  lemma MatchesTagClassIff(n: Node, t: string, c: string)
    requires n.Element? && DotFree(n.tag)
    requires Trimmed(t + "." + c) && DotFree(t) && DotFree(c) && t != [] && t[0] != '#'
    ensures MatchesSelector(n, t + "." + c) <==> ToLower(n.tag) == t && c in n.classes
  {
    var s := t + "." + c;
    SelectorTrimmed(n, s);
    assert s[0] == t[0];
    assert !StartsWith(s, ".") by { assert s[..1][0] == s[0]; }
    assert !StartsWith(s, "#") by { assert s[..1][0] == s[0]; }
    LowerDotFree(n.tag);
    assert s[|t|] == '.';
    assert s != ToLower(n.tag);
    SplitTagClass(t, c);
  }

  /** A descendant selector (`div p`) is none of the supported forms and never matches. */
  lemma DescendantNeverMatches(n: Node, t: string, u: string)
    requires n.Element? && forall i :: 0 <= i < |n.tag| ==> n.tag[i] != ' '
    requires Trimmed(t + " " + u) && DotFree(t) && DotFree(u) && t != [] && t[0] != '#'
    ensures !MatchesSelector(n, t + " " + u)
  {
    var s := t + " " + u;
    SelectorTrimmed(n, s);
    assert s[0] == t[0];
    assert !StartsWith(s, ".") by { assert s[..1][0] == s[0]; }
    assert !StartsWith(s, "#") by { assert s[..1][0] == s[0]; }
    assert s[|t|] == ' ';
    assert forall i :: 0 <= i < |n.tag| ==> ToLower(n.tag)[i] != ' ';
    assert s != ToLower(n.tag);
    assert forall i :: 0 <= i < |s| ==> s[i] != '.' by {
      forall i | 0 <= i < |s| ensures s[i] != '.' {
        if i < |t| { assert s[i] == t[i]; }
        else if i > |t| { assert s[i] == u[i - |t| - 1]; }
      }
    }
    assert '.' !in s;
  }

  // ---------------------------------------------------------------------------
  // processElement: computed styles copied into the style attribute

  /** The `k`-th property `processElement` reads. */
  function ImportantProp(k: nat): string
    requires k < 28
  {
    if k == 0 then "color" else
    if k == 1 then "font-size" else
    if k == 2 then "font-weight" else
    if k == 3 then "font-family" else
    if k == 4 then "line-height" else
    if k == 5 then "text-align" else
    if k == 6 then "margin" else
    if k == 7 then "margin-top" else
    if k == 8 then "margin-bottom" else
    if k == 9 then "margin-left" else
    if k == 10 then "margin-right" else
    if k == 11 then "padding" else
    if k == 12 then "padding-top" else
    if k == 13 then "padding-bottom" else
    if k == 14 then "padding-left" else
    if k == 15 then "padding-right" else
    if k == 16 then "background" else
    if k == 17 then "background-color" else
    if k == 18 then "border" else
    if k == 19 then "border-radius" else
    if k == 20 then "border-color" else
    if k == 21 then "border-width" else
    if k == 22 then "border-style" else
    if k == 23 then "width" else
    if k == 24 then "max-width" else
    if k == 25 then "display" else
    if k == 26 then "text-decoration" else
    "text-indent"
  }

  /** The properties `processElement` reads, in its order. */
  function ImportantProps(): (r: seq<string>)
    ensures |r| == 28
  {
    seq(28, k requires 0 <= k < 28 => ImportantProp(k))
  }

  /** The computed style of one element: `getPropertyValue` per property, `''` for one not listed. */
  type Computed = map<string, string>

  function ValueOf(c: Computed, prop: string): string {
    if prop in c then c[prop] else ""
  }

  /** The values worth copying: not empty, `normal`, `none`, `auto`, `0px` or transparent black. */
  predicate Emitted(v: string) {
    v != "" && v != "normal" && v != "none" && v != "auto" && v != "0px" && v != "rgba(0, 0, 0, 0)"
  }

  function EmittedBy(c: Computed): string -> bool {
    (p: string) => Emitted(ValueOf(c, p))
  }

  /** The properties of `props` whose computed value is copied, in the order they are read. */
  function EmittedFrom(props: seq<string>, c: Computed): seq<string> {
    Filter(props, EmittedBy(c))
  }

  /** The properties `processElement` copies. */
  function EmittedProps(c: Computed): seq<string> {
    EmittedFrom(ImportantProps(), c)
  }

  /** `prop.replace(/-([a-z])/g, (_, l) => l.toUpperCase())`. */
  function CamelCase(p: string): string {
    if p == [] then []
    else if |p| >= 2 && p[0] == '-' && 'a' <= p[1] <= 'z' then [(p[1] as int - 32) as char] + CamelCase(p[2..])
    else [p[0]] + CamelCase(p[1..])
  }

  /** One declaration per copied property of `props`, as the source writes it: camel-cased name, `: `, value. */
  function CamelDeclsFrom(props: seq<string>, c: Computed): seq<string> {
    var ps := EmittedFrom(props, c);
    seq(|ps|, i requires 0 <= i < |ps| => CamelCase(ps[i]) + ": " + ValueOf(c, ps[i]))
  }

  /** One declaration per copied property of `props`, with the name CSS reads in a `style` attribute. */
  function DeclsFrom(props: seq<string>, c: Computed): seq<string> {
    var ps := EmittedFrom(props, c);
    seq(|ps|, i requires 0 <= i < |ps| => ps[i] + ": " + ValueOf(c, ps[i]))
  }

  /** The declarations as the source writes them. */
  function DeclarationsAsWritten(c: Computed): seq<string> {
    CamelDeclsFrom(ImportantProps(), c)
  }

  /** The declarations with the property names left as they are. */
  function Declarations(c: Computed): seq<string> {
    DeclsFrom(ImportantProps(), c)
  }

  /** A CSS property name: lower-case letters and hyphens. */
  predicate IsPropertyName(s: string) {
    s != [] && forall i :: 0 <= i < |s| ==> 'a' <= s[i] <= 'z' || s[i] == '-'
  }

  /** The inverse of `CamelCase` on property names: each capital becomes `-` and its lower case. */
  function KebabCase(s: string): string {
    if s == [] then []
    else if 'A' <= s[0] <= 'Z' then ['-', LowerChar(s[0])] + KebabCase(s[1..])
    else [s[0]] + KebabCase(s[1..])
  }

  /** No information is lost: camel-casing a property name can be undone. */
  lemma {:induction false} CamelCaseRoundTrip(p: string)
    requires forall i :: 0 <= i < |p| ==> 'a' <= p[i] <= 'z' || p[i] == '-'
    ensures KebabCase(CamelCase(p)) == p
    decreases |p|
  {
    if p != [] {
      if |p| >= 2 && p[0] == '-' && 'a' <= p[1] <= 'z' {
        var up := (p[1] as int - 32) as char;
        CamelCaseRoundTrip(p[2..]);
        assert ([up] + CamelCase(p[2..]))[1..] == CamelCase(p[2..]);
        assert p == [p[0], p[1]] + p[2..];
      } else {
        CamelCaseRoundTrip(p[1..]);
        assert ([p[0]] + CamelCase(p[1..]))[1..] == CamelCase(p[1..]);
        assert p == [p[0]] + p[1..];
      }
    }
  }

  /** Text without hyphens is left as it is. */
  lemma {:induction false} CamelCaseNoHyphen(p: string)
    requires forall i :: 0 <= i < |p| ==> p[i] != '-'
    ensures CamelCase(p) == p
    decreases |p|
  {
    if p != [] {
      CamelCaseNoHyphen(p[1..]);
      assert p == [p[0]] + p[1..];
    }
  }

  /** A hyphen-free prefix is copied as it is. */
  lemma {:induction false} CamelCasePrefix(a: string, b: string)
    requires forall i :: 0 <= i < |a| ==> a[i] != '-'
    ensures CamelCase(a + b) == a + CamelCase(b)
    decreases |a|
  {
    if a != [] {
      assert (a + b)[1..] == a[1..] + b;
      CamelCasePrefix(a[1..], b);
      assert a == [a[0]] + a[1..];
    } else {
      assert a + b == b;
    }
  }

  /** A hyphen before a lower-case letter becomes that letter's capital. */
  lemma CamelCaseHyphen(l: char, b: string)
    requires 'a' <= l <= 'z'
    ensures CamelCase(['-', l] + b) == [(l as int - 32) as char] + CamelCase(b)
  {
    assert (['-', l] + b)[2..] == b;
  }

  lemma CamelCaseFontSize()
    ensures CamelCase("font-size") == "fontSize"
  {
    var font, ize := "font", "ize";
    calc {
      CamelCase("font-size");
      { assert "font-size" == font + (['-', 's'] + ize); }
      CamelCase(font + (['-', 's'] + ize));
      { CamelCasePrefix(font, ['-', 's'] + ize); }
      font + CamelCase(['-', 's'] + ize);
      { CamelCaseHyphen('s', ize); }
      font + (['S'] + CamelCase(ize));
      { CamelCaseNoHyphen(ize); }
      font + (['S'] + ize);
      "fontSize";
    }
  }

  lemma FontSizeRead()
    ensures ImportantProps()[1] == "font-size"
  {
  }

  /** A read property whose value is worth copying is copied. */
  lemma EmittedAt(props: seq<string>, c: Computed, j: nat) returns (k: nat)
    requires j < |props| && Emitted(ValueOf(c, props[j]))
    ensures k < |EmittedFrom(props, c)| && EmittedFrom(props, c)[k] == props[j]
  {
    assert EmittedBy(c)(props[j]);
    FilterKeeps(props, EmittedBy(c), j);
    var ps := EmittedFrom(props, c);
    k :| 0 <= k < |ps| && ps[k] == props[j];
  }

  /** A computed `font-size` of `16px` is copied. */
  lemma FontSizeEmitted(c: Computed) returns (k: nat)
    requires ValueOf(c, "font-size") == "16px"
    ensures k < |EmittedProps(c)| && EmittedProps(c)[k] == "font-size"
  {
    FontSizeRead();
    k := EmittedAt(ImportantProps(), c, 1);
  }

  lemma NotPropertyName()
    ensures !IsPropertyName("fontSize")
  {
    assert "fontSize"[4] == 'S';
  }

  /** The defect: a hyphenated property comes out camel-cased, which is no CSS property name, so the declaration is ignored. */
  lemma CamelCaseBreaksFontSize(c: Computed) returns (k: nat)
    requires ValueOf(c, "font-size") == "16px"
    ensures k < |DeclarationsAsWritten(c)| && DeclarationsAsWritten(c)[k] == "fontSize" + ": " + ValueOf(c, "font-size")
    ensures !IsPropertyName("fontSize")
  {
    k := FontSizeEmitted(c);
    CamelCaseFontSize();
    NotPropertyName();
    var ps := EmittedFrom(ImportantProps(), c);
    assert DeclarationsAsWritten(c)[k] == CamelCase(ps[k]) + ": " + ValueOf(c, ps[k]);
  }

  /** With the names left as they are, the same computed value is written as `font-size: 16px`. */
  lemma FontSizeCorrected(c: Computed) returns (k: nat)
    requires ValueOf(c, "font-size") == "16px"
    ensures k < |Declarations(c)| && Declarations(c)[k] == "font-size" + ": " + ValueOf(c, "font-size")
  {
    k := FontSizeEmitted(c);
    var ps := EmittedFrom(ImportantProps(), c);
    assert Declarations(c)[k] == ps[k] + ": " + ValueOf(c, ps[k]);
  }

  /** Each declaration is built from a read property whose value is worth copying, and every such property is copied. */
  lemma DeclsSound(props: seq<string>, c: Computed)
    ensures var ps := EmittedFrom(props, c);
      forall k :: 0 <= k < |ps| ==> ps[k] in props && Emitted(ValueOf(c, ps[k]))
    ensures forall j :: 0 <= j < |props| && Emitted(ValueOf(c, props[j])) ==> props[j] in EmittedFrom(props, c)
  {
    var ps := EmittedFrom(props, c);
    forall k | 0 <= k < |ps| ensures ps[k] in props && Emitted(ValueOf(c, ps[k])) {
      FilterFrom(props, EmittedBy(c), k);
      assert EmittedBy(c)(ps[k]);
    }
    forall j | 0 <= j < |props| && Emitted(ValueOf(c, props[j])) ensures props[j] in ps {
      assert EmittedBy(c)(props[j]);
      FilterKeeps(props, EmittedBy(c), j);
    }
  }

  /** The corrected declarations name real properties and carry only values worth copying, each read property exactly when its value is. */
  lemma DeclarationsSound(c: Computed)
    ensures forall k :: 0 <= k < |Declarations(c)| ==>
      Declarations(c)[k] == EmittedProps(c)[k] + ": " + ValueOf(c, EmittedProps(c)[k]) &&
      EmittedProps(c)[k] in ImportantProps() &&
      Emitted(ValueOf(c, EmittedProps(c)[k]))
    ensures forall j :: 0 <= j < |ImportantProps()| && Emitted(ValueOf(c, ImportantProps()[j])) ==>
      ImportantProps()[j] in EmittedProps(c)
    ensures |Declarations(c)| <= |ImportantProps()|
  {
    DeclsSound(ImportantProps(), c);
  }

  /** `parts.join(sep)` for a string separator. */
  function JoinWith(parts: seq<string>, sep: string): string {
    if parts == [] then ""
    else if |parts| == 1 then parts[0]
    else parts[0] + sep + JoinWith(parts[1..], sep)
  }

  lemma {:induction false} JoinWithContains(parts: seq<string>, sep: string, k: nat)
    requires k < |parts|
    ensures Contains(JoinWith(parts, sep), parts[k])
  {
    if |parts| == 1 {
      ContainsAt(parts[0], parts[0], 0);
    } else if k == 0 {
      ContainsAt(parts[0], parts[0], 0);
      ContainsInConcat(parts[0], sep + JoinWith(parts[1..], sep), parts[0]);
      assert parts[0] + sep + JoinWith(parts[1..], sep) == parts[0] + (sep + JoinWith(parts[1..], sep));
    } else {
      JoinWithContains(parts[1..], sep, k - 1);
      ContainsInConcat(parts[0] + sep, JoinWith(parts[1..], sep), parts[k]);
    }
  }

  /**
    The `style` attribute after one element is processed: untouched when no
    declaration is copied, else the old style, `; ` when there was one, and
    the declarations joined by `; `.
   */
  function MergeStyle(attrs: map<string, string>, decls: seq<string>): map<string, string> {
    if decls == [] then attrs
    else
      var existing := StyleOf(attrs);
      attrs["style" := existing + (if existing != "" then "; " else "") + JoinWith(decls, "; ")]
  }

  /** The old style stays a prefix, every declaration lands in the new one, and every other attribute is kept. */
  lemma MergeStyleKeeps(attrs: map<string, string>, decls: seq<string>)
    ensures decls == [] ==> MergeStyle(attrs, decls) == attrs
    ensures decls != [] ==> StartsWith(StyleOf(MergeStyle(attrs, decls)), StyleOf(attrs))
    ensures forall k :: 0 <= k < |decls| ==> Contains(StyleOf(MergeStyle(attrs, decls)), decls[k])
    ensures forall a :: a != "style" ==> (a in MergeStyle(attrs, decls) <==> a in attrs)
    ensures forall a :: a in attrs && a != "style" ==> MergeStyle(attrs, decls)[a] == attrs[a]
  {
    if decls != [] {
      var existing := StyleOf(attrs);
      var sep := if existing != "" then "; " else "";
      var st := existing + sep + JoinWith(decls, "; ");
      assert st[..|existing|] == existing;
      forall k | 0 <= k < |decls| ensures Contains(st, decls[k]) {
        JoinWithContains(decls, "; ", k);
        ContainsInConcat(existing + sep, JoinWith(decls, "; "), decls[k]);
      }
    }
  }

  /**
    The computed styles of the cloned article: one map per element, and the
    computed styles of the element's element children, in order.
   */
  datatype StyleTree = StyleTree(computed: Computed, kids: seq<StyleTree>)

  /** How one element's declarations are built from its computed style. */
  type Builder = Computed -> seq<string>

  /**
    `processElement(clone, original)` on the original element: its `style`
    gains the declarations, then its element children are paired with the
    clone's by index; an original child without a partner is left alone.
   */
  function ApplyStyles(n: Node, st: StyleTree, build: Builder): Node
    decreases n, 1
  {
    match n
    case Element(t, cls, a, cs) => Element(t, cls, MergeStyle(a, build(st.computed)), ApplyKids(cs, st.kids, build))
    case _ => n
  }

  /** The children with the element children paired, in order, against the style trees. */
  function ApplyKids(cs: seq<Node>, sts: seq<StyleTree>, build: Builder): (r: seq<Node>)
    ensures |r| == |cs|
    decreases cs, 0
  {
    if cs == [] || sts == [] then cs
    else if cs[0].Element? then [ApplyStyles(cs[0], sts[0], build)] + ApplyKids(cs[1..], sts[1..], build)
    else [cs[0]] + ApplyKids(cs[1..], sts, build)
  }

  /** Only `style` attributes change: removing them everywhere erases the pass. */
  lemma {:induction false} ApplyStylesOnlyStyle(n: Node, st: StyleTree, build: Builder)
    ensures HtmlGenerator.CleanStyles(ApplyStyles(n, st, build)) == HtmlGenerator.CleanStyles(n)
    decreases n, 1
  {
    if n.Element? {
      var cs := n.children;
      var r := ApplyKids(cs, st.kids, build);
      MergeStyleKeeps(n.attrs, build(st.computed));
      ApplyKidsOnlyStyle(cs, st.kids, build);
      assert MergeStyle(n.attrs, build(st.computed)) - {"style"} == n.attrs - {"style"};
      assert seq(|r|, i requires 0 <= i < |r| => HtmlGenerator.CleanStyles(r[i])) ==
        seq(|cs|, i requires 0 <= i < |cs| => HtmlGenerator.CleanStyles(cs[i]));
    }
  }

  lemma {:induction false} ApplyKidsOnlyStyle(cs: seq<Node>, sts: seq<StyleTree>, build: Builder)
    ensures forall i :: 0 <= i < |cs| ==>
      HtmlGenerator.CleanStyles(ApplyKids(cs, sts, build)[i]) == HtmlGenerator.CleanStyles(cs[i])
    decreases cs, 0
  {
    if cs != [] && sts != [] {
      var r := ApplyKids(cs, sts, build);
      if cs[0].Element? {
        ApplyStylesOnlyStyle(cs[0], sts[0], build);
        ApplyKidsOnlyStyle(cs[1..], sts[1..], build);
      } else {
        ApplyKidsOnlyStyle(cs[1..], sts, build);
      }
    }
  }

  /** A style tree whose every element yields no declaration. */
  predicate NothingEmitted(st: StyleTree, build: Builder)
    decreases st
  {
    build(st.computed) == [] && forall i :: 0 <= i < |st.kids| ==> NothingEmitted(st.kids[i], build)
  }

  /** When nothing is worth copying the tree is left exactly as it was. */
  lemma {:induction false} ApplyStylesIdle(n: Node, st: StyleTree, build: Builder)
    requires NothingEmitted(st, build)
    ensures ApplyStyles(n, st, build) == n
    decreases n, 1
  {
    if n.Element? {
      ApplyKidsIdle(n.children, st.kids, build);
    }
  }

  lemma {:induction false} ApplyKidsIdle(cs: seq<Node>, sts: seq<StyleTree>, build: Builder)
    requires forall i :: 0 <= i < |sts| ==> NothingEmitted(sts[i], build)
    ensures ApplyKids(cs, sts, build) == cs
    decreases cs, 0
  {
    if cs != [] && sts != [] {
      if cs[0].Element? {
        ApplyStylesIdle(cs[0], sts[0], build);
        ApplyKidsIdle(cs[1..], sts[1..], build);
      } else {
        ApplyKidsIdle(cs[1..], sts, build);
      }
      assert cs == [cs[0]] + cs[1..];
    }
  }

  lemma {:induction false} ElementsCount(cs: seq<Node>, sts: seq<StyleTree>, build: Builder)
    ensures |HtmlGenerator.ElementsOf(ApplyKids(cs, sts, build))| == |HtmlGenerator.ElementsOf(cs)|
    decreases cs
  {
    if cs != [] && sts != [] {
      var r := ApplyKids(cs, sts, build);
      if cs[0].Element? {
        ElementsCount(cs[1..], sts[1..], build);
        assert r[1..] == ApplyKids(cs[1..], sts[1..], build);
      } else {
        ElementsCount(cs[1..], sts, build);
        assert r[1..] == ApplyKids(cs[1..], sts, build);
      }
    }
  }

  /** The element children of the original are paired with the clone's by index; those past the clone's count are untouched. */
  lemma {:induction false} PairedByIndex(cs: seq<Node>, sts: seq<StyleTree>, build: Builder, k: nat)
    requires k < |HtmlGenerator.ElementsOf(cs)|
    ensures |HtmlGenerator.ElementsOf(ApplyKids(cs, sts, build))| == |HtmlGenerator.ElementsOf(cs)|
    ensures HtmlGenerator.ElementsOf(ApplyKids(cs, sts, build))[k] ==
      if k < |sts| then ApplyStyles(HtmlGenerator.ElementsOf(cs)[k], sts[k], build) else HtmlGenerator.ElementsOf(cs)[k]
    decreases cs
  {
    ElementsCount(cs, sts, build);
    if sts != [] {
      var r := ApplyKids(cs, sts, build);
      var e := HtmlGenerator.ElementsOf(cs);
      var er := HtmlGenerator.ElementsOf(r);
      if cs[0].Element? {
        assert r[1..] == ApplyKids(cs[1..], sts[1..], build);
        assert e == [cs[0]] + HtmlGenerator.ElementsOf(cs[1..]);
        assert r[0].Element?;
        assert er == [r[0]] + HtmlGenerator.ElementsOf(r[1..]);
        if k > 0 {
          PairedByIndex(cs[1..], sts[1..], build, k - 1);
          assert er[k] == HtmlGenerator.ElementsOf(r[1..])[k - 1];
          assert e[k] == HtmlGenerator.ElementsOf(cs[1..])[k - 1];
        }
      } else {
        assert r[1..] == ApplyKids(cs[1..], sts, build);
        assert e == HtmlGenerator.ElementsOf(cs[1..]);
        assert er == HtmlGenerator.ElementsOf(r[1..]);
        PairedByIndex(cs[1..], sts, build, k);
      }
    }
  }


  /** One step of the pairing: the next child, paired when it is an element. */
  lemma ApplyKidsStep(cs: seq<Node>, sts: seq<StyleTree>, build: Builder, i: nat, k: nat)
    requires i < |cs| && k < |sts|
    ensures ApplyKids(cs[i..], sts[k..], build) ==
      if cs[i].Element? then [ApplyStyles(cs[i], sts[k], build)] + ApplyKids(cs[i + 1..], sts[k + 1..], build)
      else [cs[i]] + ApplyKids(cs[i + 1..], sts[k..], build)
  {
    assert cs[i..][1..] == cs[i + 1..];
    assert sts[k..][1..] == sts[k + 1..];
  }

  lemma ConcatAssoc(a: seq<Node>, b: seq<Node>, c: seq<Node>)
    ensures (a + b) + c == a + (b + c)
  {
  }

  /** The invariant of the children loop: the children done so far followed by the pairing of the rest. */
  predicate PairInv(cs: seq<Node>, sts: seq<StyleTree>, build: Builder, i: nat, k: nat, out: seq<Node>) {
    i <= |cs| && k <= |sts| && ApplyKids(cs, sts, build) == out + ApplyKids(cs[i..], sts[k..], build)
  }

  lemma PairStart(cs: seq<Node>, sts: seq<StyleTree>, build: Builder)
    ensures PairInv(cs, sts, build, 0, 0, [])
  {
    assert cs[0..] == cs && sts[0..] == sts;
  }

  /** The invariant carried over an element child, which is processed with the next style tree. */
  lemma PairElement(cs: seq<Node>, sts: seq<StyleTree>, build: Builder, i: nat, k: nat, out: seq<Node>)
    requires PairInv(cs, sts, build, i, k, out) && i < |cs| && k < |sts| && cs[i].Element?
    ensures PairInv(cs, sts, build, i + 1, k + 1, out + [ApplyStyles(cs[i], sts[k], build)])
  {
    ApplyKidsStep(cs, sts, build, i, k);
    ConcatAssoc(out, [ApplyStyles(cs[i], sts[k], build)], ApplyKids(cs[i + 1..], sts[k + 1..], build));
  }

  /** The invariant carried over a child that is not an element, which is kept. */
  lemma PairOther(cs: seq<Node>, sts: seq<StyleTree>, build: Builder, i: nat, k: nat, out: seq<Node>)
    requires PairInv(cs, sts, build, i, k, out) && i < |cs| && k < |sts| && !cs[i].Element?
    ensures PairInv(cs, sts, build, i + 1, k, out + [cs[i]])
  {
    ApplyKidsStep(cs, sts, build, i, k);
    ConcatAssoc(out, [cs[i]], ApplyKids(cs[i + 1..], sts[k..], build));
  }

  /** Once either list is used up, the rest of the children stay as they are. */
  lemma PairDone(cs: seq<Node>, sts: seq<StyleTree>, build: Builder, i: nat, k: nat, out: seq<Node>)
    requires PairInv(cs, sts, build, i, k, out) && (i == |cs| || k == |sts|)
    ensures i <= |cs| && ApplyKids(cs, sts, build) == out + cs[i..]
  {
  }

  /**
    The `importantProps.forEach` loop, pushing one declaration per value
    worth copying. It writes the hyphenated property name: the camel-cased
    name the source writes is `DeclarationsAsWritten`, which CSS ignores
    (see `CamelCaseBreaksFontSize`).
   */
  method CollectDeclarations(c: Computed) returns (decls: seq<string>)
    ensures decls == Declarations(c)
  {
    decls := CollectFrom(ImportantProps(), c);
  }

  /** The same loop over any list of properties. */
  method CollectFrom(props: seq<string>, c: Computed) returns (decls: seq<string>)
    ensures decls == DeclsFrom(props, c)
  {
    decls := [];
    assert props[..0] == [];
    for i := 0 to |props|
      invariant decls == DeclsFrom(props[..i], c)
    {
      var value := ValueOf(c, props[i]);
      DeclsFromSnoc(props[..i], props[i], c);
      assert props[..i + 1] == props[..i] + [props[i]];
      if Emitted(value) {
        decls := decls + [props[i] + ": " + value];
      }
    }
    assert props[..|props|] == props;
  }

  /** Reading one more property adds its declaration exactly when its value is worth copying. */
  lemma DeclsFromSnoc(props: seq<string>, p: string, c: Computed)
    ensures DeclsFrom(props + [p], c) ==
      DeclsFrom(props, c) + (if Emitted(ValueOf(c, p)) then [p + ": " + ValueOf(c, p)] else [])
  {
    var ps := EmittedFrom(props, c);
    FilterConcat(props, [p], EmittedBy(c));
    assert [p][1..] == [];
    if Emitted(ValueOf(c, p)) {
      assert EmittedFrom(props + [p], c) == ps + [p];
      DeclsSnoc(ps, p, c);
    } else {
      assert EmittedFrom(props + [p], c) == ps;
    }
  }

  lemma DeclsSnoc(ps: seq<string>, p: string, c: Computed)
    ensures var d := seq(|ps| + 1, i requires 0 <= i <= |ps| => (ps + [p])[i] + ": " + ValueOf(c, (ps + [p])[i]));
      d == seq(|ps|, i requires 0 <= i < |ps| => ps[i] + ": " + ValueOf(c, ps[i])) + [p + ": " + ValueOf(c, p)]
  {
  }

  /**
    `processElement` on an original element and the computed styles of its
    clone: the declarations are merged into `style`, then the children. The
    declarations carry the corrected, hyphenated names; `CorrectionOnlyStyle`
    shows that this changes nothing but the `style` text.
   */
  method ProcessElement(n: Node, st: StyleTree) returns (r: Node)
    ensures r == ApplyStyles(n, st, Declarations)
    decreases n, 1
  {
    if !n.Element? {
      return n;
    }
    var decls := CollectDeclarations(st.computed);
    var attrs := MergeStyle(n.attrs, decls);
    var kids := ProcessChildren(n.children, st.kids);
    r := Element(n.tag, n.classes, attrs, kids);
  }

  /** The `children.forEach` loop: the i-th element child is processed with the clone's i-th, while the clone has one. */
  method ProcessChildren(cs: seq<Node>, sts: seq<StyleTree>) returns (kids: seq<Node>)
    ensures kids == ApplyKids(cs, sts, Declarations)
    decreases cs, 0
  {
    var out: seq<Node> := [];
    var i, k := 0, 0;
    PairStart(cs, sts, Declarations);
    while i < |cs| && k < |sts|
      invariant PairInv(cs, sts, Declarations, i, k, out)
      decreases |cs| - i
    {
      if cs[i].Element? {
        var c := ProcessElement(cs[i], sts[k]);
        PairElement(cs, sts, Declarations, i, k, out);
        out := out + [c];
        k := k + 1;
      } else {
        PairOther(cs, sts, Declarations, i, k, out);
        out := out + [cs[i]];
      }
      i := i + 1;
    }
    PairDone(cs, sts, Declarations, i, k, out);
    kids := out + cs[i..];
  }

  /**
    The style pass with the corrected declarations and the pass as the source
    writes them give the same tree once `style` is removed: the correction
    touches the `style` text only.
   */
  lemma CorrectionOnlyStyle(n: Node, st: StyleTree)
    ensures HtmlGenerator.CleanStyles(ApplyStyles(n, st, Declarations)) ==
      HtmlGenerator.CleanStyles(ApplyStyles(n, st, DeclarationsAsWritten))
  {
    ApplyStylesOnlyStyle(n, st, Declarations);
    ApplyStylesOnlyStyle(n, st, DeclarationsAsWritten);
  }

  // ---------------------------------------------------------------------------
  // removeAttributes

  /** An attribute `removeAttributes` takes away. */
  predicate Removed(name: string) {
    name == "class" || name == "id" || StartsWith(name, "data-")
  }

  function KeptAttrs(a: map<string, string>): (r: map<string, string>)
    ensures forall k :: k in r <==> k in a && !Removed(k)
    ensures forall k :: k in r ==> r[k] == a[k]
  {
    map k | k in a && !Removed(k) :: a[k]
  }

  /** `removeAttributes(element)`: the class list, `id` and every `data-*` attribute go, at every level. */
  function Strip(n: Node): Node
    decreases n
  {
    match n
    case Element(t, _, a, cs) => Element(t, [], KeptAttrs(a), seq(|cs|, i requires 0 <= i < |cs| => Strip(cs[i])))
    case _ => n
  }

  /** No element of the tree has a class, an `id` or a `data-*` attribute. */
  predicate Stripped(n: Node)
    decreases n
  {
    n.Element? ==>
      n.classes == [] && (forall k :: k in n.attrs ==> !Removed(k)) &&
      forall i :: 0 <= i < |n.children| ==> Stripped(n.children[i])
  }

  /** After the strip nothing removable is left anywhere. */
  lemma {:induction false} StripStripped(n: Node)
    ensures Stripped(Strip(n))
    decreases n
  {
    if n.Element? {
      forall i | 0 <= i < |n.children| { StripStripped(n.children[i]); }
    }
  }

  /** The strip changes nothing on a tree with nothing to remove. */
  lemma {:induction false} StripIdle(n: Node)
    requires Stripped(n)
    ensures Strip(n) == n
    decreases n
  {
    if n.Element? {
      var cs := n.children;
      forall i | 0 <= i < |cs| { StripIdle(cs[i]); }
      assert KeptAttrs(n.attrs) == n.attrs;
      assert seq(|cs|, i requires 0 <= i < |cs| => Strip(cs[i])) == cs;
    }
  }

  /** A tree is its own strip exactly when nothing removable is left, so stripping twice is stripping once. */
  lemma StripFixedIff(n: Node)
    ensures Strip(n) == n <==> Stripped(n)
    ensures Strip(Strip(n)) == Strip(n)
  {
    StripStripped(n);
    if Stripped(n) {
      StripIdle(n);
    }
    StripIdle(Strip(n));
  }

  /** Tags, text and the order of nodes survive the strip, and every other attribute of the element is kept. */
  lemma {:induction false} StripKeeps(n: Node)
    ensures SameShape(n, Strip(n)) && TextContent(Strip(n)) == TextContent(n)
    ensures n.Element? ==> forall k :: k in n.attrs && !Removed(k) ==> k in Strip(n).attrs && Strip(n).attrs[k] == n.attrs[k]
    decreases n
  {
    StripShape(n);
    SameShapeText(n, Strip(n));
  }

  lemma {:induction false} StripShape(n: Node)
    ensures SameShape(n, Strip(n))
    decreases n
  {
    if n.Element? {
      forall i | 0 <= i < |n.children| { StripShape(n.children[i]); }
    }
  }

  /**
    `removeAttributes` on one element: the attribute loop drops `class`,
    `id` and every `data-*` name (in whatever order the attributes come),
    then the loop over the children recurses.
   */
  method RemoveAttributes(n: Node) returns (r: Node)
    ensures r == Strip(n)
    decreases n
  {
    if !n.Element? {
      return n;
    }
    var attrs := n.attrs - {"class", "id"};
    var names := attrs.Keys;
    while names != {}
      invariant names <= attrs.Keys
      invariant forall k :: k in attrs <==> k in n.attrs && k != "class" && k != "id" && (k in names || !StartsWith(k, "data-"))
      invariant forall k :: k in attrs ==> attrs[k] == n.attrs[k]
      decreases names
    {
      var name :| name in names;
      if StartsWith(name, "data-") {
        attrs := attrs - {name};
      }
      names := names - {name};
    }
    assert attrs == KeptAttrs(n.attrs);
    var cs := n.children;
    var out: seq<Node> := [];
    for i := 0 to |cs|
      invariant out == seq(i, j requires 0 <= j < i => Strip(cs[j]))
    {
      var c := RemoveAttributes(cs[i]);
      out := out + [c];
    }
    r := Element(n.tag, [], attrs, out);
  }

  // ---------------------------------------------------------------------------
  // generateWechatHtml

  /**
    The template CSS: empty for a missing or empty id, a template that is not
    stored, or one with empty CSS; else the CSS trimmed.
   */
  function TemplateCss(templates: seq<TemplateStorage.Template>, templateId: Option<string>): string {
    if templateId.None? || templateId.value == "" then ""
    else match TemplateStorage.TemplateById(templates, templateId.value)
      case Some(t) => if t.css != "" then Trim(t.css) else ""
      case None => ""
  }

  /** The template CSS is empty unless a stored template with non-empty CSS is selected, and then it is that CSS trimmed. */
  lemma TemplateCssCases(templates: seq<TemplateStorage.Template>, templateId: Option<string>)
    ensures TemplateCss(templates, templateId) != "" ==>
      templateId.Some? && TemplateStorage.TemplateById(templates, templateId.value).Some? &&
      TemplateCss(templates, templateId) == Trim(TemplateStorage.TemplateById(templates, templateId.value).value.css)
    ensures templateId.None? ==> TemplateCss(templates, templateId) == ""
    ensures templateId.Some? && (forall k :: 0 <= k < |templates| ==> templates[k].id != templateId.value) ==>
      TemplateCss(templates, templateId) == ""
  {
    if templateId.Some? {
      TemplateStorage.TemplateByIdIs(templates, templateId.value);
    }
  }

  /** The preview's clone with `wechat-article` added when missing and `markdown-body` removed. */
  function PreviewArticle(preview: Node): (r: Node)
    requires preview.Element?
    ensures r.Element? && r.tag == preview.tag && r.attrs == preview.attrs && r.children == preview.children
    ensures ArticleClass in r.classes && MarkdownBodyClass !in r.classes
    ensures forall c :: c in r.classes <==> c == ArticleClass || (c in preview.classes && c != MarkdownBodyClass)
  {
    preview.(classes := RemoveClass(AddClass(preview.classes, ArticleClass), MarkdownBodyClass))
  }

  const MarkerDouble: string := "class=\"wechat-article\""
  const MarkerSingle: string := "class='wechat-article'"

  /** The fallback HTML, wrapped in `<div class="wechat-article">` unless either quoting of the marker occurs. */
  function WrapArticle(html: string): string {
    if Contains(html, MarkerDouble) || Contains(html, MarkerSingle) then html
    else "<div " + MarkerDouble + ">" + html + "</div>"
  }

  /** The wrap happens exactly when neither marker occurs; afterwards one does, so wrapping again changes nothing. */
  lemma WrapArticleCases(html: string)
    ensures WrapArticle(html) == html <==> Contains(html, MarkerDouble) || Contains(html, MarkerSingle)
    ensures Contains(WrapArticle(html), MarkerDouble) || Contains(WrapArticle(html), MarkerSingle)
    ensures WrapArticle(WrapArticle(html)) == WrapArticle(html)
  {
    if !(Contains(html, MarkerDouble) || Contains(html, MarkerSingle)) {
      var w := "<div " + MarkerDouble + ">" + html + "</div>";
      ContainsMiddle("<div ", MarkerDouble, ">" + html + "</div>");
      assert w == "<div " + MarkerDouble + (">" + html + "</div>");
      assert |w| > |html|;
    }
  }

  /**
    What is left of the document once the styles are applied and the
    attributes stripped, from the nodes the article HTML parses to: the
    container carrying `wechat-article` alone when there is one (with the
    styles of `computed` when there is CSS), else every node as it is.
   */
  function WechatNodes(nodes: seq<Node>, css: string, computed: StyleTree): seq<Node> {
    match FindWithClass(nodes, ArticleClass)
    case Some(a) => [Strip(if css != "" then ApplyStyles(a, computed, Declarations) else a)]
    case None => seq(|nodes|, i requires 0 <= i < |nodes| => Strip(nodes[i]))
  }

  /**
    `generateWechatHtml` on trees: the preview's clone when there is a
    preview, else the wrapped `processContent` output as `parse` reads it.
   */
  function GenerateWechatHtml(templates: seq<TemplateStorage.Template>, templateId: Option<string>,
                              preview: Option<Node>, processed: string, parse: string -> seq<Node>,
                              computed: StyleTree): seq<Node>
    requires preview.Some? ==> preview.value.Element?
  {
    var css := TemplateCss(templates, templateId);
    var nodes := if preview.Some? then [PreviewArticle(preview.value)] else parse(WrapArticle(processed));
    WechatNodes(nodes, css, computed)
  }

  /** Whatever the input, no class, `id` or `data-*` attribute is left in the output. */
  lemma GenerateStripped(templates: seq<TemplateStorage.Template>, templateId: Option<string>,
                         preview: Option<Node>, processed: string, parse: string -> seq<Node>, computed: StyleTree)
    requires preview.Some? ==> preview.value.Element?
    ensures var out := GenerateWechatHtml(templates, templateId, preview, processed, parse, computed);
      forall i :: 0 <= i < |out| ==> Stripped(out[i])
  {
    var css := TemplateCss(templates, templateId);
    var nodes := if preview.Some? then [PreviewArticle(preview.value)] else parse(WrapArticle(processed));
    match FindWithClass(nodes, ArticleClass) {
      case Some(a) =>
        StripStripped(if css != "" then ApplyStyles(a, computed, Declarations) else a);
      case None =>
        forall i | 0 <= i < |nodes| { StripStripped(nodes[i]); }
    }
  }

  /** From the preview, the output is the preview's clone, styled only when there is CSS, then stripped. */
  lemma GenerateFromPreview(templates: seq<TemplateStorage.Template>, templateId: Option<string>,
                            preview: Node, processed: string, parse: string -> seq<Node>, computed: StyleTree)
    requires preview.Element?
    ensures GenerateWechatHtml(templates, templateId, Some(preview), processed, parse, computed) ==
      [Strip(if TemplateCss(templates, templateId) != "" then ApplyStyles(PreviewArticle(preview), computed, Declarations)
             else PreviewArticle(preview))]
  {
    var p := PreviewArticle(preview);
    assert HasClass(p, ArticleClass);
    assert FindWithClass([p], ArticleClass) == Some(p);
  }
}
