/**
  The structural transforms the WeChat rendering pipeline applies after the
  code-block step, in the order `testWechatRender` runs them: headings,
  tables, block quotes, inline code, rules, lists, task-list items.

  Each transform is a `querySelectorAll(...).forEach(...)` over a live tree.
  Two kinds occur:
  - replacing an element by a fresh one built from `innerHTML` (headings,
    block quotes, inline code, task items): the list was taken before the
    walk, so an element nested in a replaced one is rewritten only inside the
    detached original and reaches the output unconverted;
  - setting `style` and removing `class` in place (tables, rules, lists):
    every selected element is reached, and a second visit of the same
    element (nested lists, nested tables) changes nothing more.
  The styles are set, never merged with what was there.
 */
module RenderTransforms {
  import opened Wrappers
  import opened Strings
  import opened Dom

  // ---------------------------------------------------------------------------
  // Replacing the outermost element: headings and block quotes

  const HeadingTags: set<string> := {"h1", "h2", "h3", "h4", "h5", "h6"}

  const HeadingStyles: map<string, string> := map[
    "h1" := "font-size:24px;font-weight:600;margin:16px 0 8px;",
    "h2" := "font-size:20px;font-weight:600;margin:16px 0 8px;",
    "h3" := "font-size:18px;font-weight:600;margin:16px 0 8px;",
    "h4" := "font-size:16px;font-weight:600;margin:14px 0 8px;",
    "h5" := "font-size:15px;font-weight:600;margin:12px 0 8px;",
    "h6" := "font-size:14px;font-weight:600;margin:10px 0 8px;"]

  /** `headingStyles[tagName] || headingStyles['h3']`. */
  function HeadingStyle(tag: string): string {
    if tag in HeadingStyles then HeadingStyles[tag] else HeadingStyles["h3"]
  }

  /** Every heading level has its own entry, so the `h3` fallback is never taken, and no two levels share a style. */
  lemma HeadingStyleTable()
    ensures forall t :: t in HeadingTags ==> t in HeadingStyles && HeadingStyle(t) == HeadingStyles[t]
    ensures forall t, u :: t in HeadingTags && u in HeadingTags && t != u ==> HeadingStyle(t) != HeadingStyle(u)
  {
  }

  const QuoteStyle: string := "border-left:4px solid #d0d7de;padding:8px 12px;background:#f8f9fa;margin:12px 0;font-size:14px;color:#555;"

  /**
    Every outermost element whose tag is in `tags` becomes a new `newTag`
    element whose only attribute is the style for its old tag, holding a copy
    of the old children.
   */
  function Promote(n: Node, tags: set<string>, newTag: string, style: string -> string): Node
    decreases n
  {
    match n
    case Element(t, c, a, cs) =>
      if t in tags then Element(newTag, [], map["style" := style(t)], cs)
      else Element(t, c, a, seq(|cs|, i requires 0 <= i < |cs| => Promote(cs[i], tags, newTag, style)))
    case _ => n
  }

  /** The heading step. */
  function Headings(n: Node): Node {
    Promote(n, HeadingTags, "p", HeadingStyle)
  }

  /** The block-quote step. */
  function Quotes(n: Node): Node {
    Promote(n, {"blockquote"}, "section", _ => QuoteStyle)
  }

  /** Replacing elements keeps the text. */
  lemma {:induction false} PromoteText(n: Node, tags: set<string>, newTag: string, style: string -> string)
    ensures TextContent(Promote(n, tags, newTag, style)) == TextContent(n)
    decreases n
  {
    if n.Element? && n.tag !in tags {
      var cs := n.children;
      var ps := seq(|cs|, i requires 0 <= i < |cs| => Promote(cs[i], tags, newTag, style));
      forall i | 0 <= i < |cs| ensures TextContent(ps[i]) == TextContent(cs[i]) {
        PromoteText(cs[i], tags, newTag, style);
      }
      TextContentAllPointwise(ps, cs);
    }
  }

  /**
    No selected element is left outside a replacement: each one that remains
    sits below a `newTag` element with no class and a lone style attribute.
   */
  predicate OuterFree(n: Node, tags: set<string>, newTag: string)
    decreases n
  {
    n.Element? ==>
      n.tag !in tags &&
      ((n.tag == newTag && n.classes == [] && n.attrs.Keys == {"style"}) ||
       forall i :: 0 <= i < |n.children| ==> OuterFree(n.children[i], tags, newTag))
  }

  lemma {:induction false} PromoteOuterFree(n: Node, tags: set<string>, newTag: string, style: string -> string)
    requires newTag !in tags
    ensures OuterFree(Promote(n, tags, newTag, style), tags, newTag)
    decreases n
  {
    if n.Element? && n.tag !in tags {
      forall i | 0 <= i < |n.children| {
        PromoteOuterFree(n.children[i], tags, newTag, style);
      }
    }
  }

  /**
    A heading becomes a `p` whose only attribute is its level's style: the
    classes and attributes it had are gone, and its children, nested
    headings included, are kept as they were.
   */
  lemma HeadingBecomesParagraph(t: string, c: seq<string>, a: map<string, string>, cs: seq<Node>)
    requires t in HeadingTags
    ensures Headings(Element(t, c, a, cs)) == Element("p", [], map["style" := HeadingStyles[t]], cs)
  {
    HeadingStyleTable();
  }

  /** After the heading step every remaining heading sits inside a converted one, and the text is kept. */
  lemma HeadingsResult(n: Node)
    ensures OuterFree(Headings(n), HeadingTags, "p")
    ensures TextContent(Headings(n)) == TextContent(n)
  {
    PromoteOuterFree(n, HeadingTags, "p", HeadingStyle);
    PromoteText(n, HeadingTags, "p", HeadingStyle);
  }

  /** After the block-quote step every remaining quote sits inside a converted one, and the text is kept. */
  lemma QuotesResult(n: Node)
    ensures OuterFree(Quotes(n), {"blockquote"}, "section")
    ensures TextContent(Quotes(n)) == TextContent(n)
  {
    PromoteOuterFree(n, {"blockquote"}, "section", _ => QuoteStyle);
    PromoteText(n, {"blockquote"}, "section", _ => QuoteStyle);
  }

  // ---------------------------------------------------------------------------
  // Setting the style in place: tables, rules, lists

  /**
    An in-place styling step: an element selected by `target` (given its tag
    and whether it lies inside an element that opens the scope, as decided by
    `enter`) loses its classes and gets `style` set to `newStyle(tag, old style)`.
   */
  function Restyle(n: Node, inside: bool, target: (string, bool) -> bool,
                   newStyle: (string, string) -> string, enter: (string, bool) -> bool): Node
    decreases n
  {
    match n
    case Element(t, c, a, cs) =>
      var inner := enter(t, inside);
      var kids := seq(|cs|, i requires 0 <= i < |cs| => Restyle(cs[i], inner, target, newStyle, enter));
      if target(t, inside) then Element(t, [], a["style" := newStyle(t, StyleOf(a))], kids)
      else Element(t, c, a, kids)
    case _ => n
  }

  /** Every selected element already has no class and a style the step would keep. */
  predicate Restyled(n: Node, inside: bool, target: (string, bool) -> bool,
                     newStyle: (string, string) -> string, enter: (string, bool) -> bool)
    decreases n
  {
    n.Element? ==>
      (target(n.tag, inside) ==>
         n.classes == [] && "style" in n.attrs && newStyle(n.tag, n.attrs["style"]) == n.attrs["style"]) &&
      forall i :: 0 <= i < |n.children| ==>
        Restyled(n.children[i], enter(n.tag, inside), target, newStyle, enter)
  }

  /** A style rule that keeps the style it produces. */
  ghost predicate Stable(newStyle: (string, string) -> string) {
    forall t, s :: newStyle(t, newStyle(t, s)) == newStyle(t, s)
  }

  /** A styling step keeps tags, structure and text. */
  lemma {:induction false} RestyleShape(n: Node, inside: bool, target: (string, bool) -> bool,
                                        newStyle: (string, string) -> string, enter: (string, bool) -> bool)
    ensures SameShape(n, Restyle(n, inside, target, newStyle, enter))
    decreases n
  {
    if n.Element? {
      forall i | 0 <= i < |n.children| {
        RestyleShape(n.children[i], enter(n.tag, inside), target, newStyle, enter);
      }
    }
  }

  /** The step leaves every selected element restyled. */
  lemma {:induction false} RestyleRestyled(n: Node, inside: bool, target: (string, bool) -> bool,
                                           newStyle: (string, string) -> string, enter: (string, bool) -> bool)
    requires Stable(newStyle)
    ensures Restyled(Restyle(n, inside, target, newStyle, enter), inside, target, newStyle, enter)
    decreases n
  {
    if n.Element? {
      forall i | 0 <= i < |n.children| {
        RestyleRestyled(n.children[i], enter(n.tag, inside), target, newStyle, enter);
      }
      var r := Restyle(n, inside, target, newStyle, enter);
      if target(n.tag, inside) {
        assert r.attrs["style"] == newStyle(n.tag, StyleOf(n.attrs));
      }
    }
  }

  /** The step changes a tree exactly when some selected element is not yet restyled. */
  lemma {:induction false} RestyleFixedIff(n: Node, inside: bool, target: (string, bool) -> bool,
                                           newStyle: (string, string) -> string, enter: (string, bool) -> bool)
    ensures Restyle(n, inside, target, newStyle, enter) == n <==> Restyled(n, inside, target, newStyle, enter)
    decreases n
  {
    if n.Element? {
      var cs := n.children;
      var inner := enter(n.tag, inside);
      forall i | 0 <= i < |cs| {
        RestyleFixedIff(cs[i], inner, target, newStyle, enter);
      }
      var r := Restyle(n, inside, target, newStyle, enter);
      if r == n {
        forall i | 0 <= i < |cs| ensures Restyle(cs[i], inner, target, newStyle, enter) == cs[i] {
          assert r.children[i] == Restyle(cs[i], inner, target, newStyle, enter);
        }
        if target(n.tag, inside) {
          assert "style" in r.attrs;
        }
      }
      if Restyled(n, inside, target, newStyle, enter) {
        assert r.children == cs;
      }
    }
  }

  /** Running a step twice is running it once. */
  lemma RestyleIdempotent(n: Node, inside: bool, target: (string, bool) -> bool,
                          newStyle: (string, string) -> string, enter: (string, bool) -> bool)
    requires Stable(newStyle)
    ensures var r := Restyle(n, inside, target, newStyle, enter);
      Restyle(r, inside, target, newStyle, enter) == r
  {
    RestyleRestyled(n, inside, target, newStyle, enter);
    RestyleFixedIff(Restyle(n, inside, target, newStyle, enter), inside, target, newStyle, enter);
  }

  const TableStyle: string := "border-collapse:collapse;width:100%;font-size:14px;"
  const ThStyle: string := "border:1px solid #ddd;padding:6px;background:#f7f7f7;"
  const TdStyle: string := "border:1px solid #ddd;padding:6px;"
  const HrStyle: string := "border:none;border-top:1px solid #ddd;margin:16px 0;"
  const ListStyle: string := "padding-left:20px;margin:8px 0;"
  const ItemStyle: string := "margin:4px 0;"

  /** Tables: every `table`, and every `th` and `td` inside one. */
  function TableTarget(t: string, inTable: bool): bool { t == "table" || (inTable && (t == "th" || t == "td")) }
  function TableStyleOf(t: string, prior: string): string {
    if t == "table" then TableStyle else if t == "th" then ThStyle else TdStyle
  }
  function TableEnter(t: string, inTable: bool): bool { inTable || t == "table" }

  function Tables(n: Node): Node {
    Restyle(n, false, TableTarget, TableStyleOf, TableEnter)
  }

  /** Rules: every `hr`. */
  function HrTarget(t: string, inside: bool): bool { t == "hr" }
  function HrStyleOf(t: string, prior: string): string { HrStyle }
  function HrEnter(t: string, inside: bool): bool { false }

  function Rules(n: Node): Node {
    Restyle(n, false, HrTarget, HrStyleOf, HrEnter)
  }

  /** Lists: every `ul` and `ol`, and every `li` inside one, whose style is kept when it already sets a margin. */
  function ListTarget(t: string, inList: bool): bool { t == "ul" || t == "ol" || (inList && t == "li") }
  function ListStyleOf(t: string, prior: string): string {
    if t == "li" then (if Contains(prior, "margin") then prior else ItemStyle) else ListStyle
  }
  function ListEnter(t: string, inList: bool): bool { inList || t == "ul" || t == "ol" }

  function Lists(n: Node): Node {
    Restyle(n, false, ListTarget, ListStyleOf, ListEnter)
  }

  lemma ItemStyleHasMargin()
    ensures Contains(ItemStyle, "margin")
  {
    assert ItemStyle[..6] == "margin";
  }

  /** The three styling rules keep the styles they set, so each step is idempotent. */
  lemma StylesStable()
    ensures Stable(TableStyleOf) && Stable(HrStyleOf) && Stable(ListStyleOf)
  {
    ItemStyleHasMargin();
  }

  /**
    The table step keeps the text and the structure, leaves every table and
    every cell inside a table without class and with its fixed style, and a
    second run changes nothing.
   */
  lemma TablesResult(n: Node)
    ensures SameShape(n, Tables(n)) && TextContent(Tables(n)) == TextContent(n)
    ensures Restyled(Tables(n), false, TableTarget, TableStyleOf, TableEnter)
    ensures Tables(Tables(n)) == Tables(n)
  {
    StylesStable();
    RestyleShape(n, false, TableTarget, TableStyleOf, TableEnter);
    SameShapeText(n, Tables(n));
    RestyleRestyled(n, false, TableTarget, TableStyleOf, TableEnter);
    RestyleIdempotent(n, false, TableTarget, TableStyleOf, TableEnter);
  }

  /** The rule step: the same guarantees for every `hr`. */
  lemma RulesResult(n: Node)
    ensures SameShape(n, Rules(n)) && TextContent(Rules(n)) == TextContent(n)
    ensures Restyled(Rules(n), false, HrTarget, HrStyleOf, HrEnter)
    ensures Rules(Rules(n)) == Rules(n)
  {
    StylesStable();
    RestyleShape(n, false, HrTarget, HrStyleOf, HrEnter);
    SameShapeText(n, Rules(n));
    RestyleRestyled(n, false, HrTarget, HrStyleOf, HrEnter);
    RestyleIdempotent(n, false, HrTarget, HrStyleOf, HrEnter);
  }

  /** The list step: the same guarantees for lists and their items. */
  lemma ListsResult(n: Node)
    ensures SameShape(n, Lists(n)) && TextContent(Lists(n)) == TextContent(n)
    ensures Restyled(Lists(n), false, ListTarget, ListStyleOf, ListEnter)
    ensures Lists(Lists(n)) == Lists(n)
  {
    StylesStable();
    RestyleShape(n, false, ListTarget, ListStyleOf, ListEnter);
    SameShapeText(n, Lists(n));
    RestyleRestyled(n, false, ListTarget, ListStyleOf, ListEnter);
    RestyleIdempotent(n, false, ListTarget, ListStyleOf, ListEnter);
  }

  /** An item inside a list keeps a style that mentions a margin and gets `margin:4px 0;` otherwise. */
  lemma ItemStyleRule(c: seq<string>, a: map<string, string>, cs: seq<Node>)
    ensures var r := Restyle(Element("li", c, a, cs), true, ListTarget, ListStyleOf, ListEnter);
      r.classes == [] && "style" in r.attrs && Contains(r.attrs["style"], "margin") &&
      (Contains(StyleOf(a), "margin") ==> r.attrs == a) &&
      (!Contains(StyleOf(a), "margin") ==> r.attrs == a["style" := ItemStyle])
  {
    ItemStyleHasMargin();
  }

  // ---------------------------------------------------------------------------
  // Inline code

  const InlineCodeStyle: string := "background:#f6f8fa;padding:2px 6px;border-radius:3px;font-family:Menlo,monospace;font-size:14px;"

  /** A `code` outside every `pre` becomes a styled `span` holding only its text; a `pre` is left whole. */
  function InlineCode(n: Node): Node
    decreases n
  {
    match n
    case Element(t, c, a, cs) =>
      if t == "pre" then n
      else if t == "code" then
        Element("span", [], map["style" := InlineCodeStyle],
                if TextContentAll(cs) == "" then [] else [Text(TextContentAll(cs))])
      else Element(t, c, a, seq(|cs|, i requires 0 <= i < |cs| => InlineCode(cs[i])))
    case _ => n
  }

  /** Every `code` in the tree lies inside a `pre`. */
  predicate CodeOnlyInPre(n: Node)
    decreases n
  {
    n.Element? ==>
      n.tag != "code" &&
      (n.tag == "pre" || forall i :: 0 <= i < |n.children| ==> CodeOnlyInPre(n.children[i]))
  }

  /** The inline-code step keeps the text. */
  lemma {:induction false} InlineCodeText(n: Node)
    ensures TextContent(InlineCode(n)) == TextContent(n)
    decreases n
  {
    if n.Element? && n.tag != "pre" {
      var cs := n.children;
      if n.tag == "code" {
        var s := TextContentAll(cs);
        if s != "" {
          assert TextContentAll([Text(s)]) == s + TextContentAll([]);
        }
      } else {
        var ps := seq(|cs|, i requires 0 <= i < |cs| => InlineCode(cs[i]));
        forall i | 0 <= i < |cs| ensures TextContent(ps[i]) == TextContent(cs[i]) {
          InlineCodeText(cs[i]);
        }
        TextContentAllPointwise(ps, cs);
      }
    }
  }

  /** The step changes a tree exactly when some `code` lies outside every `pre`. */
  lemma {:induction false} InlineCodeFixedIff(n: Node)
    ensures InlineCode(n) == n <==> CodeOnlyInPre(n)
    decreases n
  {
    if n.Element? && n.tag != "pre" && n.tag != "code" {
      var cs := n.children;
      forall i | 0 <= i < |cs| { InlineCodeFixedIff(cs[i]); }
      if InlineCode(n) == n {
        forall i | 0 <= i < |cs| ensures InlineCode(cs[i]) == cs[i] {
          assert InlineCode(n).children[i] == InlineCode(cs[i]);
        }
      }
    }
  }

  /** After the step every `code` lies inside a `pre`. */
  lemma {:induction false} InlineCodeClears(n: Node)
    ensures CodeOnlyInPre(InlineCode(n))
    decreases n
  {
    if n.Element? && n.tag != "pre" && n.tag != "code" {
      forall i | 0 <= i < |n.children| { InlineCodeClears(n.children[i]); }
    }
  }

  /** A second run changes nothing. */
  lemma InlineCodeIdempotent(n: Node)
    ensures InlineCode(InlineCode(n)) == InlineCode(n)
  {
    InlineCodeClears(n);
    InlineCodeFixedIff(InlineCode(n));
  }

  // ---------------------------------------------------------------------------
  // Task-list items

  const CheckedIcon: string := "\U{2611}\U{FE0F}"
  const UncheckedIcon: string := "\U{2B1C}"

  function Icon(checked: bool): string {
    if checked then CheckedIcon else UncheckedIcon
  }

  /** `[x\s]` under the `i` flag. */
  predicate IsMarkChar(c: char) {
    c == 'x' || c == 'X' || IsSpace(c)
  }

  /** `^\s*\[([x\s])\]` (flag `i`): the marker character and the text after `]`. */
  function Marker(s: string): (r: Option<(char, string)>)
    ensures r.Some? ==> IsMarkChar(r.value.0) && |r.value.1| < |s|
  {
    var u := TrimStart(s);
    if |u| >= 3 && u[0] == '[' && IsMarkChar(u[1]) && u[2] == ']' then Some((u[1], u[3..])) else None
  }

  /** `text.replace(/^\s*\[[x\s]\]\s*\/i, '')`. */
  function StripMarker(s: string): string {
    match Marker(s)
    case Some((_, rest)) => TrimStart(rest)
    case None => s
  }

  /** `text.match(/^\s*\[([x\s])\]\s*(.*)$/i)`: whether the box is ticked, and the item text. */
  function TaskMatch(s: string): Option<(bool, string)> {
    match Marker(s)
    case Some((c, rest)) =>
      var text := TrimStart(rest);
      if NoLineTerminator(text) then Some((c == 'x' || c == 'X', text)) else None
    case None => None
  }

  predicate IsCheckbox(n: Node) {
    n.Element? && n.tag == "input" && "type" in n.attrs && n.attrs["type"] == "checkbox"
  }

  predicate HasCheckbox(ns: seq<Node>)
    decreases ns
  {
    exists i :: 0 <= i < |ns| && (IsCheckbox(ns[i]) || (ns[i].Element? && HasCheckbox(ns[i].children)))
  }

  /** `querySelector('input[type="checkbox"]')`: the first checkbox in document order. */
  function FindCheckbox(ns: seq<Node>): (r: Option<Node>)
    ensures r.Some? ==> IsCheckbox(r.value)
    ensures r.None? <==> !HasCheckbox(ns)
    decreases ns
  {
    if ns == [] then None
    else if IsCheckbox(ns[0]) then Some(ns[0])
    else
      var inner := if ns[0].Element? then FindCheckbox(ns[0].children) else None;
      if inner.Some? then inner
      else
        var rest := FindCheckbox(ns[1..]);
        assert forall i :: 1 <= i < |ns| ==> ns[i] == ns[1..][i - 1];
        assert rest.Some? ==> HasCheckbox(ns);
        rest
  }

  /**
    The task step on a node. An item with a checkbox gets the icon for the
    box's `checked` attribute and its text without the marker, trimmed; an item
    without one whose text matches the marker pattern gets the icon and the
    captured text; either way its children are replaced by that one text.
    Any other item is searched further, as is every other element.
   */
  function Tasks(n: Node): Node
    decreases n
  {
    match n
    case Element(t, c, a, cs) =>
      var walked := Element(t, c, a, seq(|cs|, i requires 0 <= i < |cs| => Tasks(cs[i])));
      if t != "li" then walked
      else
        (match FindCheckbox(cs)
         case Some(box) =>
           Element(t, c, a, [Text(Icon("checked" in box.attrs) + " " + Trim(StripMarker(TextContentAll(cs))))])
         case None =>
           (match TaskMatch(TextContentAll(cs))
            case Some((checked, text)) => Element(t, c, a, [Text(Icon(checked) + " " + text)])
            case None => walked))
    case _ => n
  }

  /** Leading white space does not change what `trimStart` leaves. */
  lemma {:induction false} TrimStartSpacePrefix(ws: string, x: string)
    requires AllSpace(ws)
    ensures TrimStart(ws + x) == TrimStart(x)
    decreases |ws|
  {
    if ws != [] {
      assert (ws + x)[1..] == ws[1..] + x;
      TrimStartSpacePrefix(ws[1..], x);
    } else {
      assert ws + x == x;
    }
  }

  /** A marker after leading white space is found, and the rest of the text follows it. */
  lemma MarkerAfterSpace(ws: string, c: char, rest: string)
    requires AllSpace(ws) && IsMarkChar(c)
    ensures Marker(ws + ['[', c, ']'] + rest) == Some((c, rest))
  {
    var m := ['[', c, ']'] + rest;
    assert ws + ['[', c, ']'] + rest == ws + m;
    TrimStartSpacePrefix(ws, m);
    assert LeadingSpace(m) == 0 by { assert m[0] == '['; }
    assert TrimStart(m) == m;
    MarkerAt(ws + m, c, rest);
  }

  /** Text whose `trimStart` begins with `[c]` has its marker there. */
  lemma MarkerAt(s: string, c: char, rest: string)
    requires TrimStart(s) == ['[', c, ']'] + rest && IsMarkChar(c)
    ensures Marker(s) == Some((c, rest))
  {
    var u := ['[', c, ']'] + rest;
    assert u[0] == '[' && u[1] == c && u[2] == ']' && u[3..] == rest;
  }

  /** Every item written as spaces, `[c]`, spaces and a one-line text matches, capturing that text. */
  lemma TaskMatchComplete(ws: string, c: char, ws2: string, text: string)
    requires AllSpace(ws) && IsMarkChar(c) && AllSpace(ws2)
    requires NoLineTerminator(text) && (text == [] || !IsSpace(text[0]))
    ensures TaskMatch(ws + ['[', c, ']'] + ws2 + text) == Some((c == 'x' || c == 'X', text))
  {
    var s := ws + ['[', c, ']'] + ws2 + text;
    assert s == ws + ['[', c, ']'] + (ws2 + text);
    MarkerAfterSpace(ws, c, ws2 + text);
    TrimStartSpacePrefix(ws2, text);
    assert LeadingSpace(text) == 0;
    assert TrimStart(text) == text;
  }

  /**
    Every match comes from such an item: white space up to `i`, then `[c]`,
    white space up to `j`, then the captured one-line text.
   */
  lemma TaskMatchSound(s: string) returns (i: nat, j: nat)
    requires TaskMatch(s).Some?
    ensures i + 3 <= j <= |s|
    ensures AllSpace(s[..i]) && s[i] == '[' && IsMarkChar(s[i + 1]) && s[i + 2] == ']'
    ensures AllSpace(s[i + 3..j]) && s[j..] == TaskMatch(s).value.1 && NoLineTerminator(s[j..])
    ensures TaskMatch(s).value.0 <==> s[i + 1] == 'x' || s[i + 1] == 'X'
  {
    var u, text := TaskMatchParts(s);
    i, j := SplitSuffixes(s, u, text);
  }

  /** What `TaskMatch` looks at: the text after leading space, and the text after the marker and its spaces. */
  lemma TaskMatchParts(s: string) returns (u: string, text: string)
    requires TaskMatch(s).Some?
    ensures u == TrimStart(s) && |u| >= 3 && u[0] == '[' && IsMarkChar(u[1]) && u[2] == ']'
    ensures text == TrimStart(u[3..]) && NoLineTerminator(text)
    ensures TaskMatch(s) == Some((u[1] == 'x' || u[1] == 'X', text))
  {
    u := TrimStart(s);
    text := TrimStart(u[3..]);
  }

  /** Positions of nested suffixes: `u` a suffix of `s` after white space, `text` one of `u[3..]` after white space. */
  lemma SplitSuffixes(s: string, u: string, text: string) returns (i: nat, j: nat)
    requires 3 <= |u| <= |s| && u == s[|s| - |u|..] && AllSpace(s[..|s| - |u|])
    requires |text| <= |u| - 3 && text == u[3..][|u| - 3 - |text|..] && AllSpace(u[3..][..|u| - 3 - |text|])
    ensures i + 3 <= j <= |s| && i == |s| - |u|
    ensures AllSpace(s[..i]) && s[i..] == u
    ensures AllSpace(s[i + 3..j]) && s[j..] == text
  {
    var rest := u[3..];
    var m := |rest| - |text|;
    i := |s| - |u|;
    j := i + 3 + m;
    SuffixParts(s, i, u, 3);
    SuffixParts(s, i + 3, rest, m);
  }

  /** Slicing a named suffix of `s` is slicing `s`. */
  lemma SuffixParts(s: string, k: nat, rest: string, m: nat)
    requires k <= |s| && rest == s[k..] && m <= |rest|
    ensures rest[..m] == s[k..k + m] && rest[m..] == s[k + m..]
  {
  }

  /** Text without a marker is never a task. */
  lemma NoMarkerNoTask(s: string)
    requires Marker(s).None?
    ensures TaskMatch(s).None? && StripMarker(s) == s
  {
  }

  /** The step never introduces a checkbox. */
  lemma {:induction false} TasksAddNoCheckbox(ns: seq<Node>)
    requires !HasCheckbox(ns)
    ensures !HasCheckbox(seq(|ns|, i requires 0 <= i < |ns| => Tasks(ns[i])))
    decreases ns, 0
  {
    forall i | 0 <= i < |ns| {
      TasksNodeNoCheckbox(ns[i]);
    }
  }

  lemma {:induction false} TasksNodeNoCheckbox(n: Node)
    requires !IsCheckbox(n) && (n.Element? ==> !HasCheckbox(n.children))
    ensures !IsCheckbox(Tasks(n)) && (Tasks(n).Element? ==> !HasCheckbox(Tasks(n).children))
    decreases n, 1
  {
    if n.Element? {
      TasksShape(n);
      var t := Tasks(n);
      assert !IsCheckbox(t);
      if Collapsed(n) {
        TextNoCheckbox(t.children);
      } else {
        TasksAddNoCheckbox(n.children);
      }
    }
  }

  lemma TextNoCheckbox(ns: seq<Node>)
    requires |ns| == 1 && ns[0].Text?
    ensures !HasCheckbox(ns)
  {
  }

  /** An item the step rewrites: one with a checkbox or with a marker in its text. */
  predicate Collapsed(n: Node) {
    n.Element? && n.tag == "li" &&
    (FindCheckbox(n.children).Some? || TaskMatch(TextContentAll(n.children)).Some?)
  }

  /** The step keeps tag, classes and attributes; a rewritten item holds one text, any other element its walked children. */
  lemma TasksShape(n: Node)
    requires n.Element?
    ensures Tasks(n).Element? && Tasks(n).tag == n.tag && Tasks(n).classes == n.classes && Tasks(n).attrs == n.attrs
    ensures Collapsed(n) ==> |Tasks(n).children| == 1 && Tasks(n).children[0].Text?
    ensures !Collapsed(n) ==>
      Tasks(n).children == seq(|n.children|, i requires 0 <= i < |n.children| => Tasks(n.children[i]))
  {
  }

  /** No item keeps a checkbox: every checkbox left in the tree lies outside every list item. */
  predicate NoCheckboxInItem(n: Node)
    decreases n
  {
    n.Element? ==>
      (n.tag == "li" ==> !HasCheckbox(n.children)) &&
      forall i :: 0 <= i < |n.children| ==> NoCheckboxInItem(n.children[i])
  }

  lemma {:induction false} TasksClearItems(n: Node)
    ensures NoCheckboxInItem(Tasks(n))
    decreases n
  {
    if n.Element? {
      var cs := n.children;
      var t := Tasks(n);
      TasksShape(n);
      if Collapsed(n) {
        TextNoCheckbox(t.children);
        assert NoCheckboxInItem(t.children[0]);
      } else {
        forall i | 0 <= i < |cs| ensures NoCheckboxInItem(t.children[i]) {
          TasksClearItems(cs[i]);
        }
        if n.tag == "li" {
          TasksAddNoCheckbox(cs);
        }
      }
    }
  }

  /** A ticked box gives the ticked icon, an unticked one the empty box; the text is the item's text without its marker, trimmed. */
  lemma CheckboxItem(c: seq<string>, a: map<string, string>, cs: seq<Node>, box: Node)
    requires FindCheckbox(cs) == Some(box)
    ensures TextContent(Tasks(Element("li", c, a, cs))) ==
      Icon("checked" in box.attrs) + " " + Trim(StripMarker(TextContentAll(cs)))
  {
    var s := Icon("checked" in box.attrs) + " " + Trim(StripMarker(TextContentAll(cs)));
    assert TextContentAll([Text(s)]) == s + TextContentAll([]);
  }

  /** An item without a checkbox whose text is `[x] buy milk` becomes `☑️ buy milk`. */
  lemma MarkedItem(c: seq<string>, a: map<string, string>, cs: seq<Node>)
    requires !HasCheckbox(cs) && TaskMatch(TextContentAll(cs)).Some?
    ensures var m := TaskMatch(TextContentAll(cs)).value;
      TextContent(Tasks(Element("li", c, a, cs))) == Icon(m.0) + " " + m.1
  {
    var m := TaskMatch(TextContentAll(cs)).value;
    var s := Icon(m.0) + " " + m.1;
    assert TextContentAll([Text(s)]) == s + TextContentAll([]);
  }
}
