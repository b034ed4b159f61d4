/**
  The string-to-string pipeline behind the copy and export buttons
  (`processContent`): an optional markdown conversion, `cleanHtml` (every
  inline style removed) and `addWechatClasses` (every mapped element's class
  list replaced by its role class, all inside one `div.wechat-article`).

  HTML parsing and serialisation are parameters (`parse` yields the body's
  child nodes, `serialize` is `innerHTML`); the regular-expression rewrites
  that turn inline markdown into tags are one opaque parameter `inline`.
  What is modelled exactly is the tree rewriting and the list-grouping loop.
 */
module HtmlGenerator {
  import opened Wrappers
  import opened Strings
  import opened Dom
  import opened Roles

  // ---------------------------------------------------------------------
  // addWechatClasses

  /** The class list after `element.className = ...`: a mapped tag's list is replaced outright. */
  function ReplacedClasses(tag: string, classes: seq<string>, children: seq<Node>): (r: seq<string>)
    ensures RoleClass(tag).Some? && tag != "pre" ==> r == [RoleClass(tag).value]
    ensures tag == "pre" && IsCodeBlockPre(children) ==> r == [CodeBlockClass]
    ensures RoleClass(tag).None? && !(tag == "pre" && IsCodeBlockPre(children)) ==> r == classes
  {
    if tag == "pre" then
      (if IsCodeBlockPre(children) then [CodeBlockClass] else classes)
    else
      match RoleClass(tag)
      case Some(role) => [role]
      case None => classes
  }

  /** The element `processElement` leaves behind. */
  function Classify(n: Node): Node
    decreases n
  {
    match n
    case Element(t, cls, a, cs) =>
      Element(t, ReplacedClasses(t, cls, cs), a, seq(|cs|, i requires 0 <= i < |cs| => Classify(cs[i])))
    case _ => n
  }

  /** `processElement`: set the class name, then process every child element in order. */
  method ProcessElement(n: Node) returns (r: Node)
    ensures r == Classify(n)
    decreases n
  {
    if !n.Element? {
      return n;
    }
    var classes := ReplacedClasses(n.tag, n.classes, n.children);
    var cs := n.children;
    var out: seq<Node> := [];
    var i := 0;
    while i < |cs|
      invariant 0 <= i <= |cs|
      invariant out == seq(i, k requires 0 <= k < i => Classify(cs[k]))
    {
      var c := ProcessElement(cs[i]);
      out := out + [c];
      i := i + 1;
    }
    r := Element(n.tag, classes, n.attrs, out);
  }

  /** The element nodes of a node list, in order (`children` as opposed to `childNodes`). */
  function ElementsOf(ns: seq<Node>): (r: seq<Node>)
    ensures |r| <= |ns|
    ensures forall x :: x in r <==> x in ns && x.Element?
  {
    if ns == [] then []
    else (if ns[0].Element? then [ns[0]] else []) + ElementsOf(ns[1..])
  }

  /** The container `addWechatClasses` returns for a body with child nodes `body`. */
  function WrapBody(body: seq<Node>): Node {
    var elems := ElementsOf(body);
    Element("div", [ArticleClass], map[],
      if elems != [] then seq(|elems|, i requires 0 <= i < |elems| => Classify(elems[i])) else body)
  }

  /**
    `addWechatClasses` after parsing: every element child of the body is
    processed and copied into the container; a body without element children
    has its nodes copied as they are.
   */
  method AddWechatClasses(body: seq<Node>) returns (container: Node)
    ensures container == WrapBody(body)
  {
    var elems := ElementsOf(body);
    var out: seq<Node> := [];
    if |elems| > 0 {
      var i := 0;
      while i < |elems|
        invariant 0 <= i <= |elems|
        invariant out == seq(i, k requires 0 <= k < i => Classify(elems[k]))
      {
        var c := ProcessElement(elems[i]);
        out := out + [c];
        i := i + 1;
      }
    } else {
      out := body;
    }
    container := Element("div", [ArticleClass], map[], out);
  }

  /** Processing changes class lists only. */
  lemma {:induction false} ClassifyOnlyClasses(n: Node)
    ensures StripClasses(Classify(n)) == StripClasses(n)
    decreases n
  {
    if n.Element? {
      forall i | 0 <= i < |n.children| { ClassifyOnlyClasses(n.children[i]); }
    }
  }

  /** Processing twice gives what processing once gives. */
  lemma {:induction false} ClassifyIdempotent(n: Node)
    ensures Classify(Classify(n)) == Classify(n)
    decreases n
  {
    if n.Element? {
      var cs := n.children;
      forall i | 0 <= i < |cs| { ClassifyIdempotent(cs[i]); }
      ClassifyOnlyClasses(n);
      SameButClasses(n, Classify(n), "code");
      assert IsCodeBlockPre(Classify(n).children) == IsCodeBlockPre(cs);
    }
  }

  /** Earlier classes on a mapped element are lost: its list is exactly its role class. */
  lemma MappedClassesReplaced(t: string, cls: seq<string>, a: map<string, string>, cs: seq<Node>)
    requires t in MappedTags
    ensures Classify(Element(t, cls, a, cs)).classes == [RoleClass(t).value]
    ensures forall c :: c in cls && c != RoleClass(t).value ==> c !in Classify(Element(t, cls, a, cs)).classes
  {
    assert t != "pre";
    var r := Classify(Element(t, cls, a, cs));
    assert r.classes == ReplacedClasses(t, cls, cs);
  }

  /** The result is exactly one `div.wechat-article` whose content is the processed body. */
  lemma WrapBodyShape(body: seq<Node>)
    ensures var c := WrapBody(body);
      c.Element? && c.tag == "div" && c.classes == [ArticleClass] &&
      (ElementsOf(body) != [] ==>
         |c.children| == |ElementsOf(body)| &&
         forall i :: 0 <= i < |c.children| ==>
           (c.children[i] == Classify(ElementsOf(body)[i]) &&
            StripClasses(c.children[i]) == StripClasses(ElementsOf(body)[i]))) &&
      (ElementsOf(body) == [] ==> c.children == body)
  {
    var elems := ElementsOf(body);
    forall i | 0 <= i < |elems| { ClassifyOnlyClasses(elems[i]); }
  }

  /** Text directly under the body is dropped as soon as the body has an element child. */
  lemma WrapBodyDropsText(body: seq<Node>)
    requires ElementsOf(body) != []
    ensures forall x :: x in WrapBody(body).children ==> x.Element?
  {
    var elems := ElementsOf(body);
    forall x | x in WrapBody(body).children ensures x.Element? {
      var i :| 0 <= i < |elems| && x == Classify(elems[i]);
      assert elems[i] in elems;
    }
  }

  // ---------------------------------------------------------------------
  // cleanHtml

  /** The element with its `style` attribute removed at every level. */
  function CleanStyles(n: Node): Node
    decreases n
  {
    match n
    case Element(t, cls, a, cs) =>
      Element(t, cls, a - {"style"}, seq(|cs|, i requires 0 <= i < |cs| => CleanStyles(cs[i])))
    case _ => n
  }

  /** No element of the tree has a `style` attribute. */
  predicate NoStyle(n: Node)
    decreases n
  {
    n.Element? ==> "style" !in n.attrs && forall i :: 0 <= i < |n.children| ==> NoStyle(n.children[i])
  }

  /** `removeInlineStyles`: remove the attribute, then visit every child element. */
  method RemoveInlineStyles(n: Node) returns (r: Node)
    ensures r == CleanStyles(n)
    decreases n
  {
    if !n.Element? {
      return n;
    }
    var attrs := n.attrs - {"style"};
    var cs := n.children;
    var out: seq<Node> := [];
    var i := 0;
    while i < |cs|
      invariant 0 <= i <= |cs|
      invariant out == seq(i, k requires 0 <= k < i => CleanStyles(cs[k]))
    {
      var c := RemoveInlineStyles(cs[i]);
      out := out + [c];
      i := i + 1;
    }
    r := Element(n.tag, n.classes, attrs, out);
  }

  /** `cleanHtml` after parsing: every top-level node cleaned (the body's own style is not serialised). */
  function CleanBody(body: seq<Node>): seq<Node> {
    seq(|body|, i requires 0 <= i < |body| => CleanStyles(body[i]))
  }

  /** Cleaning leaves no `style` anywhere. */
  lemma {:induction false} CleanStylesNoStyle(n: Node)
    ensures NoStyle(CleanStyles(n))
    decreases n
  {
    if n.Element? {
      forall i | 0 <= i < |n.children| { CleanStylesNoStyle(n.children[i]); }
    }
  }

  /** Cleaning changes nothing on a tree without a `style` attribute: it removes that and nothing else. */
  lemma {:induction false} CleanStylesOnlyStyle(n: Node)
    requires NoStyle(n)
    ensures CleanStyles(n) == n
    decreases n
  {
    if n.Element? {
      var cs := n.children;
      forall i | 0 <= i < |cs| { CleanStylesOnlyStyle(cs[i]); }
      assert n.attrs - {"style"} == n.attrs;
      assert seq(|cs|, i requires 0 <= i < |cs| => CleanStyles(cs[i])) == cs;
    }
  }

  /** Processing adds no `style`, so the cleaned and classed tree stays style-free. */
  lemma {:induction false} ClassifyKeepsNoStyle(n: Node)
    requires NoStyle(n)
    ensures NoStyle(Classify(n))
    decreases n
  {
    if n.Element? {
      forall i | 0 <= i < |n.children| { ClassifyKeepsNoStyle(n.children[i]); }
    }
  }

  // ---------------------------------------------------------------------
  // convertMarkdownToHtml: the list-grouping loop

  datatype ListKind = Ul | Ol

  function KindName(k: ListKind): string {
    match k
    case Ul => "ul"
    case Ol => "ol"
  }

  function OpenTag(k: ListKind): string { "<" + KindName(k) + ">" }
  function CloseTag(k: ListKind): string { "</" + KindName(k) + ">" }

  /** `/^[\*\-\+] (.*)$/`: a bullet, one space, then the rest of a single line as the item text. */
  function UlMatch(line: string): (r: Option<string>)
    ensures r.Some? <==> |line| >= 2 && line[0] in "*-+" && line[1] == ' ' && NoLineTerminator(line[2..])
    ensures r.Some? ==> r.value == line[2..]
  {
    if |line| >= 2 && line[0] in "*-+" && line[1] == ' ' && NoLineTerminator(line[2..]) then Some(line[2..])
    else None
  }

  /** Length of the run of decimal digits that starts `s`. */
  function LeadingDigits(s: string): (k: nat)
    ensures k <= |s| && (forall j :: 0 <= j < k ==> IsDigit(s[j])) && (k < |s| ==> !IsDigit(s[k]))
  {
    if s != [] && IsDigit(s[0]) then 1 + LeadingDigits(s[1..]) else 0
  }

  /** `/^\d+\. (.*)$/` read without backtracking: the maximal digit run, `". "`, then one line. */
  function OlMatch(line: string): Option<string> {
    var k := LeadingDigits(line);
    if 1 <= k && k + 2 <= |line| && line[k] == '.' && line[k + 1] == ' ' && NoLineTerminator(line[k + 2..])
    then Some(line[k + 2..])
    else None
  }

  /** The regular expression's own reading: some split of the line into digits, `". "` and a rest. */
  predicate OlShape(line: string, k: nat) {
    1 <= k && k + 2 <= |line| && (forall j :: 0 <= j < k ==> IsDigit(line[j])) &&
    line[k] == '.' && line[k + 1] == ' ' && NoLineTerminator(line[k + 2..])
  }

  /** Matching the maximal digit run loses no match the backtracking regular expression would find. */
  lemma OlMatchIff(line: string)
    ensures OlMatch(line).Some? <==> exists k: nat :: OlShape(line, k)
    ensures forall k: nat :: OlShape(line, k) ==> OlMatch(line) == Some(line[k + 2..])
  {
    var d := LeadingDigits(line);
    if OlMatch(line).Some? {
      assert OlShape(line, d);
    }
    forall k: nat | OlShape(line, k) ensures OlMatch(line) == Some(line[k + 2..]) {
      if d < k { assert false; }
      if d > k { assert false; }
    }
  }

  /** `/^<[^>]+>$/`: a line that is a single tag. */
  predicate IsLoneTag(line: string) {
    |line| >= 3 && line[0] == '<' && line[|line| - 1] == '>' &&
    forall i :: 1 <= i < |line| - 1 ==> line[i] != '>'
  }

  /** A line outside any list: wrapped in `<p>` unless blank or a lone tag. */
  function PlainLine(line: string): string {
    if Trim(line) != "" && !IsLoneTag(line) then "<p>" + line + "</p>" else line
  }

  /** A line as the loop sees it: an item of a list kind with its text, or a line outside any list. */
  datatype LineClass = Item(kind: ListKind, text: string) | Plain(out: string)

  /** The `ul` test is made first, so a line is an `ol` item only when it is not a `ul` item. */
  function ClassifyLine(line: string): (r: LineClass)
    ensures r.Item? && r.kind == Ul <==> UlMatch(line).Some?
    ensures r.Item? && r.kind == Ol <==> UlMatch(line).None? && OlMatch(line).Some?
    ensures r.Plain? ==> r.out == PlainLine(line)
  {
    match UlMatch(line)
    case Some(t) => Item(Ul, t)
    case None =>
      match OlMatch(line)
      case Some(t) => Item(Ol, t)
      case None => Plain(PlainLine(line))
  }

  function Tokens(lines: seq<string>): seq<LineClass> {
    seq(|lines|, i requires 0 <= i < |lines| => ClassifyLine(lines[i]))
  }

  function ItemLine(t: string): string { "<li>" + t + "</li>" }

  /** One iteration of the loop: the lines pushed and the list left open afterwards. */
  function Emit(open: Option<ListKind>, tok: LineClass): (seq<string>, Option<ListKind>) {
    match tok
    case Item(k, t) =>
      var start := if open == Some(k) then [] else (if open.Some? then [CloseTag(open.value)] else []) + [OpenTag(k)];
      (start + [ItemLine(t)], Some(k))
    case Plain(out) =>
      ((if open.Some? then [CloseTag(open.value)] else []) + [out], None)
  }

  /** The lines the loop pushes from state `open` on, including the final close. */
  function Grouped(open: Option<ListKind>, toks: seq<LineClass>): seq<string>
    decreases |toks|
  {
    if toks == [] then (if open.Some? then [CloseTag(open.value)] else [])
    else
      var (out, next) := Emit(open, toks[0]);
      out + Grouped(next, toks[1..])
  }

  predicate IsItemOf(k: ListKind, tok: LineClass) {
    tok.Item? && tok.kind == k
  }

  /** How many lines at the start of `toks` are items of kind `k`. */
  function RunLength(k: ListKind, toks: seq<LineClass>): (n: nat)
    ensures n <= |toks|
    ensures forall i :: 0 <= i < n ==> IsItemOf(k, toks[i])
    ensures n < |toks| ==> !IsItemOf(k, toks[n])
  {
    if toks != [] && IsItemOf(k, toks[0]) then 1 + RunLength(k, toks[1..]) else 0
  }

  function Items(toks: seq<LineClass>): seq<string> {
    seq(|toks|, i requires 0 <= i < |toks| => ItemLine(if toks[i].Item? then toks[i].text else ""))
  }

  /**
    The reference reading of list grouping: each maximal run of items of one
    kind becomes one list, `<ul>`/`<ol>` then its items then the close; every
    other line stands alone.
   */
  function RenderTokens(toks: seq<LineClass>): seq<string>
    decreases |toks|
  {
    if toks == [] then []
    else
      match toks[0]
      case Plain(out) => [out] + RenderTokens(toks[1..])
      case Item(k, _) =>
        var n := RunLength(k, toks);
        [OpenTag(k)] + Items(toks[..n]) + [CloseTag(k)] + RenderTokens(toks[n..])
  }

  function Render(lines: seq<string>): seq<string> {
    RenderTokens(Tokens(lines))
  }

  lemma ItemsCons(toks: seq<LineClass>, m: nat)
    requires m + 1 <= |toks| && toks[0].Item?
    ensures Items(toks[..m + 1]) == [ItemLine(toks[0].text)] + Items(toks[1..][..m])
  {
    assert toks[1..][..m] == toks[1..m + 1];
  }

  /** From a closed state the loop produces the reference grouping. */
  lemma {:induction false} GroupedClosed(toks: seq<LineClass>)
    ensures Grouped(None, toks) == RenderTokens(toks)
    decreases |toks|, 0
  {
    if toks != [] {
      var rest := toks[1..];
      GroupedUnfold(None, toks);
      match toks[0]
      case Plain(_) =>
        GroupedClosed(rest);
      case Item(k, t) =>
        GroupedOpen(k, rest);
        var m := RunLength(k, rest);
        assert RunLength(k, toks) == m + 1;
        ItemsCons(toks, m);
        assert toks[m + 1..] == rest[m..];
        assert Emit(None, toks[0]).0 == [OpenTag(k)] + [ItemLine(t)];
        Regroup([OpenTag(k)], [ItemLine(t)], Items(rest[..m]), [CloseTag(k)], RenderTokens(rest[m..]));
    }
  }

  /** The concatenations of both readings, regrouped. */
  lemma Regroup(o: seq<string>, a: seq<string>, x: seq<string>, c: seq<string>, r: seq<string>)
    ensures o + a + (x + c + r) == o + (a + x) + c + r
    ensures a + (x + c + r) == (a + x) + c + r
  {
  }

  /**
    With a `k` list open, the loop adds the run of `k` items, closes the list
    (before a line of the other kind or a plain line, or at the end), and
    carries on as from a closed state.
   */
  lemma {:induction false} GroupedOpen(k: ListKind, toks: seq<LineClass>)
    ensures var n := RunLength(k, toks);
      Grouped(Some(k), toks) == Items(toks[..n]) + [CloseTag(k)] + RenderTokens(toks[n..])
    decreases |toks|, 1
  {
    if toks != [] {
      var rest := toks[1..];
      if IsItemOf(k, toks[0]) {
        GroupedOpen(k, rest);
        var m := RunLength(k, rest);
        assert RunLength(k, toks) == m + 1;
        ItemsCons(toks, m);
        assert toks[m + 1..] == rest[m..];
        GroupedUnfold(Some(k), toks);
        assert Emit(Some(k), toks[0]).0 == [ItemLine(toks[0].text)];
        Regroup([], [ItemLine(toks[0].text)], Items(rest[..m]), [CloseTag(k)], RenderTokens(rest[m..]));
      } else {
        assert RunLength(k, toks) == 0;
        assert toks[..0] == [] && toks[0..] == toks;
        GroupedClosed(toks);
        GroupedSwitch(k, toks);
      }
    }
  }

  /** A line that does not continue the open list closes it; then the loop runs as from a closed state. */
  lemma GroupedSwitch(k: ListKind, toks: seq<LineClass>)
    requires toks != [] && !IsItemOf(k, toks[0])
    ensures Grouped(Some(k), toks) == [CloseTag(k)] + Grouped(None, toks)
  {
  }

  function StateOf(inList: bool, listType: string): Option<ListKind> {
    if !inList then None else if listType == "ul" then Some(Ul) else Some(Ol)
  }

  lemma GroupedUnfold(open: Option<ListKind>, toks: seq<LineClass>)
    requires toks != []
    ensures Grouped(open, toks) == Emit(open, toks[0]).0 + Grouped(Emit(open, toks[0]).1, toks[1..])
  {
  }

  /** The body of the loop for one line: the lines it pushes and the new `inList`/`listType`. */
  method GroupLine(inList: bool, listType: string, line: string)
    returns (pushed: seq<string>, inList': bool, listType': string)
    requires !inList ==> listType == ""
    requires inList ==> listType == "ul" || listType == "ol"
    ensures !inList' ==> listType' == ""
    ensures inList' ==> listType' == "ul" || listType' == "ol"
    ensures pushed == Emit(StateOf(inList, listType), ClassifyLine(line)).0
    ensures StateOf(inList', listType') == Emit(StateOf(inList, listType), ClassifyLine(line)).1
  {
    var ulMatch := UlMatch(line);
    var olMatch := OlMatch(line);
    if ulMatch.Some? {
      pushed, inList', listType' := ItemStep(inList, listType, Ul, ulMatch.value);
    } else if olMatch.Some? {
      pushed, inList', listType' := ItemStep(inList, listType, Ol, olMatch.value);
    } else {
      pushed, inList', listType' := PlainStep(inList, listType, line);
    }
  }

  /** The state variables name the open list: `listType` is its tag name. */
  lemma StateName(inList: bool, listType: string)
    requires !inList ==> listType == ""
    requires inList ==> listType == "ul" || listType == "ol"
    ensures StateOf(inList, listType).Some? <==> inList
    ensures inList ==> KindName(StateOf(inList, listType).value) == listType
    ensures inList ==> CloseTag(StateOf(inList, listType).value) == "</" + listType + ">"
  {
  }

  /** A `ul` or `ol` line: close a list of the other kind, open one of this kind unless it is open, then push the item. */
  method ItemStep(inList: bool, listType: string, k: ListKind, text: string)
    returns (pushed: seq<string>, inList': bool, listType': string)
    requires !inList ==> listType == ""
    requires inList ==> listType == "ul" || listType == "ol"
    ensures inList' && listType' == KindName(k) && StateOf(inList', listType') == Some(k)
    ensures pushed == Emit(StateOf(inList, listType), Item(k, text)).0
  {
    StateName(inList, listType);
    var name := KindName(k);
    pushed := [];
    inList', listType' := inList, listType;
    if !inList || listType != name {
      if inList { pushed := pushed + ["</" + listType + ">"]; }
      pushed := pushed + ["<" + name + ">"];
      inList', listType' := true, name;
    }
    pushed := pushed + ["<li>" + text + "</li>"];
  }

  /** Any other line: close the open list, then push the line, wrapped in `<p>` unless blank or a lone tag. */
  method PlainStep(inList: bool, listType: string, line: string)
    returns (pushed: seq<string>, inList': bool, listType': string)
    requires !inList ==> listType == ""
    requires inList ==> listType == "ul" || listType == "ol"
    ensures !inList' && listType' == ""
    ensures pushed == Emit(StateOf(inList, listType), Plain(PlainLine(line))).0
  {
    StateName(inList, listType);
    pushed := [];
    inList', listType' := inList, listType;
    if inList {
      pushed := pushed + ["</" + listType + ">"];
      inList', listType' := false, "";
    }
    var out := if Trim(line) != "" && !IsLoneTag(line) then "<p>" + line + "</p>" else line;
    assert out == PlainLine(line);
    pushed := pushed + [out];
  }

  /** The `for` loop of `convertMarkdownToHtml` with its two state variables `inList` and `listType`. */
  method GroupListLines(lines: seq<string>) returns (processed: seq<string>)
    ensures processed == Render(lines)
  {
    ghost var toks := Tokens(lines);
    var inList := false;
    var listType := "";
    processed := [];
    var i := 0;
    while i < |lines|
      invariant 0 <= i <= |lines|
      invariant !inList ==> listType == ""
      invariant inList ==> listType == "ul" || listType == "ol"
      invariant processed + Grouped(StateOf(inList, listType), toks[i..]) == Grouped(None, toks)
    {
      ghost var open := StateOf(inList, listType);
      var pushed;
      pushed, inList, listType := GroupLine(inList, listType, lines[i]);
      GroupStep(open, toks, i, processed, pushed, StateOf(inList, listType));
      processed := processed + pushed;
      i := i + 1;
    }
    ghost var open := StateOf(inList, listType);
    if inList {
      CloseTagText(listType);
      processed := processed + ["</" + listType + ">"];
    }
    GroupEnd(open, toks, if inList then [CloseTag(open.value)] else [], processed);
  }

  /** One turn of the loop keeps its invariant. */
  lemma GroupStep(open: Option<ListKind>, toks: seq<LineClass>, i: nat, processed: seq<string>,
                  pushed: seq<string>, next: Option<ListKind>)
    requires i < |toks|
    requires processed + Grouped(open, toks[i..]) == Grouped(None, toks)
    requires pushed == Emit(open, toks[i]).0 && next == Emit(open, toks[i]).1
    ensures (processed + pushed) + Grouped(next, toks[i + 1..]) == Grouped(None, toks)
  {
    assert toks[i..][1..] == toks[i + 1..];
    GroupedUnfold(open, toks[i..]);
  }

  /** After the last line only the final close remains. */
  lemma GroupEnd(open: Option<ListKind>, toks: seq<LineClass>, close: seq<string>, processed: seq<string>)
    requires close == (if open.Some? then [CloseTag(open.value)] else [])
    requires |processed| >= |close| && processed[..|processed| - |close|] + Grouped(open, toks[|toks|..]) == Grouped(None, toks)
    requires processed[|processed| - |close|..] == close
    ensures processed == RenderTokens(toks)
  {
    assert toks[|toks|..] == [];
    assert processed == processed[..|processed| - |close|] + close;
    GroupedClosed(toks);
  }

  lemma CloseTagText(listType: string)
    requires listType == "ul" || listType == "ol"
    ensures "</" + listType + ">" == CloseTag(StateOf(true, listType).value)
  {
  }

  lemma {:induction false} RenderAllPlain(toks: seq<LineClass>)
    requires forall i :: 0 <= i < |toks| ==> toks[i].Plain?
    ensures RenderTokens(toks) == seq(|toks|, i requires 0 <= i < |toks| => toks[i].out)
    decreases |toks|
  {
    if toks != [] {
      RenderAllPlain(toks[1..]);
    }
  }

  /** Without list items every line is passed through `PlainLine` on its own. */
  lemma RenderNoLists(lines: seq<string>)
    requires forall i :: 0 <= i < |lines| ==> ClassifyLine(lines[i]).Plain?
    ensures Render(lines) == seq(|lines|, i requires 0 <= i < |lines| => PlainLine(lines[i]))
  {
    RenderAllPlain(Tokens(lines));
  }

  /** Two items of different kinds next to each other: the first list is closed before the second opens. */
  lemma SwitchClosesFirst(a: string, b: string)
    requires UlMatch(a).Some? && UlMatch(b).None? && OlMatch(b).Some?
    ensures Render([a, b]) ==
      ["<ul>", ItemLine(UlMatch(a).value), "</ul>", "<ol>", ItemLine(OlMatch(b).value), "</ol>"]
  {
    var toks := Tokens([a, b]);
    assert OpenTag(Ul) == "<ul>" && CloseTag(Ul) == "</ul>" && OpenTag(Ol) == "<ol>" && CloseTag(Ol) == "</ol>";
    assert toks == [Item(Ul, UlMatch(a).value), Item(Ol, OlMatch(b).value)];
    assert toks[1..] == [Item(Ol, OlMatch(b).value)];
    assert RunLength(Ul, toks) == 1;
    assert RunLength(Ol, toks[1..]) == 1;
    assert toks[..1] == [Item(Ul, UlMatch(a).value)];
    assert toks[1..][..1] == toks[1..] && toks[1..][1..] == [];
    assert RenderTokens(toks[1..]) == [OpenTag(Ol), ItemLine(OlMatch(b).value), CloseTag(Ol)];
    assert RenderTokens(toks) == [OpenTag(Ul), ItemLine(UlMatch(a).value), CloseTag(Ul)] + RenderTokens(toks[1..]);
  }

  /** The whole conversion: inline rewrites, split into lines, list grouping, join. */
  function ConvertMarkdown(markdown: string, inline: string -> string): string {
    Join(Render(Split(inline(markdown), '\n')), '\n')
  }

  method ConvertMarkdownToHtml(markdown: string, inline: string -> string) returns (html: string)
    ensures html == ConvertMarkdown(markdown, inline)
  {
    var lines := Split(inline(markdown), '\n');
    var processed := GroupListLines(lines);
    html := Join(processed, '\n');
  }

  // ---------------------------------------------------------------------
  // processContent

  /** `processContent`: convert (markdown only), then `cleanHtml`, then `addWechatClasses`. */
  method ProcessContent(content: string, isMarkdown: bool, inline: string -> string,
                        parse: string -> seq<Node>, serialize: seq<Node> -> string)
    returns (html: string)
    ensures var source := if isMarkdown then ConvertMarkdown(content, inline) else content;
      html == serialize([WrapBody(parse(serialize(CleanBody(parse(source)))))])
  {
    html := content;
    if isMarkdown {
      html := ConvertMarkdownToHtml(content, inline);
    }
    var body := parse(html);
    var cleaned: seq<Node> := [];
    var i := 0;
    while i < |body|
      invariant 0 <= i <= |body|
      invariant cleaned == seq(i, k requires 0 <= k < i => CleanStyles(body[k]))
    {
      var c := RemoveInlineStyles(body[i]);
      cleaned := cleaned + [c];
      i := i + 1;
    }
    html := serialize(cleaned);
    var container := AddWechatClasses(parse(html));
    html := serialize([container]);
  }

  /**
    When parsing gives back what was serialised, the output is the cleaned and
    classed tree in one container, and no element in it has a `style`.
   */
  lemma ProcessedHasNoStyle(source: string, parse: string -> seq<Node>, serialize: seq<Node> -> string)
    requires forall ns :: parse(serialize(ns)) == ns
    ensures parse(serialize(CleanBody(parse(source)))) == CleanBody(parse(source))
    ensures NoStyle(WrapBody(CleanBody(parse(source))))
  {
    var body := CleanBody(parse(source));
    forall i | 0 <= i < |body| ensures NoStyle(body[i]) {
      CleanStylesNoStyle(parse(source)[i]);
    }
    var elems := ElementsOf(body);
    forall i | 0 <= i < |elems| ensures NoStyle(Classify(elems[i])) {
      assert elems[i] in body;
      ClassifyKeepsNoStyle(elems[i]);
    }
  }
}
