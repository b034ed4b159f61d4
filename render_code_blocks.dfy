/**
  The code-block step of the WeChat rendering pipeline (the `forEach` over
  `pre.wechat-article-code-block` in `testWechatRender`): every such `pre`
  becomes a styled `section` holding one `div` per line of its code text,
  followed by a zero-height separator paragraph.

  The document order of `querySelectorAll` matters: an outer block is
  replaced first, so a block nested inside it is only ever rewritten inside
  the detached original and never reaches the output. The pass therefore
  does not look below a converted block.
 */
module CodeBlocks {
  import opened Wrappers
  import opened Strings
  import opened Dom
  import opened Roles

  /** The text `&nbsp;` stands for. */
  const Nbsp: string := "\U{A0}"
  const SectionStyle: string := "background:#f6f8fa;padding:12px;border-radius:6px;margin:16px 0;"
  const LinesStyle: string := "font-family:Menlo,monospace;font-size:14px;line-height:1.4;"
  const SeparatorStyle: string := "margin:0;" + "height:0" + ";" + "overflow:hidden" + ";"

  /** The zero-height paragraph inserted after each converted block. */
  const Separator: Node := Element("p", [], map["style" := SeparatorStyle], [Text(Nbsp)])

  /** What `pre.wechat-article-code-block` selects. */
  predicate IsCodeBlock(n: Node) {
    n.Element? && n.tag == "pre" && CodeBlockClass in n.classes
  }

  /** `textContent` of each element child (`pre.children`), in order. */
  function ElementTexts(ns: seq<Node>): (r: seq<string>)
    ensures r == [] <==> forall i :: 0 <= i < |ns| ==> !ns[i].Element?
  {
    if ns == [] then []
    else (if ns[0].Element? then [TextContent(ns[0])] else []) + ElementTexts(ns[1..])
  }

  /**
    The code text of a block: the text of its first `code` descendant, or of
    the whole `pre` when there is none; when that is empty and the `pre` has
    element children, their texts joined by newlines.
   */
  function CodeText(pre: Node): string
    requires pre.Element?
  {
    var t := match FindTag(pre.children, "code")
      case Some(code) => TextContent(code)
      case None => TextContent(pre);
    if t == "" && ElementTexts(pre.children) != [] then Join(ElementTexts(pre.children), '\n') else t
  }

  /** One line of code: an empty line shows as `&nbsp;`, any other keeps its text verbatim. */
  function LineDiv(line: string): Node {
    Element("div", [], map[], [Text(if line == "" then Nbsp else line)])
  }

  function LineDivs(lines: seq<string>): (r: seq<Node>)
    ensures |r| == |lines|
  {
    seq(|lines|, i requires 0 <= i < |lines| => LineDiv(lines[i]))
  }

  /** The line `div`s of a code text. */
  function CodeLines(code: string): (r: seq<Node>)
    ensures |r| == |Split(code, '\n')|
  {
    LineDivs(Split(code, '\n'))
  }

  /** The `section` a block is replaced by. */
  function CodeSection(pre: Node): Node
    requires pre.Element?
  {
    Element("section", [], map["style" := SectionStyle],
      [Element("div", [], map["style" := LinesStyle], CodeLines(CodeText(pre)))])
  }

  /** Building the section: one inner `div` appended per line of the split code text. */
  method BuildSection(pre: Node) returns (section: Node)
    requires pre.Element?
    ensures section == CodeSection(pre)
  {
    var codeText := CodeText(pre);
    var lines := Split(codeText, '\n');
    var divs: seq<Node> := [];
    var i := 0;
    while i < |lines|
      invariant 0 <= i <= |lines|
      invariant divs == seq(i, k requires 0 <= k < i => LineDiv(lines[k]))
    {
      var inner: Node;
      if lines[i] == "" {
        inner := Element("div", [], map[], [Text(Nbsp)]);
      } else {
        inner := Element("div", [], map[], [Text(lines[i])]);
      }
      divs := divs + [inner];
      i := i + 1;
    }
    var outer := Element("div", [], map["style" := LinesStyle], divs);
    section := Element("section", [], map["style" := SectionStyle], [outer]);
  }

  /** The pass on one node: a block becomes its section and the separator. */
  function ConvertNode(n: Node): (r: seq<Node>)
    decreases n, 1
  {
    if IsCodeBlock(n) then [CodeSection(n), Separator]
    else match n
      case Element(t, c, a, cs) => [Element(t, c, a, ConvertAll(cs))]
      case _ => [n]
  }

  /** The pass over a list of sibling nodes, in document order. */
  function ConvertAll(ns: seq<Node>): (r: seq<Node>)
    decreases ns, 0
  {
    if ns == [] then [] else ConvertNode(ns[0]) + ConvertAll(ns[1..])
  }

  /** The pass works sibling by sibling. */
  lemma {:induction false} ConvertAllConcat(a: seq<Node>, b: seq<Node>)
    ensures ConvertAll(a + b) == ConvertAll(a) + ConvertAll(b)
    decreases a
  {
    if a == [] {
      assert a + b == b;
    } else {
      assert (a + b)[1..] == a[1..] + b;
      ConvertAllConcat(a[1..], b);
    }
  }

  /** Two adjacent blocks come out as two sections, each followed by its own separator. */
  lemma AdjacentBlocksSeparated(p1: Node, p2: Node)
    requires IsCodeBlock(p1) && IsCodeBlock(p2)
    ensures ConvertAll([p1, p2]) == [CodeSection(p1), Separator, CodeSection(p2), Separator]
  {
    assert [p1, p2][1..] == [p2];
    assert ConvertAll([p2]) == ConvertNode(p2) + ConvertAll([]);
  }

  /** No code block is left anywhere in a node list. */
  predicate NoBlocks(ns: seq<Node>)
    decreases ns
  {
    forall i :: 0 <= i < |ns| ==> !IsCodeBlock(ns[i]) && (ns[i].Element? ==> NoBlocks(ns[i].children))
  }

  lemma NoBlocksConcat(a: seq<Node>, b: seq<Node>)
    requires NoBlocks(a) && NoBlocks(b)
    ensures NoBlocks(a + b)
  {
    forall i | 0 <= i < |a + b|
      ensures !IsCodeBlock((a + b)[i]) && ((a + b)[i].Element? ==> NoBlocks((a + b)[i].children))
    {
      if i >= |a| { assert (a + b)[i] == b[i - |a|]; }
    }
  }

  /** A section built from a block holds no block. */
  lemma SectionNoBlocks(pre: Node)
    requires pre.Element?
    ensures NoBlocks([CodeSection(pre), Separator])
  {
    var divs := CodeLines(CodeText(pre));
    assert forall i :: 0 <= i < |divs| ==> NoBlocks(divs[i].children);
    assert NoBlocks(divs);
    assert NoBlocks(CodeSection(pre).children);
  }

  /** After the pass no block is left at any depth. */
  lemma {:induction false} ConvertNodeNoBlocks(n: Node)
    ensures NoBlocks(ConvertNode(n))
    decreases n, 1
  {
    if IsCodeBlock(n) {
      SectionNoBlocks(n);
    } else if n.Element? {
      ConvertAllNoBlocks(n.children);
    }
  }

  lemma {:induction false} ConvertAllNoBlocks(ns: seq<Node>)
    ensures NoBlocks(ConvertAll(ns))
    decreases ns, 0
  {
    if ns != [] {
      ConvertNodeNoBlocks(ns[0]);
      ConvertAllNoBlocks(ns[1..]);
      NoBlocksConcat(ConvertNode(ns[0]), ConvertAll(ns[1..]));
    }
  }

  /** A list without blocks passes unchanged. */
  lemma {:induction false} ConvertAllIdle(ns: seq<Node>)
    requires NoBlocks(ns)
    ensures ConvertAll(ns) == ns
    decreases ns
  {
    if ns != [] {
      assert NoBlocks(ns[1..]) by {
        forall i | 0 <= i < |ns[1..]| ensures !IsCodeBlock(ns[1..][i]) && (ns[1..][i].Element? ==> NoBlocks(ns[1..][i].children)) {
          assert ns[1..][i] == ns[i + 1];
        }
      }
      ConvertAllIdle(ns[1..]);
      if ns[0].Element? {
        ConvertAllIdle(ns[0].children);
      }
      assert ns == [ns[0]] + ns[1..];
    }
  }

  /** The pass changes a list exactly when some block is left in it. */
  lemma ConvertAllFixedIff(ns: seq<Node>)
    ensures ConvertAll(ns) == ns <==> NoBlocks(ns)
  {
    ConvertAllNoBlocks(ns);
    if NoBlocks(ns) { ConvertAllIdle(ns); }
  }

  /** Running the pass twice is running it once. */
  lemma ConvertAllIdempotent(ns: seq<Node>)
    ensures ConvertAll(ConvertAll(ns)) == ConvertAll(ns)
  {
    ConvertAllNoBlocks(ns);
    ConvertAllIdle(ConvertAll(ns));
  }

  /**
    The lines of a converted block: one `div` per piece of the code text split
    at `\n` (so one more than there are newlines), an empty piece shown as
    `&nbsp;` and every other piece verbatim; the pieces joined by `\n` give the
    code text back.
   */
  lemma CodeLinesText(code: string)
    ensures var divs := CodeLines(code);
      var lines := Split(code, '\n');
      |divs| == CountChar(code, '\n') + 1 &&
      (forall i :: 0 <= i < |divs| ==> TextContent(divs[i]) == if lines[i] == "" then Nbsp else lines[i]) &&
      Join(lines, '\n') == code
  {
    var lines := Split(code, '\n');
    var divs := CodeLines(code);
    SplitCount(code, '\n');
    JoinSplit(code, '\n');
    forall i | 0 <= i < |divs| ensures TextContent(divs[i]) == if lines[i] == "" then Nbsp else lines[i] {
      assert divs[i] == LineDiv(lines[i]);
      assert TextContentAll(divs[i].children) == TextContent(divs[i].children[0]) + TextContentAll([]);
    }
  }

  /**
    The last line: a code text that is empty or ends in a newline ends with an
    `&nbsp;` line; any other ends with its own, non-empty, last line.
   */
  lemma LastLine(code: string)
    ensures var divs := CodeLines(code);
      var last := TextContent(divs[|divs| - 1]);
      (code == "" || code[|code| - 1] == '\n' ==> last == Nbsp) &&
      (code != "" && code[|code| - 1] != '\n' ==> last != "" && last == Split(code, '\n')[|divs| - 1])
  {
    var lines := Split(code, '\n');
    var divs := CodeLines(code);
    var n := |divs|;
    assert n == |lines|;
    assert lines[n - 1] == "" <==> (code == "" || code[|code| - 1] == '\n') by {
      SplitLastEmpty(code, '\n');
    }
    var last := TextContent(divs[n - 1]);
    assert last == if lines[n - 1] == "" then Nbsp else lines[n - 1] by {
      CodeLinesText(code);
    }
    assert Nbsp != "";
  }

  /** With a non-empty `code` descendant, the code text is that element's text. */
  lemma CodeTextFromCode(pre: Node, code: Node)
    requires pre.Element? && FindTag(pre.children, "code") == Some(code) && TextContent(code) != ""
    ensures CodeText(pre) == TextContent(code)
  {
  }

  /** A `pre` without `code` and without text, but with element children, gets one line per child. */
  lemma EmptyPreLines(pre: Node)
    requires pre.Element? && FindTag(pre.children, "code").None? && TextContent(pre) == ""
    requires ElementTexts(pre.children) != []
    ensures |CodeLines(CodeText(pre))| == |ElementTexts(pre.children)|
  {
    var ts := ElementTexts(pre.children);
    EmptyTexts(pre.children);
    JoinEmptyCount(ts);
    SplitCount(Join(ts, '\n'), '\n');
  }

  /** Every element child of a text-less list is text-less. */
  lemma {:induction false} EmptyTexts(ns: seq<Node>)
    requires TextContentAll(ns) == ""
    ensures forall i :: 0 <= i < |ElementTexts(ns)| ==> ElementTexts(ns)[i] == ""
    decreases ns
  {
    if ns != [] {
      assert TextContentAll(ns) == TextContent(ns[0]) + TextContentAll(ns[1..]);
      EmptyTexts(ns[1..]);
    }
  }

  /** Empty pieces joined by newlines hold one newline fewer than there are pieces. */
  lemma {:induction false} JoinEmptyCount(ts: seq<string>)
    requires ts != [] && forall i :: 0 <= i < |ts| ==> ts[i] == ""
    ensures CountChar(Join(ts, '\n'), '\n') + 1 == |ts|
    decreases |ts|
  {
    if |ts| > 1 {
      JoinEmptyCount(ts[1..]);
      assert Join(ts, '\n') == ['\n'] + Join(ts[1..], '\n');
    }
  }
}
