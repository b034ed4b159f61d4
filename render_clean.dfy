/**
  The last step of the WeChat rendering pipeline, `cleanHtmlForTest`: the
  tree is rebuilt keeping only elements whose tag is on a fixed list. A
  kept element is a shallow copy (tag, classes and attributes) holding its
  text children and its cleaned element children, in order; an element whose
  tag is not listed is dropped together with everything below it, and
  comments are dropped. A kept element left with no children while it had
  text gets that text back as its only child.
 */
module RenderClean {
  import opened Wrappers
  import opened Strings
  import opened Dom

  const AllowedTags: set<string> := {
    "section", "div", "p", "h1", "h2", "h3", "h4", "h5", "h6",
    "ul", "ol", "li", "blockquote", "img", "hr",
    "strong", "em", "a", "br", "span", "pre", "code", "table", "thead", "tbody", "tr", "th", "td"}

  /** `cleanElement`: `None` for an element whose tag is not allowed. */
  function CleanElement(n: Node): (r: Option<Node>)
    requires n.Element?
    decreases n, 1
  {
    if n.tag !in AllowedTags then None
    else
      var kids := CleanKids(n.children);
      if kids == [] && TextContent(n) != "" then Some(Element(n.tag, n.classes, n.attrs, [Text(TextContent(n))]))
      else Some(Element(n.tag, n.classes, n.attrs, kids))
  }

  /** The cleaned copy of one child: a text node as it is, an element cleaned, a comment dropped. */
  function CleanChild(n: Node): (r: seq<Node>)
    decreases n, 2
  {
    match n
    case Text(_) => [n]
    case Comment(_) => []
    case Element(_, _, _, _) => (match CleanElement(n) case Some(e) => [e] case None => [])
  }

  /** The children a kept element is rebuilt with, in order. */
  function CleanKids(ns: seq<Node>): (r: seq<Node>)
    decreases ns, 0
  {
    if ns == [] then [] else CleanChild(ns[0]) + CleanKids(ns[1..])
  }

  /** The output shape: only allowed elements, and below them only text and allowed elements. */
  predicate Sanitized(n: Node)
    decreases n
  {
    match n
    case Text(_) => true
    case Comment(_) => false
    case Element(t, _, _, cs) => t in AllowedTags && forall i :: 0 <= i < |cs| ==> Sanitized(cs[i])
  }

  predicate AllSanitized(ns: seq<Node>) {
    forall i :: 0 <= i < |ns| ==> Sanitized(ns[i])
  }

  lemma SanitizedConcat(a: seq<Node>, b: seq<Node>)
    requires AllSanitized(a) && AllSanitized(b)
    ensures AllSanitized(a + b)
  {
  }

  /** The rebuilt children work sibling by sibling. */
  lemma {:induction false} CleanKidsConcat(a: seq<Node>, b: seq<Node>)
    ensures CleanKids(a + b) == CleanKids(a) + CleanKids(b)
  {
    if a == [] {
      assert a + b == b;
    } else {
      assert (a + b)[1..] == a[1..] + b;
      CleanKidsConcat(a[1..], b);
    }
  }

  /** An element is dropped exactly when its tag is not allowed; a kept one keeps its tag, classes and attributes. */
  lemma CleanElementKeeps(n: Node)
    requires n.Element?
    ensures CleanElement(n).None? <==> n.tag !in AllowedTags
    ensures CleanElement(n).Some? ==>
      var e := CleanElement(n).value;
      e.Element? && e.tag == n.tag && e.classes == n.classes && e.attrs == n.attrs
  {
  }

  /** Whatever the cleaning keeps is sanitized. */
  lemma {:induction false} CleanElementSanitized(n: Node)
    requires n.Element? && CleanElement(n).Some?
    ensures Sanitized(CleanElement(n).value)
    decreases n, 1
  {
    CleanKidsSanitized(n.children);
  }

  lemma {:induction false} CleanKidsSanitized(ns: seq<Node>)
    ensures AllSanitized(CleanKids(ns))
    decreases ns, 0
  {
    if ns != [] {
      if ns[0].Element? && CleanElement(ns[0]).Some? {
        CleanElementSanitized(ns[0]);
      }
      CleanKidsSanitized(ns[1..]);
      SanitizedConcat(CleanChild(ns[0]), CleanKids(ns[1..]));
    }
  }

  /** A sanitized tree comes out of the cleaning unchanged. */
  lemma {:induction false} CleanElementIdle(n: Node)
    requires n.Element? && Sanitized(n)
    ensures CleanElement(n) == Some(n)
    decreases n, 1
  {
    CleanKidsIdle(n.children);
    if n.children == [] {
      assert TextContent(n) == "";
    }
  }

  lemma {:induction false} CleanKidsIdle(ns: seq<Node>)
    requires AllSanitized(ns)
    ensures CleanKids(ns) == ns
    decreases ns, 0
  {
    if ns != [] {
      if ns[0].Element? {
        CleanElementIdle(ns[0]);
      }
      CleanKidsIdle(ns[1..]);
      assert ns == [ns[0]] + ns[1..];
    }
  }

  /** The cleaning fixes an element exactly when it is sanitized. */
  lemma CleanElementFixedIff(n: Node)
    requires n.Element?
    ensures CleanElement(n) == Some(n) <==> Sanitized(n)
  {
    if CleanElement(n) == Some(n) {
      CleanElementSanitized(n);
    }
    if Sanitized(n) {
      CleanElementIdle(n);
    }
  }

  /** Cleaning twice is cleaning once. */
  lemma CleanElementIdempotent(n: Node)
    requires n.Element? && CleanElement(n).Some?
    ensures CleanElement(CleanElement(n).value) == CleanElement(n)
  {
    CleanElementSanitized(n);
    CleanElementIdle(CleanElement(n).value);
  }

  /** Every element of the tree has an allowed tag. */
  predicate AllAllowed(n: Node)
    decreases n
  {
    n.Element? ==> n.tag in AllowedTags && forall i :: 0 <= i < |n.children| ==> AllAllowed(n.children[i])
  }

  /** When nothing is dropped but comments, the text of the tree is kept. */
  lemma {:induction false} CleanElementText(n: Node)
    requires n.Element? && AllAllowed(n)
    ensures TextContent(CleanElement(n).value) == TextContent(n)
    decreases n, 1
  {
    CleanKidsText(n.children);
  }

  lemma {:induction false} CleanKidsText(ns: seq<Node>)
    requires forall i :: 0 <= i < |ns| ==> AllAllowed(ns[i])
    ensures TextContentAll(CleanKids(ns)) == TextContentAll(ns)
    decreases ns, 0
  {
    if ns != [] {
      CleanKidsText(ns[1..]);
      TextContentAllConcat(CleanChild(ns[0]), CleanKids(ns[1..]));
      var c := CleanChild(ns[0]);
      if ns[0].Element? {
        CleanElementText(ns[0]);
        assert TextContentAll(c) == TextContent(c[0]) + TextContentAll([]);
      } else if ns[0].Text? {
        assert TextContentAll(c) == TextContent(c[0]) + TextContentAll([]);
      }
    }
  }

  /** An element whose children are all dropped gets back the text they held, as one text node. */
  lemma DroppedText(t: string, x: string)
    requires t !in AllowedTags && x != ""
    ensures CleanElement(Element("p", [], map[], [Element(t, [], map[], [Text(x)])])) ==
      Some(Element("p", [], map[], [Text(x)]))
  {
    var inner := Element(t, [], map[], [Text(x)]);
    var p := Element("p", [], map[], [inner]);
    assert CleanElement(inner).None?;
    assert CleanKids([inner]) == CleanChild(inner) + CleanKids([]);
    assert CleanKids(p.children) == [];
    assert TextContent(inner) == x by {
      assert TextContentAll([Text(x)]) == x + TextContentAll([]);
    }
    assert TextContent(p) == x by {
      assert TextContentAll([inner]) == TextContent(inner) + TextContentAll([]);
    }
    assert "p" in AllowedTags;
  }

  /**
    `cleanElement` written as the source writes it: the children are walked
    in a loop, appending what each one yields to the new element.
   */
  method CleanElementLoop(n: Node) returns (r: Option<Node>)
    requires n.Element?
    ensures r == CleanElement(n)
    decreases n
  {
    if n.tag !in AllowedTags {
      return None;
    }
    var cs := n.children;
    var kids: seq<Node> := [];
    var i := 0;
    while i < |cs|
      invariant 0 <= i <= |cs|
      invariant CleanKids(cs) == kids + CleanKids(cs[i..])
    {
      var add: seq<Node> := [];
      if cs[i].Text? {
        add := [cs[i]];
      } else if cs[i].Element? {
        var cleaned := CleanElementLoop(cs[i]);
        if cleaned.Some? {
          add := [cleaned.value];
        }
      }
      assert add == CleanChild(cs[i]);
      assert CleanKids(cs[i..]) == CleanChild(cs[i]) + CleanKids(cs[i + 1..]) by {
        assert cs[i..][1..] == cs[i + 1..];
      }
      kids := kids + add;
      i := i + 1;
    }
    assert cs[i..] == [];
    assert kids == CleanKids(n.children);
    var text := TextContent(n);
    if kids == [] && text != "" {
      r := Some(Element(n.tag, n.classes, n.attrs, [Text(text)]));
    } else {
      r := Some(Element(n.tag, n.classes, n.attrs, kids));
    }
  }

  /**
    `cleanHtmlForTest(element)`: the children of the cleaned element, or
    of the element itself when it is dropped.
   */
  function CleanHtml(root: Node): (r: seq<Node>)
    requires root.Element?
  {
    match CleanElement(root)
    case Some(e) => e.children
    case None => root.children
  }

  /** The pipeline cleans a `div`, which is always kept: its output is sanitized. */
  lemma CleanHtmlDiv(cs: seq<Node>)
    ensures var r := CleanHtml(Element("div", [], map[], cs));
      AllSanitized(r) && (AllSanitized(cs) ==> r == cs)
  {
    var root := Element("div", [], map[], cs);
    CleanElementSanitized(root);
    if AllSanitized(cs) {
      CleanElementIdle(root);
    }
  }
}
