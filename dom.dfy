/**
  The explicit document tree the transforms work on, standing for the
  browser DOM the source walks: elements with a lower-case tag name, a class
  list (the `class` attribute read as `classList`), the other attributes, and
  child nodes; text nodes; comment nodes. Together with the DOM queries the
  source uses (`textContent`, `classList`, `querySelector`,
  `getAttribute`/`setAttribute`/`removeAttribute`).
 */
module Dom {
  import opened Strings
  import opened Wrappers
  import Lists

  datatype Node =
    | Element(tag: string, classes: seq<string>, attrs: map<string, string>, children: seq<Node>)
    | Text(data: string)
    | Comment(data: string)

  /** `textContent`: the text of every descendant text node, in document order. */
  function TextContent(n: Node): string
    decreases n, 1
  {
    match n
    case Element(_, _, _, cs) => TextContentAll(cs)
    case Text(d) => d
    case Comment(_) => ""
  }

  function TextContentAll(ns: seq<Node>): string
    decreases ns, 0
  {
    if ns == [] then "" else TextContent(ns[0]) + TextContentAll(ns[1..])
  }

  lemma {:induction false} TextContentAllConcat(a: seq<Node>, b: seq<Node>)
    ensures TextContentAll(a + b) == TextContentAll(a) + TextContentAll(b)
  {
    if a != [] {
      assert (a + b)[1..] == a[1..] + b;
      TextContentAllConcat(a[1..], b);
    } else {
      assert a + b == b;
    }
  }

  predicate HasClass(n: Node, c: string) {
    n.Element? && c in n.classes
  }

  /** `classList.add(c)`: appends `c` unless it is already present. */
  function AddClass(cs: seq<string>, c: string): (r: seq<string>)
    ensures c in r
    ensures c in cs ==> r == cs
    ensures c !in cs ==> r == cs + [c]
  {
    if c in cs then cs else cs + [c]
  }

  /** The test `x !== c`, as a value to filter with. */
  function Other(c: string): string -> bool {
    (x: string) => x != c
  }

  /** `classList.remove(c)`: removes every occurrence of `c`; the other classes keep their order. */
  function RemoveClass(cs: seq<string>, c: string): (r: seq<string>)
    ensures c !in r
    ensures forall x :: x in r <==> x in cs && x != c
    ensures r == Lists.Filter(cs, Other(c))
  {
    if cs == [] then []
    else if cs[0] == c then RemoveClass(cs[1..], c)
    else [cs[0]] + RemoveClass(cs[1..], c)
  }

  /** `getAttribute(name) || ''`. */
  function GetAttr(n: Node, name: string): string {
    if n.Element? && name in n.attrs then n.attrs[name] else ""
  }

  /** `element.querySelector(tag) !== null` over the children of an element. */
  predicate HasDescendantTag(ns: seq<Node>, tag: string)
    decreases ns
  {
    exists i :: 0 <= i < |ns| && ns[i].Element? &&
      (ns[i].tag == tag || HasDescendantTag(ns[i].children, tag))
  }

  /** Lists whose nodes carry the same text position by position carry the same text. */
  lemma {:induction false} TextContentAllPointwise(a: seq<Node>, b: seq<Node>)
    requires |a| == |b| && forall i :: 0 <= i < |a| ==> TextContent(a[i]) == TextContent(b[i])
    ensures TextContentAll(a) == TextContentAll(b)
    decreases |a|
  {
    if a != [] {
      TextContentAllPointwise(a[1..], b[1..]);
    }
  }

  /** The `style` attribute, `''` when there is none. */
  function StyleOf(attrs: map<string, string>): string {
    if "style" in attrs then attrs["style"] else ""
  }

  /** Every node of a list in document order: each node, then its descendants, then its later siblings. */
  function Preorder(ns: seq<Node>): seq<Node>
    decreases ns
  {
    if ns == [] then []
    else [ns[0]] + ((if ns[0].Element? then Preorder(ns[0].children) else []) + Preorder(ns[1..]))
  }

  /** The first node in document order satisfying `p` is the head, or the first below it, or the first after it. */
  lemma PreorderFind(ns: seq<Node>, p: Node -> bool)
    requires ns != []
    ensures Lists.Find(Preorder(ns), p) ==
      if p(ns[0]) then Some(ns[0])
      else
        var inner := if ns[0].Element? then Lists.Find(Preorder(ns[0].children), p) else None;
        if inner.Some? then inner else Lists.Find(Preorder(ns[1..]), p)
  {
    var below := if ns[0].Element? then Preorder(ns[0].children) else [];
    Lists.FindCons(ns[0], below, Preorder(ns[1..]), p);
    if !ns[0].Element? {
      assert Lists.Find(below, p).None?;
    }
  }

  /** Carrying class `c`, as a value to search with. */
  function ClassIs(c: string): Node -> bool {
    (n: Node) => HasClass(n, c)
  }

  /** Being an element with tag `tag`, as a value to search with. */
  function TagIs(tag: string): Node -> bool {
    (n: Node) => n.Element? && n.tag == tag
  }

  predicate IsElement(n: Node) {
    n.Element?
  }

  /** `querySelector('.c')` over a list of nodes: the first element in document order carrying `c`. */
  function FindWithClass(ns: seq<Node>, c: string): (r: Option<Node>)
    ensures r.Some? ==> HasClass(r.value, c)
    decreases ns
  {
    if ns == [] then None
    else if HasClass(ns[0], c) then Some(ns[0])
    else
      var inner := if ns[0].Element? then FindWithClass(ns[0].children, c) else None;
      if inner.Some? then inner else FindWithClass(ns[1..], c)
  }

  /** `querySelector('.c')` finds the first node carrying `c` in document order. */
  lemma {:induction false} FindWithClassFirst(ns: seq<Node>, c: string)
    ensures FindWithClass(ns, c) == Lists.Find(Preorder(ns), ClassIs(c))
    decreases ns
  {
    if ns != [] {
      PreorderFind(ns, ClassIs(c));
      if ns[0].Element? {
        FindWithClassFirst(ns[0].children, c);
      }
      FindWithClassFirst(ns[1..], c);
    }
  }

  /** `querySelector(tag)` over a list of nodes: the first element in document order with that tag. */
  function FindTag(ns: seq<Node>, tag: string): (r: Option<Node>)
    ensures r.Some? ==> r.value.Element? && r.value.tag == tag
    ensures r.None? ==> !HasDescendantTag(ns, tag)
    decreases ns
  {
    if ns == [] then None
    else if ns[0].Element? && ns[0].tag == tag then Some(ns[0])
    else
      var inner := if ns[0].Element? then FindTag(ns[0].children, tag) else None;
      if inner.Some? then inner
      else
        var rest := FindTag(ns[1..], tag);
        assert rest.None? ==> forall i :: 1 <= i < |ns| ==> ns[i] == ns[1..][i - 1];
        rest
  }

  /** `querySelector(tag)` finds the first element with the tag in document order. */
  lemma {:induction false} FindTagFirst(ns: seq<Node>, tag: string)
    ensures FindTag(ns, tag) == Lists.Find(Preorder(ns), TagIs(tag))
    decreases ns
  {
    if ns != [] {
      PreorderFind(ns, TagIs(tag));
      if ns[0].Element? {
        FindTagFirst(ns[0].children, tag);
      }
      FindTagFirst(ns[1..], tag);
    }
  }

  /** `setAttribute(name, value)` on an element. */
  function SetAttr(n: Node, name: string, value: string): (r: Node)
    requires n.Element?
    ensures r.Element? && r.tag == n.tag && r.classes == n.classes && r.children == n.children
    ensures r.attrs == n.attrs[name := value]
  {
    n.(attrs := n.attrs[name := value])
  }

  /** `firstElementChild` of a node list. */
  function FirstElement(ns: seq<Node>): (r: Option<Node>)
    ensures r.Some? ==> r.value.Element? && r.value in ns
    ensures r.None? ==> forall i :: 0 <= i < |ns| ==> !ns[i].Element?
  {
    if ns == [] then None
    else if ns[0].Element? then Some(ns[0])
    else FirstElement(ns[1..])
  }

  /** `firstElementChild` is the first entry of the list that is an element. */
  lemma {:induction false} FirstElementFirst(ns: seq<Node>)
    ensures FirstElement(ns) == Lists.Find(ns, IsElement)
  {
    if ns != [] {
      assert ns == [ns[0]] + ns[1..];
      Lists.FindConcat([ns[0]], ns[1..], IsElement);
      Lists.FindSingleton(ns[0], IsElement);
      FirstElementFirst(ns[1..]);
    }
  }

  /** Every element of the tree satisfies `p` (used to state "the walk reached it"). */
  predicate AllElements(n: Node, p: Node -> bool)
    decreases n
  {
    n.Element? ==> p(n) && forall i :: 0 <= i < |n.children| ==> AllElements(n.children[i], p)
  }

  /** Same shape: the same node kinds, tags and text at every position. */
  predicate SameShape(a: Node, b: Node)
    decreases a
  {
    match a
    case Element(t, _, _, cs) =>
      b.Element? && b.tag == t && |b.children| == |cs| &&
      forall i :: 0 <= i < |cs| ==> SameShape(cs[i], b.children[i])
    case Text(d) => b == Text(d)
    case Comment(d) => b == Comment(d)
  }

  /** Two trees of the same shape carry the same text. */
  lemma {:induction false} SameShapeText(a: Node, b: Node)
    requires SameShape(a, b)
    ensures TextContent(a) == TextContent(b)
    decreases a
  {
    if a.Element? {
      SameShapeTextAll(a.children, b.children);
    }
  }

  lemma {:induction false} SameShapeTextAll(a: seq<Node>, b: seq<Node>)
    requires |a| == |b| && forall i :: 0 <= i < |a| ==> SameShape(a[i], b[i])
    ensures TextContentAll(a) == TextContentAll(b)
    decreases a
  {
    if a != [] {
      SameShapeText(a[0], b[0]);
      SameShapeTextAll(a[1..], b[1..]);
    }
  }

  /** The tree with every class list emptied: what a class-only rewrite must leave alone. */
  function StripClasses(n: Node): Node
    decreases n
  {
    match n
    case Element(t, _, a, cs) => Element(t, [], a, seq(|cs|, i requires 0 <= i < |cs| => StripClasses(cs[i])))
    case _ => n
  }

  /** Class lists carry no text. */
  lemma {:induction false} StripClassesText(n: Node)
    ensures TextContent(StripClasses(n)) == TextContent(n)
    decreases n, 1
  {
    if n.Element? {
      StripClassesTextAll(n.children);
    }
  }

  lemma {:induction false} StripClassesTextAll(ns: seq<Node>)
    ensures TextContentAll(seq(|ns|, i requires 0 <= i < |ns| => StripClasses(ns[i]))) == TextContentAll(ns)
    decreases ns, 0
  {
    var s := seq(|ns|, i requires 0 <= i < |ns| => StripClasses(ns[i]));
    if ns != [] {
      StripClassesText(ns[0]);
      StripClassesTextAll(ns[1..]);
      assert s[1..] == seq(|ns[1..]|, i requires 0 <= i < |ns[1..]| => StripClasses(ns[1..][i]));
    }
  }

  /** Class lists do not change which tags occur below a node. */
  lemma {:induction false} StripClassesTags(ns: seq<Node>, tag: string)
    ensures HasDescendantTag(seq(|ns|, i requires 0 <= i < |ns| => StripClasses(ns[i])), tag) == HasDescendantTag(ns, tag)
    decreases ns
  {
    var s := seq(|ns|, i requires 0 <= i < |ns| => StripClasses(ns[i]));
    forall i | 0 <= i < |ns| && ns[i].Element?
      ensures HasDescendantTag(s[i].children, tag) == HasDescendantTag(ns[i].children, tag)
    {
      StripClassesTags(ns[i].children, tag);
    }
  }

  /** Two trees that differ at most in their class lists have the same text and the same tags. */
  lemma SameButClasses(a: Node, b: Node, tag: string)
    requires StripClasses(a) == StripClasses(b) && a.Element?
    ensures b.Element? && TextContent(a) == TextContent(b)
    ensures HasDescendantTag(a.children, tag) == HasDescendantTag(b.children, tag)
  {
    StripClassesText(a);
    StripClassesText(b);
    StripClassesTags(a.children, tag);
    StripClassesTags(b.children, tag);
  }
}
