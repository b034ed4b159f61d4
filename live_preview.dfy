/**
  The live-preview annotator of the editor panel (`applyWechatClasses` with
  its inner walk `addClassesToElements`): the `.markdown-body` container of
  the preview gains `wechat-article`, and every element below it gains its
  role class through `classList.add`, so classes already present are kept.

  The tree is a value here: `Annotate` is the element the walk leaves
  behind and `Walk` is the recursive walk, a loop over the children proved to
  produce exactly that element.
 */
module LivePreview {
  import opened Wrappers
  import opened Strings
  import opened Dom
  import opened Roles

  /** The classes an element of tag `tag` ends up with; `pre` follows the code-block rule. */
  function LiveClasses(tag: string, classes: seq<string>, children: seq<Node>): (r: seq<string>)
    ensures classes <= r && |r| <= |classes| + 1
  {
    if tag == "pre" then
      (if IsCodeBlockPre(children) then AddClass(classes, CodeBlockClass) else classes)
    else
      match RoleClass(tag)
      case Some(role) => AddClass(classes, role)
      case None => classes
  }

  /** The element the walk leaves behind; text and comment nodes are not elements and stay as they are. */
  function Annotate(n: Node): Node
    decreases n
  {
    match n
    case Element(t, cls, a, cs) =>
      Element(t, LiveClasses(t, cls, cs), a, seq(|cs|, i requires 0 <= i < |cs| => Annotate(cs[i])))
    case _ => n
  }

  /** `addClassesToElements`: add the role class, then walk every child element in order. */
  method Walk(n: Node) returns (r: Node)
    ensures r == Annotate(n)
    decreases n
  {
    if !n.Element? {
      return n;
    }
    var classes := LiveClasses(n.tag, n.classes, n.children);
    var cs := n.children;
    var out: seq<Node> := [];
    var i := 0;
    while i < |cs|
      invariant 0 <= i <= |cs|
      invariant out == seq(i, k requires 0 <= k < i => Annotate(cs[k]))
    {
      var c := Walk(cs[i]);
      out := out + [c];
      i := i + 1;
    }
    r := Element(n.tag, classes, n.attrs, out);
  }

  /** The container step: `wechat-article` is added if absent, the container's own tag is not looked at. */
  function AnnotateContainer(c: Node): (r: Node)
    requires c.Element?
  {
    Element(c.tag, AddClass(c.classes, ArticleClass), c.attrs,
            seq(|c.children|, i requires 0 <= i < |c.children| => Annotate(c.children[i])))
  }

  /**
    `applyWechatClasses` once the preview's `.markdown-body` container has
    been looked up: nothing happens when there is none.
   */
  method ApplyWechatClasses(container: Option<Node>) returns (r: Option<Node>)
    requires container.Some? ==> container.value.Element?
    ensures r.Some? <==> container.Some?
    ensures container.Some? ==> r.value == AnnotateContainer(container.value)
  {
    if container.None? {
      return None;
    }
    var c := container.value;
    var cs := c.children;
    var out: seq<Node> := [];
    var i := 0;
    while i < |cs|
      invariant 0 <= i <= |cs|
      invariant out == seq(i, k requires 0 <= k < i => Annotate(cs[k]))
    {
      var w := Walk(cs[i]);
      out := out + [w];
      i := i + 1;
    }
    r := Some(Element(c.tag, AddClass(c.classes, ArticleClass), c.attrs, out));
  }

  /** The walk rewrites class lists only: tags, attributes, text and the shape are kept. */
  lemma {:induction false} AnnotateOnlyClasses(n: Node)
    ensures StripClasses(Annotate(n)) == StripClasses(n)
    decreases n
  {
    if n.Element? {
      forall i | 0 <= i < |n.children| { AnnotateOnlyClasses(n.children[i]); }
    }
  }

  /** A class list the walk leaves alone. */
  predicate ClassesComplete(tag: string, classes: seq<string>, children: seq<Node>) {
    (tag == "pre" && IsCodeBlockPre(children) ==> CodeBlockClass in classes) &&
    (tag != "pre" && RoleClass(tag).Some? ==> RoleClass(tag).value in classes)
  }

  /** Every element of the tree carries a complete class list. */
  predicate WellAnnotated(n: Node)
    decreases n
  {
    n.Element? ==>
      ClassesComplete(n.tag, n.classes, n.children) &&
      forall i :: 0 <= i < |n.children| ==> WellAnnotated(n.children[i])
  }

  /** Each element's class step changes nothing exactly when its list is already complete. */
  lemma LiveClassesFixedIff(tag: string, classes: seq<string>, children: seq<Node>)
    ensures LiveClasses(tag, classes, children) == classes <==> ClassesComplete(tag, classes, children)
  {
    if tag != "pre" && RoleClass(tag).Some? {
      assert RoleClass(tag).value in AddClass(classes, RoleClass(tag).value);
    }
  }

  /** The walk leaves a tree unchanged exactly when every element in it is already annotated. */
  lemma {:induction false} AnnotateFixedIff(n: Node)
    ensures Annotate(n) == n <==> WellAnnotated(n)
    decreases n
  {
    if n.Element? {
      var cs := n.children;
      forall i | 0 <= i < |cs| { AnnotateFixedIff(cs[i]); }
      LiveClassesFixedIff(n.tag, n.classes, cs);
      if Annotate(n) == n {
        forall i | 0 <= i < |cs| ensures Annotate(cs[i]) == cs[i] {
          assert Annotate(n).children[i] == Annotate(cs[i]);
        }
      }
    }
  }

  /** The walk is idempotent: a second pass (the observer and the timer re-run it) adds nothing. */
  lemma {:induction false} AnnotateIdempotent(n: Node)
    ensures Annotate(Annotate(n)) == Annotate(n)
    decreases n
  {
    if n.Element? {
      var cs := n.children;
      var a := Annotate(n);
      forall i | 0 <= i < |cs| { AnnotateIdempotent(cs[i]); }
      AnnotateOnlyClasses(n);
      SameButClasses(n, a, "code");
      var classes := LiveClasses(n.tag, n.classes, cs);
      if n.tag == "pre" {
        assert IsCodeBlockPre(a.children) == IsCodeBlockPre(cs);
      }
      assert LiveClasses(n.tag, classes, a.children) == classes;
    }
  }

  /** A second run of the whole container step changes nothing. */
  lemma ContainerIdempotent(c: Node)
    requires c.Element?
    ensures AnnotateContainer(AnnotateContainer(c)) == AnnotateContainer(c)
  {
    var cs := c.children;
    forall i | 0 <= i < |cs| { AnnotateIdempotent(cs[i]); }
  }

  /** Every element of an annotated tree is complete, so every descendant was reached. */
  lemma AnnotateWellAnnotated(n: Node)
    ensures WellAnnotated(Annotate(n))
  {
    AnnotateIdempotent(n);
    AnnotateFixedIff(Annotate(n));
  }

  /** The container gains `wechat-article` once and keeps its classes; its own tag earns no role class. */
  lemma ContainerClasses(c: Node)
    requires c.Element?
    ensures ArticleClass in c.classes ==> AnnotateContainer(c).classes == c.classes
    ensures ArticleClass !in c.classes ==> AnnotateContainer(c).classes == c.classes + [ArticleClass]
  {
  }

  /** A `pre` gains the code-block class exactly when it holds `code` or non-blank text. */
  lemma PreRule(classes: seq<string>, cs: seq<Node>)
    requires CodeBlockClass !in classes
    ensures CodeBlockClass in Annotate(Element("pre", classes, map[], cs)).classes <==>
      (HasDescendantTag(cs, "code") || !AllSpace(TextContentAll(cs)))
  {
    TrimEmptyIffAllSpace(TextContentAll(cs));
  }
}
