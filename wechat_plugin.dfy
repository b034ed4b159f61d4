/**
  The rehype plugin that tags the rendered markdown with `wechat-article-*`
  role classes before the preview is shown (`wechatArticlePlugin`).

  The plugin's `visit` rewrites `properties.className` of every element in
  place and then recurses into the children. Here the tree is a value:
  `Annotate` is the tree the walk leaves behind, and `Visit` is the walk
  itself, a loop over the children proved to produce exactly that tree.
 */
module WechatPlugin {
  import opened Wrappers
  import opened Strings
  import opened Dom
  import opened Roles
  import opened Hast

  /**
    The class list an element of (lower-case) tag `tag` ends up with when it
    had `prior`: the role class is appended unless present, then a
    `markdown-body` div gains `wechat-article` unless present.
   */
  function AnnotatedClasses(tag: string, prior: seq<string>): (r: seq<string>)
    ensures prior <= r && |r| <= |prior| + 2
    ensures forall x :: x in r ==> x in prior || Some(x) == RoleClass(tag) || x == ArticleClass
  {
    var afterSwitch := match RoleClass(tag)
      case Some(role) => AddClass(prior, role)
      case None => prior;
    if tag == "div" && MarkdownBodyClass in afterSwitch then AddClass(afterSwitch, ArticleClass)
    else afterSwitch
  }

  /** The tree left behind by the walk. */
  function Annotate(n: HNode): HNode
    decreases n
  {
    match n
    case HLeaf(_, _) => n
    case HRoot(cs) => HRoot(seq(|cs|, i requires 0 <= i < |cs| => Annotate(cs[i])))
    case HElement(t, cn, src, cs) =>
      HElement(t, Many(AnnotatedClasses(ToLower(t), ClassList(cn))), src,
               seq(|cs|, i requires 0 <= i < |cs| => Annotate(cs[i])))
  }

  /** `visit`: rewrite the node's class list, then visit every child in order. */
  method Visit(node: HNode) returns (r: HNode)
    ensures r == Annotate(node)
    decreases node
  {
    if node.HLeaf? {
      return node;
    }
    var cs := node.children;
    var out: seq<HNode> := [];
    var i := 0;
    while i < |cs|
      invariant 0 <= i <= |cs|
      invariant out == seq(i, k requires 0 <= k < i => Annotate(cs[k]))
    {
      var c := Visit(cs[i]);
      out := out + [c];
      i := i + 1;
    }
    if node.HRoot? {
      r := HRoot(out);
    } else {
      var tag := ToLower(node.tagName);
      r := HElement(node.tagName, Many(AnnotatedClasses(tag, ClassList(node.className))), node.src, out);
    }
  }

  /** A class list the walk leaves alone: role present, and `wechat-article` beside a `markdown-body`. */
  predicate ClassesComplete(tag: string, xs: seq<string>) {
    (RoleClass(tag).Some? ==> RoleClass(tag).value in xs) &&
    (tag == "div" && MarkdownBodyClass in xs ==> ArticleClass in xs)
  }

  /** Every element carries an array class list that is complete for its tag. */
  predicate WellAnnotated(n: HNode)
    decreases n
  {
    match n
    case HLeaf(_, _) => true
    case HRoot(cs) => forall i :: 0 <= i < |cs| ==> WellAnnotated(cs[i])
    case HElement(t, cn, _, cs) =>
      cn.Many? && ClassesComplete(ToLower(t), cn.names) &&
      forall i :: 0 <= i < |cs| ==> WellAnnotated(cs[i])
  }

  /** The class-list step changes a list exactly when the list is not yet complete. */
  lemma AnnotatedClassesFixedIff(tag: string, xs: seq<string>)
    ensures AnnotatedClasses(tag, xs) == xs <==> ClassesComplete(tag, xs)
  {
    var r := AnnotatedClasses(tag, xs);
    if r == xs {
      match RoleClass(tag)
      case Some(role) => assert role in AddClass(xs, role);
      case None =>
    }
  }

  /** The class-list step yields a complete list. */
  lemma AnnotatedClassesComplete(tag: string, xs: seq<string>)
    ensures ClassesComplete(tag, AnnotatedClasses(tag, xs))
  {
    var r := AnnotatedClasses(tag, xs);
    match RoleClass(tag)
    case Some(role) => assert role in AddClass(xs, role);
    case None =>
  }

  /** The class-list step is idempotent: each class is added at most once. */
  lemma AnnotatedClassesIdempotent(tag: string, xs: seq<string>)
    ensures AnnotatedClasses(tag, AnnotatedClasses(tag, xs)) == AnnotatedClasses(tag, xs)
  {
    AnnotatedClassesComplete(tag, xs);
    AnnotatedClassesFixedIff(tag, AnnotatedClasses(tag, xs));
  }

  /** A mapped tag gains its role class (for `ul` and `ol` the shared list class); other tags none. */
  lemma RoleAdded(tag: string, xs: seq<string>)
    ensures tag in MappedTags ==> RoleClass(tag).value in AnnotatedClasses(tag, xs)
    ensures tag in {"ul", "ol"} ==> "wechat-article-list" in AnnotatedClasses(tag, xs)
    ensures tag !in MappedTags && tag != "div" ==> AnnotatedClasses(tag, xs) == xs
  {
    AnnotatedClassesComplete(tag, xs);
  }

  /** A `markdown-body` div gains `wechat-article` exactly once; any other div is untouched. */
  lemma MarkdownBodyDiv(xs: seq<string>)
    ensures MarkdownBodyClass in xs && ArticleClass !in xs ==>
      AnnotatedClasses("div", xs) == xs + [ArticleClass]
    ensures MarkdownBodyClass !in xs || ArticleClass in xs ==> AnnotatedClasses("div", xs) == xs
  {
  }

  /** A string class name becomes the first entry of the new array; an array is kept as its prefix. */
  lemma PriorClassesKept(t: string, cn: ClassName, src: Option<string>, cs: seq<HNode>)
    ensures var r := Annotate(HElement(t, cn, src, cs));
      r.className.Many? &&
      (cn.Single? ==> |r.className.names| >= 1 && r.className.names[0] == cn.name) &&
      (cn.Many? ==> cn.names <= r.className.names)
  {
  }

  /** Running the walk twice gives the tree of running it once. */
  lemma {:induction false} AnnotateIdempotent(n: HNode)
    ensures Annotate(Annotate(n)) == Annotate(n)
    decreases n
  {
    match n
    case HLeaf(_, _) =>
    case HRoot(cs) =>
      forall i | 0 <= i < |cs| { AnnotateIdempotent(cs[i]); }
    case HElement(t, cn, src, cs) =>
      AnnotatedClassesIdempotent(ToLower(t), ClassList(cn));
      forall i | 0 <= i < |cs| { AnnotateIdempotent(cs[i]); }
  }

  /** The walk leaves a tree unchanged exactly when the tree is already well annotated. */
  lemma {:induction false} AnnotateFixedIff(n: HNode)
    ensures Annotate(n) == n <==> WellAnnotated(n)
    decreases n
  {
    match n
    case HLeaf(_, _) =>
    case HRoot(cs) =>
      forall i | 0 <= i < |cs| { AnnotateFixedIff(cs[i]); }
      if Annotate(n) == n {
        forall i | 0 <= i < |cs| ensures Annotate(cs[i]) == cs[i] {
          assert Annotate(n).children[i] == Annotate(cs[i]);
        }
      }
    case HElement(t, cn, src, cs) =>
      forall i | 0 <= i < |cs| { AnnotateFixedIff(cs[i]); }
      AnnotatedClassesFixedIff(ToLower(t), ClassList(cn));
      if Annotate(n) == n {
        forall i | 0 <= i < |cs| ensures Annotate(cs[i]) == cs[i] {
          assert Annotate(n).children[i] == Annotate(cs[i]);
        }
      }
  }

  /** Every element of the walked tree is well annotated. */
  lemma AnnotateWellAnnotated(n: HNode)
    ensures WellAnnotated(Annotate(n))
  {
    AnnotateIdempotent(n);
    AnnotateFixedIff(Annotate(n));
  }

  /** Everything but the class names, with every class name erased. */
  function EraseClasses(n: HNode): HNode
    decreases n
  {
    match n
    case HLeaf(_, _) => n
    case HRoot(cs) => HRoot(seq(|cs|, i requires 0 <= i < |cs| => EraseClasses(cs[i])))
    case HElement(t, _, src, cs) =>
      HElement(t, Absent, src, seq(|cs|, i requires 0 <= i < |cs| => EraseClasses(cs[i])))
  }

  /** The walk changes class names only: leaves, tags, `src` and the shape are untouched. */
  lemma {:induction false} AnnotateOnlyClasses(n: HNode)
    ensures EraseClasses(Annotate(n)) == EraseClasses(n)
    decreases n
  {
    match n
    case HLeaf(_, _) =>
    case HRoot(cs) =>
      forall i | 0 <= i < |cs| { AnnotateOnlyClasses(cs[i]); }
    case HElement(t, cn, src, cs) =>
      forall i | 0 <= i < |cs| { AnnotateOnlyClasses(cs[i]); }
  }
}
