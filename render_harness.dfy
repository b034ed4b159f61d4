/**
  The WeChat rendering pipeline as `testWechatRender` runs it on the
  preview's body: pick the article container, fetch and unscope the template
  CSS, inline it (a foreign step, passed in), convert code blocks, apply the
  structural transforms in their fixed order and rebuild the tree through
  the tag whitelist. Parsing and serialising HTML between the steps are not
  modelled: each step hands the next one its tree. Also the string helpers
  the tests check the output with: `countElements` and `hasSeparator`.
 */
module RenderHarness {
  import opened Wrappers
  import opened Strings
  import opened Dom
  import opened Roles
  import CodeBlocks
  import RenderTransforms
  import RenderClean
  import CssUnscope
  import TemplateStorage
  import WechatFormatter

  /**
    The article container: the first element carrying `wechat-article`, else
    the body's first element, given that class if it lacks it, else a new
    `div.wechat-article` holding the whole body.
   */
  function SelectArticle(body: seq<Node>): Node {
    match FindWithClass(body, ArticleClass)
    case Some(a) => a.(classes := AddClass(a.classes, ArticleClass))
    case None =>
      match FirstElement(body)
      case Some(e) => e.(classes := AddClass(e.classes, ArticleClass))
      case None => Element("div", [ArticleClass], map[], body)
  }

  /**
    The inliner (`juice` on the document built from the CSS and the article):
    the body's children it produced, or `None` when it throws.
   */
  type Inliner = (string, Node) -> Option<seq<Node>>

  /** The structural transforms in the order the pipeline runs them. */
  function Transform(n: Node): (r: Node)
    ensures n.Element? && n.tag == "div" ==> r.Element? && r.tag == "div"
  {
    RenderTransforms.Tasks(RenderTransforms.Lists(RenderTransforms.Rules(RenderTransforms.InlineCode(
      RenderTransforms.Quotes(RenderTransforms.Tables(RenderTransforms.Headings(n)))))))
  }

  /** `testWechatRender(html, templateId)` on the parsed body: the children of the cleaned result. */
  function Render(body: seq<Node>, templateId: Option<string>, templates: seq<TemplateStorage.Template>,
                  inline: Inliner): seq<Node>
  {
    var css := CssUnscope.Unscope(WechatFormatter.TemplateCss(templates, templateId));
    var article := SelectArticle(body);
    var inlined := match inline(css, article) case Some(ns) => ns case None => [article];
    Finish(inlined)
  }

  /** The steps after inlining: code blocks, the transforms on a wrapping `div`, then the whitelist. */
  function Finish(inlined: seq<Node>): seq<Node> {
    var coded := CodeBlocks.ConvertAll(inlined);
    var converted := Transform(Element("div", [], map[], coded));
    RenderClean.CleanHtml(converted)
  }

  /** The chosen container always carries `wechat-article`, so the re-annotation branch after it is never taken. */
  lemma SelectArticleMarked(body: seq<Node>)
    ensures SelectArticle(body).Element? && HasClass(SelectArticle(body), ArticleClass)
  {
    match FindWithClass(body, ArticleClass) {
      case Some(a) =>
      case None =>
        match FirstElement(body) {
          case Some(e) =>
          case None =>
        }
    }
  }

  /** A container already marked is taken as it is; without one, a body without elements is wrapped whole. */
  lemma SelectArticleCases(body: seq<Node>)
    ensures FindWithClass(body, ArticleClass).Some? ==> SelectArticle(body) == FindWithClass(body, ArticleClass).value
    ensures FindWithClass(body, ArticleClass).None? && FirstElement(body).None? ==>
      SelectArticle(body) == Element("div", [ArticleClass], map[], body)
  {
  }

  /** Whatever the inliner returns, every node of the output is text or a whitelisted element. */
  lemma RenderSanitized(body: seq<Node>, templateId: Option<string>, templates: seq<TemplateStorage.Template>,
                        inline: Inliner)
    ensures RenderClean.AllSanitized(Render(body, templateId, templates, inline))
  {
    var css := CssUnscope.Unscope(WechatFormatter.TemplateCss(templates, templateId));
    var article := SelectArticle(body);
    FinishSanitized(match inline(css, article) case Some(ns) => ns case None => [article]);
  }

  lemma FinishSanitized(inlined: seq<Node>)
    ensures RenderClean.AllSanitized(Finish(inlined))
  {
    RenderClean.CleanElementSanitized(Transform(Element("div", [], map[], CodeBlocks.ConvertAll(inlined))));
  }

  /** When the inliner throws, the rest of the pipeline runs on the chosen container alone. */
  lemma RenderFallback(body: seq<Node>, templateId: Option<string>, templates: seq<TemplateStorage.Template>,
                       inline: Inliner)
    requires inline(CssUnscope.Unscope(WechatFormatter.TemplateCss(templates, templateId)), SelectArticle(body)).None?
    ensures Render(body, templateId, templates, inline) ==
      RenderClean.CleanHtml(Transform(Element("div", [], map[], CodeBlocks.ConvertAll([SelectArticle(body)]))))
  {
  }

  // ---------------------------------------------------------------------------
  // The output checks

  /** `new RegExp('<' + tag + '[\\s>]', 'gi')` matching at the start of `s` (ASCII case folding). */
  predicate TagOpensAt(s: string, tag: string) {
    |tag| + 2 <= |s| && s[0] == '<' && ToLower(s[1..|tag| + 1]) == ToLower(tag) &&
    (IsSpace(s[|tag| + 1]) || s[|tag| + 1] == '>')
  }

  /** `countElements(html, tag)`: the number of matches, each search resuming after the previous match. */
  function CountElements(html: string, tag: string): nat
    decreases |html|
  {
    if html == [] then 0
    else if TagOpensAt(html, tag) then 1 + CountElements(html[|tag| + 2..], tag)
    else CountElements(html[1..], tag)
  }

  /** The number of positions where an opening tag starts. */
  function Openings(html: string, tag: string): nat
    decreases |html|
  {
    if html == [] then 0 else (if TagOpensAt(html, tag) then 1 else 0) + Openings(html[1..], tag)
  }

  /** No match can start inside another when the tag has no `<`. */
  lemma NoOpeningInside(html: string, tag: string, i: nat)
    requires TagOpensAt(html, tag) && 1 <= i < |tag| + 2
    requires forall k :: 0 <= k < |tag| ==> tag[k] != '<'
    ensures !TagOpensAt(html[i..], tag)
  {
    if i <= |tag| {
      var k := i - 1;
      assert ToLower(html[1..|tag| + 1])[k] == ToLower(tag)[k];
      assert html[1..|tag| + 1][k] == html[i];
    }
    assert html[i..][0] == html[i];
  }

  lemma {:induction false} OpeningsSkip(html: string, tag: string, i: nat)
    requires TagOpensAt(html, tag) && 1 <= i <= |tag| + 2
    requires forall k :: 0 <= k < |tag| ==> tag[k] != '<'
    ensures Openings(html[1..], tag) == Openings(html[i..], tag)
    decreases i
  {
    if i > 1 {
      OpeningsSkip(html, tag, i - 1);
      NoOpeningInside(html, tag, i - 1);
      assert html[i - 1..][1..] == html[i..];
    }
  }

  /** For a tag without `<` the count is the number of places an opening tag starts. */
  lemma {:induction false} CountIsOpenings(html: string, tag: string)
    requires forall k :: 0 <= k < |tag| ==> tag[k] != '<'
    ensures CountElements(html, tag) == Openings(html, tag)
    decreases |html|
  {
    if html != [] {
      if TagOpensAt(html, tag) {
        CountIsOpenings(html[|tag| + 2..], tag);
        OpeningsSkip(html, tag, |tag| + 2);
      } else {
        CountIsOpenings(html[1..], tag);
      }
    }
  }

  /** `hasSeparator(html)`. */
  predicate HasSeparator(html: string) {
    Contains(html, "height:0") && Contains(html, "overflow:hidden")
  }

  /** An occurrence of `sub` inside an occurrence of `outer` is an occurrence in `html`. */
  lemma ContainsTrans(html: string, outer: string, sub: string)
    requires Contains(html, outer) && Contains(outer, sub)
    ensures Contains(html, sub)
  {
    var i := ContainsWitness(html, outer);
    var j := ContainsWitness(outer, sub);
    assert html[i + j..i + j + |sub|] == sub by {
      forall k | 0 <= k < |sub| ensures html[i + j + k] == sub[k] {
        assert html[i..i + |outer|][j + k] == outer[j + k];
        assert outer[j..j + |sub|][k] == outer[j + k];
      }
    }
    ContainsAt(html, sub, i + j);
  }

  /** Any text holding the separator's style passes the check. */
  lemma SeparatorDetected(html: string)
    requires Contains(html, CodeBlocks.SeparatorStyle)
    ensures HasSeparator(html)
  {
    SeparatorHeight(html);
    SeparatorOverflow(html);
  }

  lemma SeparatorHeight(html: string)
    requires Contains(html, CodeBlocks.SeparatorStyle)
    ensures Contains(html, "height:0")
  {
    ContainsMiddle("margin:0;", "height:0", ";" + "overflow:hidden" + ";");
    assert CodeBlocks.SeparatorStyle == "margin:0;" + "height:0" + (";" + "overflow:hidden" + ";");
    ContainsTrans(html, CodeBlocks.SeparatorStyle, "height:0");
  }

  lemma SeparatorOverflow(html: string)
    requires Contains(html, CodeBlocks.SeparatorStyle)
    ensures Contains(html, "overflow:hidden")
  {
    ContainsMiddle("margin:0;" + "height:0" + ";", "overflow:hidden", ";");
    ContainsTrans(html, CodeBlocks.SeparatorStyle, "overflow:hidden");
  }
}
