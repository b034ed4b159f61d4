/**
  The export builders: the preview's clone made ready for export, the
  full HTML document with the template CSS in a `<style>` element, and
  the content-only HTML.

  Serialising a tree (`outerHTML`) and `processContent` are not part of
  these builders' logic: the builders take the preview's serialised clone
  (`""` when there is no preview) and the processed content as strings.
 */
module HtmlExporter {
  import opened Wrappers
  import opened Strings
  import opened Dom
  import opened Roles
  import TemplateStorage
  import ImageStorage
  import WechatFormatter
  import ImagePlugin

  // ---------------------------------------------------------------------------
  // getPreviewHtml

  function ExportAttrs(images: seq<ImageStorage.StoredImage>, t: string, attrs: map<string, string>): map<string, string> {
    if t == "img" && "src" in attrs then attrs["src" := ImagePlugin.NewSrc(images, attrs["src"])] else attrs
  }

  /** An `img` whose `src` starts with `local://` gets the converted url, when that is non-empty and differs. */
  function ExportImage(images: seq<ImageStorage.StoredImage>, n: Node): Node
    decreases n
  {
    match n
    case Text(_) => n
    case Comment(_) => n
    case Element(t, cls, attrs, cs) =>
      Element(t, cls, ExportAttrs(images, t, attrs), seq(|cs|, i requires 0 <= i < |cs| => ExportImage(images, cs[i])))
  }

  /** The clone: `wechat-article` added, `markdown-body` removed, and the images below it resolved. */
  function PreviewClone(images: seq<ImageStorage.StoredImage>, preview: Node): (r: Node)
    requires preview.Element?
  {
    var p := WechatFormatter.PreviewArticle(preview);
    p.(children := seq(|p.children|, i requires 0 <= i < |p.children| => ExportImage(images, p.children[i])))
  }

  /** `getPreviewHtml()` on trees: no clone without a preview container. */
  function PreviewHtml(images: seq<ImageStorage.StoredImage>, preview: Option<Node>): Option<Node>
    requires preview.Some? ==> preview.value.Element?
  {
    if preview.None? then None else Some(PreviewClone(images, preview.value))
  }

  /** The `forEach` over the images below a node. */
  method ResolveImages(images: seq<ImageStorage.StoredImage>, n: Node) returns (r: Node)
    ensures r == ExportImage(images, n)
    decreases n
  {
    if !n.Element? {
      return n;
    }
    var cs := n.children;
    var out: seq<Node> := [];
    var i := 0;
    while i < |cs|
      invariant 0 <= i <= |cs|
      invariant out == seq(i, k requires 0 <= k < i => ExportImage(images, cs[k]))
    {
      var c := ResolveImages(images, cs[i]);
      out := out + [c];
      i := i + 1;
    }
    var attrs := ResolveSrc(images, n.tag, n.attrs);
    r := Element(n.tag, n.classes, attrs, out);
  }

  /** The body of the `forEach` for one element: a `local://` source that converts to something new is replaced. */
  method ResolveSrc(images: seq<ImageStorage.StoredImage>, tag: string, attrs: map<string, string>) returns (r: map<string, string>)
    ensures r == ExportAttrs(images, tag, attrs)
  {
    r := attrs;
    if tag == "img" && "src" in attrs {
      var src := attrs["src"];
      SameSrc(attrs);
      if src != "" && StartsWith(src, ImageStorage.LocalScheme) {
        var dataUrl := ImageStorage.ConvertImageUrl(images, src);
        if dataUrl != "" && dataUrl != src {
          r := attrs["src" := dataUrl];
        }
      }
    }
  }

  lemma SameSrc(attrs: map<string, string>)
    requires "src" in attrs
    ensures attrs["src" := attrs["src"]] == attrs
  {
  }

  /** `getPreviewHtml()`: clone the container, fix its classes, then resolve each image below it. */
  method GetPreviewHtml(images: seq<ImageStorage.StoredImage>, preview: Option<Node>) returns (r: Option<Node>)
    requires preview.Some? ==> preview.value.Element?
    ensures r == PreviewHtml(images, preview)
  {
    if preview.None? {
      return None;
    }
    var cloned := WechatFormatter.PreviewArticle(preview.value);
    var cs := cloned.children;
    var out: seq<Node> := [];
    var i := 0;
    while i < |cs|
      invariant 0 <= i <= |cs|
      invariant out == seq(i, k requires 0 <= k < i => ExportImage(images, cs[k]))
    {
      var c := ResolveImages(images, cs[i]);
      out := out + [c];
      i := i + 1;
    }
    r := Some(cloned.(children := out));
  }

  /** The tree with every `img` source dropped: what the image pass must leave as it is. */
  function EraseImageSrc(n: Node): Node
    decreases n
  {
    match n
    case Text(_) => n
    case Comment(_) => n
    case Element(t, cls, attrs, cs) =>
      Element(t, cls, if t == "img" then attrs - {"src"} else attrs,
              seq(|cs|, i requires 0 <= i < |cs| => EraseImageSrc(cs[i])))
  }

  /** Only image sources change; the classes, the other attributes, the text and the shape stay. */
  lemma {:induction false} ExportImageOnlySrc(images: seq<ImageStorage.StoredImage>, n: Node)
    ensures EraseImageSrc(ExportImage(images, n)) == EraseImageSrc(n)
    decreases n
  {
    match n
    case Text(_) =>
    case Comment(_) =>
    case Element(t, cls, attrs, cs) =>
      forall i | 0 <= i < |cs| { ExportImageOnlySrc(images, cs[i]); }
      if t == "img" && "src" in attrs {
        assert ExportAttrs(images, t, attrs) - {"src"} == attrs - {"src"};
      }
  }

  /** A source that changes was a `local://` reference and becomes that stored image's data URL. */
  lemma ExportImageSrc(images: seq<ImageStorage.StoredImage>, t: string, cls: seq<string>, attrs: map<string, string>, cs: seq<Node>)
    ensures var r := ExportImage(images, Element(t, cls, attrs, cs));
      r.attrs.Keys == attrs.Keys &&
      forall a :: a in attrs && r.attrs[a] != attrs[a] ==>
        (a == "src" && t == "img" && StartsWith(attrs[a], ImageStorage.LocalScheme) &&
         ImageStorage.ImageDataUrl(images, Trim(attrs[a][|ImageStorage.LocalScheme|..])) == Some(r.attrs[a]))
  {
    var r := ExportImage(images, Element(t, cls, attrs, cs));
    assert r.attrs == ExportAttrs(images, t, attrs);
    if t == "img" && "src" in attrs {
      ImagePlugin.NewSrcCases(images, attrs["src"]);
      forall a | a in attrs && a != "src" ensures r.attrs[a] == attrs[a] { }
    }
  }

  /** Resolving the images of an exported tree again changes nothing. */
  lemma {:induction false} ExportImageIdempotent(images: seq<ImageStorage.StoredImage>, n: Node)
    ensures ExportImage(images, ExportImage(images, n)) == ExportImage(images, n)
    decreases n
  {
    match n
    case Text(_) =>
    case Comment(_) =>
    case Element(t, cls, attrs, cs) =>
      forall i | 0 <= i < |cs| { ExportImageIdempotent(images, cs[i]); }
      ExportAttrsIdempotent(images, t, attrs);
  }

  lemma ExportAttrsIdempotent(images: seq<ImageStorage.StoredImage>, t: string, attrs: map<string, string>)
    ensures ExportAttrs(images, t, ExportAttrs(images, t, attrs)) == ExportAttrs(images, t, attrs)
  {
    if t == "img" && "src" in attrs {
      ImagePlugin.NewSrcIdempotent(images, attrs["src"]);
      var a := ExportAttrs(images, t, attrs);
      assert a["src" := a["src"]] == a;
    }
  }

  /**
    The clone keeps the container's tag and attributes, carries
    `wechat-article` and not `markdown-body`, and its children differ from
    the preview's in image sources only.
   */
  lemma PreviewCloneShape(images: seq<ImageStorage.StoredImage>, preview: Node)
    requires preview.Element?
    ensures var r := PreviewClone(images, preview);
      r.Element? && r.tag == preview.tag && r.attrs == preview.attrs &&
      ArticleClass in r.classes && MarkdownBodyClass !in r.classes &&
      |r.children| == |preview.children| &&
      forall i :: 0 <= i < |r.children| ==> EraseImageSrc(r.children[i]) == EraseImageSrc(preview.children[i])
  {
    var r := PreviewClone(images, preview);
    forall i | 0 <= i < |r.children| ensures EraseImageSrc(r.children[i]) == EraseImageSrc(preview.children[i]) {
      ExportImageOnlySrc(images, preview.children[i]);
    }
  }

  // ---------------------------------------------------------------------------
  // generateFullHtml / generateContentHtml

  const DocHead: string :=
    "<!DOCTYPE html>\n<html lang=\"zh-CN\">\n<head>\n  <meta charset=\"UTF-8\">\n" +
    "  <meta name=\"viewport\" content=\"width=device-width, initial-scale=1.0\">\n" +
    "  <title>微信文章</title>\n  <style>\n"
  const DocMiddle: string := "\n  </style>\n</head>\n<body>\n"
  const DocEnd: string := "\n</body>\n</html>"
  const NoTemplateComment: string := "/* 未选择样式模版 */"

  /** What goes into the `<style>` element: the CSS, or a comment saying that no template is selected. */
  function StyleText(css: string): string {
    if css != "" then css else NoTemplateComment
  }

  /** `generateContentHtml(content, …)` from the processed content: wrapped unless it carries the marker. */
  function ContentHtml(processed: string): string {
    WechatFormatter.WrapArticle(processed)
  }

  /** The body: the preview's serialised clone when there is one, else the content HTML. */
  function BodyHtml(previewHtml: string, processed: string): string {
    if previewHtml != "" then previewHtml else ContentHtml(processed)
  }

  /** `generateFullHtml(content, …, templateId)`. */
  function FullHtml(templates: seq<TemplateStorage.Template>, templateId: Option<string>,
                    previewHtml: string, processed: string): string {
    var css := WechatFormatter.TemplateCss(templates, templateId);
    DocHead + StyleText(css) + DocMiddle + BodyHtml(previewHtml, processed) + DocEnd
  }

  /**
    The document reads back: after the fixed head comes the style text,
    and the body HTML stands verbatim just before the fixed closing tags.
   */
  lemma FullHtmlLayout(templates: seq<TemplateStorage.Template>, templateId: Option<string>,
                       previewHtml: string, processed: string)
    ensures Laid(FullHtml(templates, templateId, previewHtml, processed),
                 DocHead, StyleText(WechatFormatter.TemplateCss(templates, templateId)), DocMiddle,
                 BodyHtml(previewHtml, processed), DocEnd)
  {
    var st := StyleText(WechatFormatter.TemplateCss(templates, templateId));
    var body := BodyHtml(previewHtml, processed);
    Slices(FullHtml(templates, templateId, previewHtml, processed), DocHead, st, DocMiddle, body, DocEnd);
  }

  /** `s` is `a`, `b`, `c`, `d` and `e` in a row: each piece reads back at its place. */
  predicate Laid(s: string, a: string, b: string, c: string, d: string, e: string) {
    |s| == |a| + |b| + |c| + |d| + |e| &&
    s[..|a|] == a && s[|a|..|a| + |b|] == b && s[|a| + |b|..|a| + |b| + |c|] == c &&
    s[|s| - |e| - |d|..|s| - |e|] == d && s[|s| - |e|..] == e
  }

  lemma Slices(s: string, a: string, b: string, c: string, d: string, e: string)
    requires s == a + b + c + d + e
    ensures Laid(s, a, b, c, d, e)
  {
  }

  /**
    The style text is the selected stored template's CSS, trimmed, when
    that is not empty, and the placeholder comment otherwise.
   */
  lemma FullHtmlStyle(templates: seq<TemplateStorage.Template>, templateId: Option<string>)
    ensures var st := StyleText(WechatFormatter.TemplateCss(templates, templateId));
      st != NoTemplateComment ==>
        templateId.Some? && TemplateStorage.TemplateById(templates, templateId.value).Some? &&
        st == Trim(TemplateStorage.TemplateById(templates, templateId.value).value.css)
    ensures templateId.None? ==> StyleText(WechatFormatter.TemplateCss(templates, templateId)) == NoTemplateComment
  {
    WechatFormatter.TemplateCssCases(templates, templateId);
  }

  /**
    Content-only HTML and the fallback body carry the `wechat-article`
    marker, and are the processed content itself exactly when it already
    carried one.
   */
  lemma ContentHtmlMarked(processed: string)
    ensures Contains(ContentHtml(processed), WechatFormatter.MarkerDouble) ||
            Contains(ContentHtml(processed), WechatFormatter.MarkerSingle)
    ensures ContentHtml(processed) == processed <==>
      Contains(processed, WechatFormatter.MarkerDouble) || Contains(processed, WechatFormatter.MarkerSingle)
    ensures BodyHtml("", processed) == ContentHtml(processed)
  {
    WechatFormatter.WrapArticleCases(processed);
  }
}
