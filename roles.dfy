/**
  The fixed tag-to-role-class table that every annotator of the system uses
  (the rehype plugin, the live-preview walk and `addWechatClasses`), and the
  container class names.
 */
module Roles {
  import opened Wrappers
  import opened Strings
  import opened Dom

  const ArticleClass: string := "wechat-article"
  const MarkdownBodyClass: string := "markdown-body"
  const CodeBlockClass: string := "wechat-article-code-block"

  /** The tags that carry a role class in every annotator (`pre` is handled apart). */
  const MappedTags: set<string> :=
    {"h1", "h2", "h3", "p", "blockquote", "ul", "ol", "li", "table", "th", "td", "code", "hr"}

  /** Role class of a (lower-case) tag; `None` for every tag outside the table. */
  function RoleClass(tag: string): (r: Option<string>)
    ensures r.Some? <==> tag in MappedTags
    ensures r.Some? ==> StartsWith(r.value, "wechat-article-") && r.value != ArticleClass
    ensures r.Some? ==> r.value != CodeBlockClass
  {
    match tag
    case "h1" => Some("wechat-article-title")
    case "h2" => Some("wechat-article-h2")
    case "h3" => Some("wechat-article-h3")
    case "p" => Some("wechat-article-paragraph")
    case "blockquote" => Some("wechat-article-blockquote")
    case "ul" => Some("wechat-article-list")
    case "ol" => Some("wechat-article-list")
    case "li" => Some("wechat-article-list-item")
    case "table" => Some("wechat-article-table")
    case "th" => Some("wechat-article-th")
    case "td" => Some("wechat-article-td")
    case "code" => Some("wechat-article-code")
    case "hr" => Some("wechat-article-hr")
    case _ => None
  }

  /** Both list containers share one role; `pre`, `div`, `h4`..`h6` and the rest have none. */
  lemma ListsShareRole()
    ensures RoleClass("ul") == RoleClass("ol") == Some("wechat-article-list")
    ensures RoleClass("pre").None? && RoleClass("div").None? && RoleClass("h4").None?
  {
  }

  /** Apart from `ul`/`ol`, different mapped tags get different role classes. */
  lemma RolesDistinct(a: string, b: string)
    requires a in MappedTags && b in MappedTags && a != b && {a, b} != {"ul", "ol"}
    ensures RoleClass(a) != RoleClass(b)
  {
  }

  /**
    The `pre` rule of the two DOM annotators: a `pre` is a code block when it
    has a `code` descendant or text that is not all white space.
   */
  predicate IsCodeBlockPre(children: seq<Node>) {
    HasDescendantTag(children, "code") || Trim(TextContentAll(children)) != ""
  }
}
