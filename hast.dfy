/**
  The HTML syntax tree (hast) the markdown renderer hands to its rehype
  plugins: a root, elements with a tag name, the two properties the plugins
  touch (`className` and `src`) and children, and leaf nodes (text, comments,
  doctype) that carry no children.
 */
module Hast {
  import opened Wrappers

  /** `properties.className`: a string, an array of strings, or anything else (absent). */
  datatype ClassName = Absent | Single(name: string) | Many(names: seq<string>)

  datatype HNode =
    | HRoot(children: seq<HNode>)
    | HElement(tagName: string, className: ClassName, src: Option<string>, children: seq<HNode>)
    | HLeaf(kind: string, value: string)

  /** The class list a plugin reads: a string becomes its only entry, an array is copied. */
  function ClassList(c: ClassName): (r: seq<string>)
    ensures c.Single? ==> r == [c.name]
    ensures c.Many? ==> r == c.names
    ensures c.Absent? ==> r == []
  {
    match c
    case Absent => []
    case Single(s) => [s]
    case Many(xs) => xs
  }

  /** Children of a node; leaves have none. */
  function Kids(n: HNode): seq<HNode> {
    if n.HLeaf? then [] else n.children
  }
}
