/**
 * The Strapi rich-text renderer: a recursive descent over a tree of typed
 * nodes that produces an HTML string. Text leaves are escaped and wrapped in
 * inline style tags; structural nodes render their children in order and
 * wrap them in the tag their type selects, or pass them through untouched.
 */
module StrapiRichText {
  import opened Wrappers
  import opened HtmlEscape

  /**
   * A value that `Array.isArray` inspects: either an array of nodes or
   * anything else (missing, `null`, an object, a string, ...).
   */
  datatype NodeList = NotArray | Array(nodes: seq<Node>)

  /**
   * One value of the document tree. `Absent` is a falsy entry (`null`,
   * `undefined`); every other entry is an object with a `type` string and
   * optional attributes.
   */
  datatype Node =
    | Absent
    | Node(
        nodeType: string,
        text: Option<string>,
        bold: bool,
        italic: bool,
        underline: bool,
        level: Option<int>,
        format: Option<string>,
        children: NodeList)

  function OpenTag(tag: string): string {
    "<" + tag + ">"
  }

  function CloseTag(tag: string): string {
    "</" + tag + ">"
  }

  /** `<tag>inner</tag>`. */
  function Wrap(tag: string, inner: string): string {
    OpenTag(tag) + inner + CloseTag(tag)
  }

  /** The opening tag when `flag` is set, else nothing. */
  function OpenIf(flag: bool, tag: string): string {
    if flag then OpenTag(tag) else ""
  }

  /** The closing tag when `flag` is set, else nothing. */
  function CloseIf(flag: bool, tag: string): string {
    if flag then CloseTag(tag) else ""
  }

  /** The opening inline tags a text node's flags call for, outermost first. */
  function InlineOpen(bold: bool, italic: bool, underline: bool): string {
    OpenIf(underline, "u") + (OpenIf(italic, "em") + OpenIf(bold, "strong"))
  }

  /** The matching closing inline tags, innermost first. */
  function InlineClose(bold: bool, italic: bool, underline: bool): string {
    (CloseIf(bold, "strong") + CloseIf(italic, "em")) + CloseIf(underline, "u")
  }

  /**
   * `renderText`: escape the text (missing text is ""), then wrap in
   * `<strong>` if bold, then `<em>` if italic, then `<u>` if underline, each
   * wrap going around the result so far. The result is the escaped text
   * framed by exactly the flagged tags, underline outermost, bold innermost.
   */
  function RenderText(n: Node): string
    requires n.Node?
  {
    var t0 := EscapeHtml(n.text.GetOr(""));
    var t1 := if n.bold then Wrap("strong", t0) else t0;
    var t2 := if n.italic then Wrap("em", t1) else t1;
    if n.underline then Wrap("u", t2) else t2
  }

  /**
   * The heading level: `Math.min(Math.max(level ?? 2, 1), 6)`. It is always
   * in 1..6, 2 when absent, the level itself when in range, and clamped to
   * the nearer bound otherwise.
   */
  function HeadingLevel(level: Option<int>): (l: int)
    ensures 1 <= l <= 6
    ensures level.None? ==> l == 2
    ensures level.Some? && 1 <= level.value <= 6 ==> l == level.value
    ensures level.Some? && level.value <= 1 ==> l == 1
    ensures level.Some? && level.value >= 6 ==> l == 6
  {
    var v := level.GetOr(2);
    var lo := if v < 1 then 1 else v;
    if lo > 6 then 6 else lo
  }

  /** The tag name `h<level>`, the level written as its decimal digit. */
  function HeadingTag(l: int): (tag: string)
    requires 1 <= l <= 6
    ensures |tag| == 2 && tag[0] == 'h' && tag[1] as int - '0' as int == l
  {
    "h" + ["0123456789"[l]]
  }

  /** The list tag: `ol` exactly when the format is "ordered", `ul` otherwise. */
  function ListTag(format: Option<string>): (tag: string)
    ensures tag == "ol" || tag == "ul"
    ensures tag == "ol" <==> format == Some("ordered")
  {
    if format == Some("ordered") then "ol" else "ul"
  }

  /** `renderNodes`: render each node and join with no separator. */
  function RenderNodes(nodes: seq<Node>): string
    decreases nodes, 2
  {
    if nodes == [] then "" else RenderNode(nodes[0]) + RenderNodes(nodes[1..])
  }

  /** The rendered children of a node; "" when `children` is not an array. */
  function ChildrenHtml(n: Node): string
    requires n.Node?
    decreases n, 0
  {
    match n.children
    case Array(cs) => RenderNodes(cs)
    case NotArray => ""
  }

  /** `renderNode`: one node of the tree. */
  function RenderNode(n: Node): string
    decreases n, 1
  {
    if n.Absent? then ""
    else if n.nodeType == "text" then RenderText(n)
    else
      var children := ChildrenHtml(n);
      if n.nodeType == "paragraph" then Wrap("p", children)
      else if n.nodeType == "heading" then Wrap(HeadingTag(HeadingLevel(n.level)), children)
      else if n.nodeType == "list" then Wrap(ListTag(n.format), children)
      else if n.nodeType == "list-item" then Wrap("li", children)
      else children
  }

  /** `strapiRichTextToHtml`: "" unless the root is an array. */
  function StrapiRichTextToHtml(content: NodeList): string {
    match content
    case Array(nodes) => RenderNodes(nodes)
    case NotArray => ""
  }
}
