/**
 * Concrete documents and the HTML they render to: unknown types pass their
 * text through, heading levels are clamped, list formats select the tag,
 * inline flags nest in a fixed order, and reserved characters are escaped.
 * Leaf texts are any text without a reserved character, unless the example
 * is about escaping.
 */
module RenderExamples {
  import opened Wrappers
  import opened HtmlEscape
  import opened StrapiRichText
  import opened RenderLaws

  /** A plain text leaf. */
  function TextLeaf(t: string): Node {
    Node("text", Some(t), false, false, false, None, None, NotArray)
  }

  /** A structural node with the given type and children and no attributes. */
  function Block(nodeType: string, kids: seq<Node>): Node {
    Node(nodeType, None, false, false, false, None, None, Array(kids))
  }

  function Heading(level: Option<int>, kids: seq<Node>): Node {
    Node("heading", None, false, false, false, level, None, Array(kids))
  }

  /** A one-child node rendered from an array root. */
  lemma OneChildDocument(node: Node, child: Node)
    requires node.Node? && node.nodeType != "text" && node.children == Array([child])
    ensures StrapiRichTextToHtml(Array([node])) == RenderNode(node)
    ensures ChildrenHtml(node) == RenderNode(child)
  {
    RenderNodesSingleton(node);
    RenderNodesSingleton(child);
  }

  /** A leaf whose text has no reserved character renders as that text. */
  lemma PlainLeaf(t: string)
    requires IsPlainText(t)
    ensures RenderNode(TextLeaf(t)) == t
  {
    EscapeHtmlIdentity(t);
  }

  /** An unknown block keeps its text: `[{type:"foo", children:[x]}]` gives x. */
  lemma UnknownBlockIsTransparent(t: string)
    requires IsPlainText(t)
    ensures StrapiRichTextToHtml(Array([Block("foo", [TextLeaf(t)])])) == t
  {
    OneChildDocument(Block("foo", [TextLeaf(t)]), TextLeaf(t));
    RenderUnknown(Block("foo", [TextLeaf(t)]));
    PlainLeaf(t);
  }

  /** Level 99 is clamped to 6. */
  lemma HeadingLevelAboveRange(t: string)
    requires IsPlainText(t)
    ensures StrapiRichTextToHtml(Array([Heading(Some(99), [TextLeaf(t)])])) == "<h6>" + t + "</h6>"
  {
    PlainLeaf(t);
    OneChildDocument(Heading(Some(99), [TextLeaf(t)]), TextLeaf(t));
  }

  /** Level 0 is clamped to 1. */
  lemma HeadingLevelBelowRange(t: string)
    requires IsPlainText(t)
    ensures StrapiRichTextToHtml(Array([Heading(Some(0), [TextLeaf(t)])])) == "<h1>" + t + "</h1>"
  {
    PlainLeaf(t);
    OneChildDocument(Heading(Some(0), [TextLeaf(t)]), TextLeaf(t));
  }

  /** A heading without a level is `<h2>`. */
  lemma HeadingLevelDefault(t: string)
    requires IsPlainText(t)
    ensures StrapiRichTextToHtml(Array([Heading(None, [TextLeaf(t)])])) == "<h2>" + t + "</h2>"
  {
    PlainLeaf(t);
    OneChildDocument(Heading(None, [TextLeaf(t)]), TextLeaf(t));
  }

  lemma ListItemOfText(t: string)
    requires IsPlainText(t)
    ensures RenderNode(Block("list-item", [TextLeaf(t)])) == "<li>" + t + "</li>"
  {
    PlainLeaf(t);
    RenderNodesSingleton(TextLeaf(t));
    RenderListItem(Block("list-item", [TextLeaf(t)]));
  }

  /** An "ordered" list is `<ol>`. */
  lemma OrderedList(t: string)
    requires IsPlainText(t)
    ensures StrapiRichTextToHtml(Array([
              Node("list", None, false, false, false, None, Some("ordered"),
                   Array([Block("list-item", [TextLeaf(t)])]))]))
            == "<ol>" + ("<li>" + t + "</li>") + "</ol>"
  {
    var item := Block("list-item", [TextLeaf(t)]);
    var list := Node("list", None, false, false, false, None, Some("ordered"), Array([item]));
    ListItemOfText(t);
    OneChildDocument(list, item);
    RenderList(list);
  }

  /** A list without a format is `<ul>`. */
  lemma UnorderedList(t: string)
    requires IsPlainText(t)
    ensures StrapiRichTextToHtml(Array([Block("list", [Block("list-item", [TextLeaf(t)])])]))
            == "<ul>" + ("<li>" + t + "</li>") + "</ul>"
  {
    var item := Block("list-item", [TextLeaf(t)]);
    ListItemOfText(t);
    OneChildDocument(Block("list", [item]), item);
    RenderList(Block("list", [item]));
  }

  /** All three flags nest as underline, then italic, then bold. */
  lemma InlineNesting(t: string)
    requires IsPlainText(t)
    ensures StrapiRichTextToHtml(Array([Node("text", Some(t), true, true, true, None, None, NotArray)]))
            == "<u><em><strong>" + t + "</strong></em></u>"
  {
    var n := Node("text", Some(t), true, true, true, None, None, NotArray);
    RenderTextAllFlags(n);
    EscapeHtmlIdentity(t);
    RenderNodesSingleton(n);
  }

  lemma EscapeSpecCons(c: char, t: string)
    ensures EscapeSpec([c] + t) == EscapeChar(c) + EscapeSpec(t)
  {
    assert ([c] + t)[1..] == t;
  }

  /** The per-character escape of the sample text, entity by entity. */
  lemma EscapeSpecLiteral()
    ensures EscapeSpec("<a>&'\"") == "&lt;" + ("a" + ("&gt;" + ("&amp;" + ("&#039;" + "&quot;"))))
  {
    assert "<a>&'\"" == ['<'] + (['a'] + (['>'] + (['&'] + (['\''] + ['"']))));
    EscapeSpecCons('"', "");
    assert ['"'] + "" == ['"'];
    EscapeSpecCons('\'', ['"']);
    EscapeSpecCons('&', ['\''] + ['"']);
    EscapeSpecCons('>', ['&'] + (['\''] + ['"']));
    EscapeSpecCons('a', ['>'] + (['&'] + (['\''] + ['"'])));
    EscapeSpecCons('<', ['a'] + (['>'] + (['&'] + (['\''] + ['"']))));
  }

  lemma ParagraphOfText(t: string)
    ensures StrapiRichTextToHtml(Array([Block("paragraph", [TextLeaf(t)])]))
            == "<p>" + EscapeHtml(t) + "</p>"
  {
    var para := Block("paragraph", [TextLeaf(t)]);
    OneChildDocument(para, TextLeaf(t));
    RenderParagraph(para);
  }

  /** Each reserved character in a paragraph's text becomes its entity. */
  lemma ReservedCharactersEscaped()
    ensures StrapiRichTextToHtml(Array([Block("paragraph", [TextLeaf("<a>&'\"")])]))
            == "<p>" + ("&lt;" + ("a" + ("&gt;" + ("&amp;" + ("&#039;" + "&quot;"))))) + "</p>"
  {
    ParagraphOfText("<a>&'\"");
    EscapeHtmlIsPerChar("<a>&'\"");
    EscapeSpecLiteral();
  }

  lemma EscapeAmpersand()
    ensures EscapeHtml("&") == "&amp;"
  {
    EscapeHtmlChar('&');
  }

  lemma EscapeEntityAgain()
    ensures EscapeHtml("&amp;") == "&amp;" + "amp;"
  {
    assert "&amp;" == "&" + "amp;";
    EscapeHtmlAppend("&", "amp;");
    EscapeAmpersand();
    EscapeHtmlIdentity("amp;");
  }

  /**
   * Escaping is one pass, not idempotent: escaping the entity `&amp;` again
   * escapes its `&`.
   */
  lemma EscapeTwice()
    ensures EscapeHtml(EscapeHtml("&")) == "&amp;" + "amp;"
  {
    EscapeAmpersand();
    EscapeEntityAgain();
  }

  /** Anything that is not an array renders to "". */
  lemma NonArrayRoot()
    ensures StrapiRichTextToHtml(NotArray) == ""
  {
  }
}
