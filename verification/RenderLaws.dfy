/**
 * Properties of the rich-text renderer: the exact output of each node type,
 * the concatenation laws of child lists, the framing of inline styles, and
 * safety of the whole output.
 */
module RenderLaws {
  import opened Wrappers
  import opened HtmlEscape
  import opened StrapiRichText

  // ---------------------------------------------------------------------
  // Inline text

  /** One conditional wrap around a framed string extends the frame. */
  lemma WrapIfFrame(flag: bool, tag: string, o: string, x: string, c: string)
    ensures (if flag then Wrap(tag, o + x + c) else o + x + c)
            == (OpenIf(flag, tag) + o) + x + (c + CloseIf(flag, tag))
  {
    if !flag {
      assert OpenIf(flag, tag) + o == o;
      assert c + CloseIf(flag, tag) == c;
    }
  }

  /**
   * `renderText` is the escaped text framed by the flagged tags only, in the
   * fixed nesting order underline, italic, bold (outermost first).
   */
  lemma RenderTextFrame(n: Node)
    requires n.Node?
    ensures RenderText(n) == InlineOpen(n.bold, n.italic, n.underline)
                             + EscapeHtml(n.text.GetOr(""))
                             + InlineClose(n.bold, n.italic, n.underline)
  {
    var t0 := EscapeHtml(n.text.GetOr(""));
    assert t0 == "" + t0 + "";
    WrapIfFrame(n.bold, "strong", "", t0, "");
    var o1, c1 := OpenIf(n.bold, "strong"), CloseIf(n.bold, "strong");
    assert o1 + "" == o1 && "" + c1 == c1;
    WrapIfFrame(n.italic, "em", o1, t0, c1);
    WrapIfFrame(n.underline, "u", OpenIf(n.italic, "em") + o1, t0, c1 + CloseIf(n.italic, "em"));
  }

  /** With no flags set, `renderText` is just the escaped text. */
  lemma RenderTextPlain(n: Node)
    requires n.Node? && !n.bold && !n.italic && !n.underline
    ensures RenderText(n) == EscapeHtml(n.text.GetOr(""))
  {
  }

  /** A missing `text` renders as the empty string would. */
  lemma RenderTextMissing(n: Node)
    requires n.Node? && n.text.None?
    ensures RenderText(n) == RenderText(n.(text := Some("")))
  {
    RenderTextFrame(n);
    RenderTextFrame(n.(text := Some("")));
  }

  /** A text node without text and without flags renders to "". */
  lemma RenderTextMissingPlain(n: Node)
    requires n.Node? && n.text.None? && !n.bold && !n.italic && !n.underline
    ensures RenderText(n) == ""
  {
    RenderTextPlain(n);
    EscapeHtmlEmpty();
  }

  /** With all three flags the nesting is `<u><em><strong>…</strong></em></u>`. */
  lemma InlineAllFlags()
    ensures InlineOpen(true, true, true) == "<u><em><strong>"
    ensures InlineClose(true, true, true) == "</strong></em></u>"
  {
    assert OpenTag("em") + OpenTag("strong") == "<em><strong>";
    assert CloseTag("strong") + CloseTag("em") == "</strong></em>";
  }

  lemma RenderTextAllFlags(n: Node)
    requires n.Node? && n.bold && n.italic && n.underline
    ensures RenderText(n) == "<u><em><strong>" + EscapeHtml(n.text.GetOr("")) + "</strong></em></u>"
  {
    RenderTextFrame(n);
    InlineAllFlags();
  }

  // ---------------------------------------------------------------------
  // Child lists

  /** An empty list of nodes renders to "". */
  lemma RenderNodesEmpty()
    ensures RenderNodes([]) == ""
  {
  }

  /** A one-element list renders as its element. */
  lemma RenderNodesSingleton(n: Node)
    ensures RenderNodes([n]) == RenderNode(n)
  {
  }

  /** Rendering a list keeps document order and inserts no separator. */
  lemma {:induction false} RenderNodesAppend(a: seq<Node>, b: seq<Node>)
    ensures RenderNodes(a + b) == RenderNodes(a) + RenderNodes(b)
    decreases |a|
  {
    if a == [] {
      assert a + b == b;
    } else {
      var ab := a + b;
      assert ab[0] == a[0] && ab[1..] == a[1..] + b;
      assert RenderNodes(ab) == RenderNode(a[0]) + RenderNodes(a[1..] + b);
      RenderNodesAppend(a[1..], b);
    }
  }

  // ---------------------------------------------------------------------
  // One node, by type

  /** A falsy node renders to "". */
  lemma RenderAbsent()
    ensures RenderNode(Absent) == ""
  {
  }

  /** A `text` node renders only through `renderText`; its `children` are ignored. */
  lemma RenderTextNode(n: Node, other: NodeList)
    requires n.Node? && n.nodeType == "text"
    ensures RenderNode(n) == RenderText(n)
    ensures RenderNode(n.(children := other)) == RenderNode(n)
  {
  }

  lemma RenderParagraph(n: Node)
    requires n.Node? && n.nodeType == "paragraph"
    ensures RenderNode(n) == "<p>" + ChildrenHtml(n) + "</p>"
  {
  }

  /**
   * A heading opens and closes with the same level digit, and that digit is
   * the clamped level.
   */
  lemma RenderHeading(n: Node)
    requires n.Node? && n.nodeType == "heading"
    ensures var d := ('0' as int + HeadingLevel(n.level)) as char;
            && '1' <= d <= '6'
            && RenderNode(n) == "<h" + [d] + ">" + ChildrenHtml(n) + "</h" + [d] + ">"
  {
    var tag := HeadingTag(HeadingLevel(n.level));
    assert tag == "h" + [tag[1]];
  }

  /** A list is `<ol>` exactly when its format is "ordered", else `<ul>`. */
  lemma RenderList(n: Node)
    requires n.Node? && n.nodeType == "list"
    ensures n.format == Some("ordered") ==> RenderNode(n) == "<ol>" + ChildrenHtml(n) + "</ol>"
    ensures n.format != Some("ordered") ==> RenderNode(n) == "<ul>" + ChildrenHtml(n) + "</ul>"
  {
  }

  lemma RenderListItem(n: Node)
    requires n.Node? && n.nodeType == "list-item"
    ensures RenderNode(n) == "<li>" + ChildrenHtml(n) + "</li>"
  {
  }

  /** A node of any unrecognised type renders to exactly its rendered children. */
  lemma RenderUnknown(n: Node)
    requires n.Node?
    requires n.nodeType != "text" && n.nodeType != "paragraph" && n.nodeType != "heading"
    requires n.nodeType != "list" && n.nodeType != "list-item"
    ensures RenderNode(n) == ChildrenHtml(n)
  {
  }

  /** Children that are not an array render as an empty array would. */
  lemma RenderNonArrayChildren(n: Node)
    requires n.Node? && n.children.NotArray?
    ensures RenderNode(n) == RenderNode(n.(children := Array([])))
  {
    var m := n.(children := Array([]));
    assert ChildrenHtml(n) == "" == RenderNodes([]) == ChildrenHtml(m);
  }

  /** A node type the renderer has a template for. */
  predicate IsKnownType(t: string) {
    t in ["text", "paragraph", "heading", "list", "list-item"]
  }

  /**
   * The type of a node is never written out: two nodes that differ only in
   * an unrecognised type render alike.
   */
  lemma UnknownTypeNotEmitted(n: Node, t: string)
    requires n.Node? && !IsKnownType(n.nodeType) && !IsKnownType(t)
    ensures RenderNode(n) == RenderNode(n.(nodeType := t))
  {
    var m := n.(nodeType := t);
    assert ChildrenHtml(m) == ChildrenHtml(n);
  }

  /** The format of a node is read only by a list, and is never written out. */
  lemma FormatOnlyForLists(n: Node, f: Option<string>)
    requires n.Node? && n.nodeType != "list"
    ensures RenderNode(n) == RenderNode(n.(format := f))
  {
    var m := n.(format := f);
    assert ChildrenHtml(m) == ChildrenHtml(n);
  }

  /** The level of a node is read only by a heading. */
  lemma LevelOnlyForHeadings(n: Node, l: Option<int>)
    requires n.Node? && n.nodeType != "heading"
    ensures RenderNode(n) == RenderNode(n.(level := l))
  {
    var m := n.(level := l);
    assert ChildrenHtml(m) == ChildrenHtml(n);
  }

  /** Text and inline flags are read only by a text node. */
  lemma InlineFieldsOnlyForText(n: Node, t: Option<string>, b: bool, i: bool, u: bool)
    requires n.Node? && n.nodeType != "text"
    ensures RenderNode(n) == RenderNode(n.(text := t, bold := b, italic := i, underline := u))
  {
    var m := n.(text := t, bold := b, italic := i, underline := u);
    assert ChildrenHtml(m) == ChildrenHtml(n);
  }

  /** The entry point renders an array root and gives "" for anything else. */
  lemma EntryPoint(content: NodeList)
    ensures content.NotArray? ==> StrapiRichTextToHtml(content) == ""
    ensures content.Array? ==> StrapiRichTextToHtml(content) == RenderNodes(content.nodes)
  {
  }

  // ---------------------------------------------------------------------
  // Safety of the whole output

  /**
   * No quote character, and every `&` begins an entity: the tags the
   * renderer writes add neither, so this holds of every rendered tree.
   */
  predicate IsSafeMarkup(s: string) {
    && AmpersandsAreEntities(s)
    && forall i :: 0 <= i < |s| ==> s[i] != '"' && s[i] != '\''
  }

  /** A tag name made of lower-case letters and digits. */
  predicate IsPlainTag(tag: string) {
    forall i :: 0 <= i < |tag| ==> ('a' <= tag[i] <= 'z' || '0' <= tag[i] <= '9')
  }

  lemma SafeMarkupAppend(a: string, b: string)
    requires IsSafeMarkup(a) && IsSafeMarkup(b)
    ensures IsSafeMarkup(a + b)
  {
    AmpersandsAreEntitiesAppend(a, b);
  }

  lemma PlainTagSafe(s: string)
    requires IsPlainTag(s)
    ensures IsSafeMarkup(s)
  {
  }

  lemma WrapSafe(tag: string, inner: string)
    requires IsPlainTag(tag) && IsSafeMarkup(inner)
    ensures IsSafeMarkup(Wrap(tag, inner))
  {
    assert IsSafeMarkup("<") && IsSafeMarkup(">") && IsSafeMarkup("</");
    PlainTagSafe(tag);
    SafeMarkupAppend("<", tag);
    SafeMarkupAppend("<" + tag, ">");
    SafeMarkupAppend("</", tag);
    SafeMarkupAppend("</" + tag, ">");
    SafeMarkupAppend(OpenTag(tag), inner);
    SafeMarkupAppend(OpenTag(tag) + inner, CloseTag(tag));
  }

  lemma RenderTextSafe(n: Node)
    requires n.Node?
    ensures IsSafeMarkup(RenderText(n))
  {
    var t0 := EscapeHtml(n.text.GetOr(""));
    EscapeHtmlEscaped(n.text.GetOr(""));
    var t1 := if n.bold then Wrap("strong", t0) else t0;
    if n.bold { WrapSafe("strong", t0); }
    var t2 := if n.italic then Wrap("em", t1) else t1;
    if n.italic { WrapSafe("em", t1); }
    if n.underline { WrapSafe("u", t2); }
  }

  /** Every rendered node is safe markup. */
  lemma {:induction false} RenderNodeSafe(n: Node)
    ensures IsSafeMarkup(RenderNode(n))
    decreases n
  {
    match n
    case Absent =>
    case Node(nodeType, _, _, _, _, level, format, kids) =>
      if nodeType == "text" {
        RenderTextSafe(n);
      } else {
        var children := ChildrenHtml(n);
        if kids.Array? {
          RenderNodesSafe(kids.nodes);
        }
        assert IsPlainTag(HeadingTag(HeadingLevel(level)));
        WrapSafe("p", children);
        WrapSafe(HeadingTag(HeadingLevel(level)), children);
        WrapSafe(ListTag(format), children);
        WrapSafe("li", children);
      }
  }

  lemma {:induction false} RenderNodesSafe(nodes: seq<Node>)
    ensures IsSafeMarkup(RenderNodes(nodes))
    decreases nodes
  {
    if nodes != [] {
      RenderNodeSafe(nodes[0]);
      RenderNodesSafe(nodes[1..]);
      SafeMarkupAppend(RenderNode(nodes[0]), RenderNodes(nodes[1..]));
    }
  }

  /** The entry point's output never holds a quote or a bare `&`. */
  lemma StrapiRichTextToHtmlSafe(content: NodeList)
    ensures IsSafeMarkup(StrapiRichTextToHtml(content))
  {
    if content.Array? {
      RenderNodesSafe(content.nodes);
    }
  }
}
