/**
 * Well-formedness of the rendered HTML, stated against an independent
 * checker: `Scan` reads a string left to right, treating `<name>` as an
 * opening tag, `</name>` as a closing tag that must match the innermost
 * open one, and any other character as text, where a `>` outside a tag is
 * an error. A string is well formed when the scan ends with no open tag.
 */
module WellFormed {
  import opened Wrappers
  import opened HtmlEscape
  import opened StrapiRichText
  import opened RenderLaws

  /** Index of the first `c` in `s`, or `|s|` when there is none. */
  function FirstIndex(s: string, c: char): (j: nat)
    ensures j <= |s|
    ensures j < |s| ==> s[j] == c
    ensures forall i :: 0 <= i < j ==> s[i] != c
    decreases |s|
  {
    if s == [] then 0 else if s[0] == c then 0 else 1 + FirstIndex(s[1..], c)
  }

  /**
   * Scan `s` with the stack `open` of tags still open (innermost last);
   * `None` when `s` closes a tag that is not innermost, has an unterminated
   * or empty tag, or a `>` outside a tag.
   */
  function Scan(s: string, open: seq<string>): Option<seq<string>>
    decreases |s|
  {
    if s == [] then Some(open)
    else if s[0] == '>' then None
    else if s[0] != '<' then Scan(s[1..], open)
    else
      var j := FirstIndex(s, '>');
      if j == |s| || j < 2 then None
      else if s[1] == '/' then
        if |open| > 0 && open[|open| - 1] == s[2..j] then Scan(s[j + 1..], open[..|open| - 1])
        else None
      else Scan(s[j + 1..], open + [s[1..j]])
  }

  /** Every tag is closed, in the reverse order of opening. */
  predicate IsWellFormed(s: string) {
    Scan(s, []) == Some([])
  }

  /** A tag name the renderer writes. */
  predicate IsTagName(t: string) {
    |t| > 0 && IsPlainTag(t)
  }

  /** Text for the checker: no `<` and no `>`. */
  predicate IsTagFree(t: string) {
    forall i :: 0 <= i < |t| ==> t[i] != '<' && t[i] != '>'
  }

  lemma {:induction false} FirstIndexAfter(t: string, x: string, c: char)
    requires c !in t
    ensures FirstIndex(t + [c] + x, c) == |t|
    decreases |t|
  {
    if t == [] {
      assert (t + [c] + x)[0] == c;
    } else {
      assert (t + [c] + x)[1..] == t[1..] + [c] + x;
      assert t[0] != c;
      FirstIndexAfter(t[1..], x, c);
    }
  }

  /** One tag `<body>` at the front of the input, then `x`. */
  lemma ScanTag(body: string, x: string, open: seq<string>)
    requires |body| > 0 && '>' !in body
    ensures body[0] != '/' ==> Scan("<" + body + ">" + x, open) == Scan(x, open + [body])
    ensures body[0] == '/' && |body| > 1 ==>
              Scan("<" + body + ">" + x, open)
              == if |open| > 0 && open[|open| - 1] == body[1..] then Scan(x, open[..|open| - 1]) else None
  {
    var s := "<" + body + ">" + x;
    assert s == ['<'] + (body + ['>'] + x);
    FirstIndexAfter(body, x, '>');
    var j := FirstIndex(s, '>');
    assert j == 1 + |body|;
    assert s[1] == body[0];
    assert s[1..j] == body;
    assert s[2..j] == body[1..];
    assert s[j + 1..] == x;
  }

  lemma ScanOpen(t: string, x: string, open: seq<string>)
    requires IsTagName(t)
    ensures Scan(OpenTag(t) + x, open) == Scan(x, open + [t])
  {
    assert '>' !in t;
    ScanTag(t, x, open);
  }

  /** A closing tag pops the innermost open tag when it matches, and fails otherwise. */
  lemma ScanCloseTag(t: string, x: string, open: seq<string>)
    requires IsTagName(t)
    ensures Scan(CloseTag(t) + x, open)
            == if |open| > 0 && open[|open| - 1] == t then Scan(x, open[..|open| - 1]) else None
  {
    var body := "/" + t;
    assert '>' !in body;
    assert CloseTag(t) + x == "<" + body + ">" + x;
    assert body[1..] == t;
    ScanTag(body, x, open);
  }

  lemma ScanClose(t: string, x: string, open: seq<string>)
    requires IsTagName(t)
    ensures Scan(CloseTag(t) + x, open + [t]) == Scan(x, open)
  {
    ScanCloseTag(t, x, open + [t]);
    assert (open + [t])[..|open|] == open;
  }

  lemma {:induction false} ScanText(t: string, x: string, open: seq<string>)
    requires IsTagFree(t)
    ensures Scan(t + x, open) == Scan(x, open)
    decreases |t|
  {
    if t != [] {
      assert (t + x)[0] == t[0] && (t + x)[1..] == t[1..] + x;
      assert t[0] != '<' && t[0] != '>';
      assert Scan(t + x, open) == Scan((t + x)[1..], open);
      assert IsTagFree(t[1..]) by {
        forall i | 0 <= i < |t[1..]| ensures t[1..][i] != '<' && t[1..][i] != '>' {
          assert t[1..][i] == t[i + 1];
        }
      }
      ScanText(t[1..], x, open);
    } else {
      assert t + x == x;
    }
  }

  /** A wrap is balanced around any inner part that is balanced. */
  lemma ScanWrap(tag: string, inner: string, x: string, open: seq<string>)
    requires IsTagName(tag)
    requires Scan(inner + (CloseTag(tag) + x), open + [tag]) == Scan(CloseTag(tag) + x, open + [tag])
    ensures Scan(Wrap(tag, inner) + x, open) == Scan(x, open)
  {
    assert Wrap(tag, inner) + x == OpenTag(tag) + (inner + (CloseTag(tag) + x));
    ScanOpen(tag, inner + (CloseTag(tag) + x), open);
    ScanClose(tag, x, open);
  }

  lemma ScanRenderText(n: Node, x: string, open: seq<string>)
    requires n.Node?
    ensures Scan(RenderText(n) + x, open) == Scan(x, open)
  {
    var t0 := EscapeHtml(n.text.GetOr(""));
    EscapeHtmlEscaped(n.text.GetOr(""));
    var t1 := if n.bold then Wrap("strong", t0) else t0;
    var t2 := if n.italic then Wrap("em", t1) else t1;
    var t3 := if n.underline then Wrap("u", t2) else t2;
    assert IsTagName("strong") && IsTagName("em") && IsTagName("u");
    // Innermost first: each layer is balanced whatever follows it.
    forall y: string, st: seq<string> ensures Scan(t1 + y, st) == Scan(y, st) {
      if n.bold {
        ScanText(t0, CloseTag("strong") + y, st + ["strong"]);
        ScanWrap("strong", t0, y, st);
      } else {
        ScanText(t0, y, st);
      }
    }
    forall y: string, st: seq<string> ensures Scan(t2 + y, st) == Scan(y, st) {
      if n.italic {
        ScanWrap("em", t1, y, st);
      }
    }
    if n.underline {
      ScanWrap("u", t2, x, open);
    }
  }

  /** Rendering a node opens and closes tags in balance, whatever follows. */
  lemma {:induction false} ScanRenderNode(n: Node, x: string, open: seq<string>)
    ensures Scan(RenderNode(n) + x, open) == Scan(x, open)
    decreases n
  {
    match n
    case Absent =>
      assert RenderNode(n) + x == x;
    case Node(nodeType, _, _, _, _, level, format, kids) =>
      if nodeType == "text" {
        ScanRenderText(n, x, open);
      } else {
        var children := ChildrenHtml(n);
        var wrapped := nodeType in ["paragraph", "heading", "list", "list-item"];
        if wrapped {
          var tag :=
            if nodeType == "paragraph" then "p"
            else if nodeType == "heading" then HeadingTag(HeadingLevel(level))
            else if nodeType == "list" then ListTag(format)
            else "li";
          if kids.Array? {
            ScanRenderNodes(kids.nodes, CloseTag(tag) + x, open + [tag]);
          } else {
            assert children + (CloseTag(tag) + x) == CloseTag(tag) + x;
          }
          assert IsTagName(tag);
          ScanWrap(tag, children, x, open);
        } else if kids.Array? {
          ScanRenderNodes(kids.nodes, x, open);
        } else {
          assert children + x == x;
        }
      }
  }

  lemma {:induction false} ScanRenderNodes(nodes: seq<Node>, x: string, open: seq<string>)
    ensures Scan(RenderNodes(nodes) + x, open) == Scan(x, open)
    decreases nodes
  {
    if nodes == [] {
      assert RenderNodes(nodes) + x == x;
    } else {
      var rest := RenderNodes(nodes[1..]);
      assert RenderNodes(nodes) + x == RenderNode(nodes[0]) + (rest + x);
      ScanRenderNode(nodes[0], rest + x, open);
      ScanRenderNodes(nodes[1..], x, open);
    }
  }

  /** Every document renders to well-formed HTML. */
  lemma StrapiRichTextToHtmlWellFormed(content: NodeList)
    ensures IsWellFormed(StrapiRichTextToHtml(content))
  {
    var out := StrapiRichTextToHtml(content);
    assert out + "" == out;
    if content.Array? {
      ScanRenderNodes(content.nodes, "", []);
    }
  }

  /** The checker rejects a tag left open. */
  lemma RejectsUnclosed()
    ensures !IsWellFormed("<p>")
  {
    ScanOpen("p", "", []);
    assert OpenTag("p") + "" == "<p>";
  }

  /** The checker rejects a closing tag that does not match. */
  lemma RejectsMismatched()
    ensures !IsWellFormed("<p></li>")
  {
    ScanOpen("p", CloseTag("li"), []);
    ScanCloseTag("li", "", ["p"]);
    assert CloseTag("li") + "" == CloseTag("li");
    assert OpenTag("p") + CloseTag("li") == "<p></li>";
  }

  /** The checker rejects a `>` outside a tag. */
  lemma RejectsStrayGreaterThan()
    ensures !IsWellFormed("a>b")
  {
    assert "a>b"[1..] == ">b";
  }
}
