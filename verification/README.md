# Strapi rich text to HTML, in Dafny

A model of `frontend/src/lib/strapiRichText.ts`, the renderer that turns a
Strapi rich-text document (a tree of typed nodes) into an HTML string, with
proofs of what its output looks like.

The renderer has three parts, and each becomes a Dafny function:

- `HtmlEscape.EscapeHtml` is `escapeHtml`: five global `replaceAll` calls
  (`&`, `<`, `>`, `"`, `'`, in that order). `HtmlEscape.ReplaceAll` models
  JavaScript's `String.prototype.replaceAll` for a non-empty string pattern
  and a replacement without `$`: scan from the left, replace each
  occurrence with the replacement taken literally, and resume just after it.
- `StrapiRichText.RenderText` is `renderText`: escape `text` (missing text
  is `""`), then wrap in `<strong>`, `<em>` and `<u>` as the flags say, each
  wrap going around the result so far.
- `StrapiRichText.RenderNode` and `StrapiRichText.RenderNodes` are
  `renderNode` and `renderNodes`, a structural recursion over the tree. The
  entry point is `StrapiRichText.StrapiRichTextToHtml`.

The document is the datatype `StrapiRichText.Node`. `Absent` is a falsy
entry. `Node(nodeType, text, bold, italic, underline, level, format,
children)` is any other entry; `type` is a Dafny keyword, hence `nodeType`.
A value that the source tests with `Array.isArray` (a node's `children`, the
root) is a `NodeList`: `Array(nodes)` or `NotArray`.

Beside the functions as written, the model has three reference
definitions:

- `HtmlEscape.EscapeSpec` escapes character by character.
- `HtmlEscape.Unescape` decodes the five entities.
- `WellFormed.Scan` is a tag-balance checker. It reads `<name>` as an
  opening tag and `</name>` as a closing tag, which must match the
  innermost open tag. A `>` outside a tag is an error.

The lemmas relate the renderer to these definitions.

Modules: `Wrappers` (Option), `HtmlEscape`, `StrapiRichText` (data model
and renderer), `RenderLaws` (per-type templates, list laws, safety),
`WellFormed` (tag balance) and `RenderExamples` (concrete documents).

Two facts about the code that are easy to get wrong:

- Heading level. Line 46 clamps `Number(level ?? 2)` to 1..6. It neither
  rounds the level nor maps a non-numeric level to 2. The model takes the
  level as an optional integer, where rounding and NaN do not arise.
- Re-escaping. Escaping is not idempotent: every `&` is escaped on every
  call, so `escapeHtml("&amp;")` is `&amp;amp;` (`RenderExamples.EscapeTwice`).
  What holds is one-pass decoding (`HtmlEscape.UnescapeEscapeHtml`).

## Model

| member | source | states |
|---|---|---|
| HtmlEscape.ReplaceAll | frontend/src/lib/strapiRichText.ts:11-15 | `replaceAll` with a non-empty pattern and a literal replacement; contract: `ReplaceAllCharAppend`, `ReplaceAllCharAbsent` |
| HtmlEscape.EscapeHtml | frontend/src/lib/strapiRichText.ts:9-16 | `escapeHtml`, the five-call chain; contract: `EscapeHtmlIsPerChar`, `EscapeHtmlEscaped`, `UnescapeEscapeHtml` |
| HtmlEscape.EscapeChar | frontend/src/lib/strapiRichText.ts:11-15 | each reserved character maps to an entity that starts with `&`; every other character maps to itself |
| HtmlEscape.ReplaceAllCharAppend | frontend/src/lib/strapiRichText.ts:11-15 | `replaceAll` with a one-character pattern distributes over concatenation |
| HtmlEscape.ReplaceAllCharAbsent | frontend/src/lib/strapiRichText.ts:11-15 | `replaceAll` of a character that does not occur returns the string unchanged |
| HtmlEscape.EscapeHtmlChar | frontend/src/lib/strapiRichText.ts:10-15 | on one character the five-call chain gives exactly that character's entity: `&` goes first, and no later entity contains a later target |
| HtmlEscape.EscapeHtmlIsPerChar | frontend/src/lib/strapiRichText.ts:9-16 | the sequential `replaceAll` chain equals the per-character substitution `EscapeSpec` |
| HtmlEscape.EscapeHtmlAppend | frontend/src/lib/strapiRichText.ts:9-16 | escaping distributes over concatenation |
| HtmlEscape.EscapeHtmlEmpty | frontend/src/lib/strapiRichText.ts:9-16 | `""` escapes to `""` |
| HtmlEscape.EscapeHtmlIdentity | frontend/src/lib/strapiRichText.ts:9-16 | a string with none of the five reserved characters is returned unchanged |
| HtmlEscape.EscapeHtmlEscaped | frontend/src/lib/strapiRichText.ts:9-16 | the output has no `<`, `>`, `"` or `'`, and every `&` in it begins `&amp;`, `&lt;`, `&gt;`, `&quot;` or `&#039;` |
| HtmlEscape.UnescapeEscapeHtml | frontend/src/lib/strapiRichText.ts:9-16 | decoding the five entities in the output gives the input back: each character is escaped exactly once |
| HtmlEscape.EscapeHtmlInjective | frontend/src/lib/strapiRichText.ts:9-16 | different inputs escape to different outputs |
| StrapiRichText.RenderText | frontend/src/lib/strapiRichText.ts:18-26 | `renderText`; contract: `RenderLaws.RenderTextFrame`, `RenderLaws.RenderTextSafe`, `WellFormed.ScanRenderText` |
| StrapiRichText.RenderNodes | frontend/src/lib/strapiRichText.ts:28-30 | `renderNodes`; contract: `RenderLaws.RenderNodesAppend`, `RenderLaws.RenderNodesSafe`, `WellFormed.ScanRenderNodes` |
| StrapiRichText.ChildrenHtml | frontend/src/lib/strapiRichText.ts:39 | the rendered children of a node, `""` when they are not an array; contract: `RenderLaws.RenderNonArrayChildren` |
| StrapiRichText.RenderNode | frontend/src/lib/strapiRichText.ts:32-61 | `renderNode`; contract: the per-type lemmas `RenderLaws.RenderAbsent` to `RenderLaws.RenderUnknown`, `RenderLaws.RenderNodeSafe`, `WellFormed.ScanRenderNode` |
| StrapiRichText.StrapiRichTextToHtml | frontend/src/lib/strapiRichText.ts:63-66 | `strapiRichTextToHtml`; contract: `RenderLaws.EntryPoint`, `RenderLaws.StrapiRichTextToHtmlSafe`, `WellFormed.StrapiRichTextToHtmlWellFormed` |
| StrapiRichText.HeadingLevel | frontend/src/lib/strapiRichText.ts:46 | the level is always in 1..6; it is 2 when absent, the given level when that is in range, 1 for any level ≤ 1 and 6 for any level ≥ 6 |
| StrapiRichText.HeadingTag | frontend/src/lib/strapiRichText.ts:47 | the tag is `h` followed by the level's decimal digit |
| StrapiRichText.ListTag | frontend/src/lib/strapiRichText.ts:51 | the tag is `ol` exactly when the format is `"ordered"`, and `ul` otherwise |
| RenderLaws.RenderTextFrame | frontend/src/lib/strapiRichText.ts:18-26 | the rendered text is the escaped text between the opening tags of the set flags and their closing tags; underline is outermost, bold innermost, and unset flags add nothing |
| RenderLaws.RenderTextPlain | frontend/src/lib/strapiRichText.ts:18-25 | with no flag set the result is the escaped text |
| RenderLaws.RenderTextMissing | frontend/src/lib/strapiRichText.ts:19 | a missing `text` renders exactly as `""` would |
| RenderLaws.RenderTextMissingPlain | frontend/src/lib/strapiRichText.ts:19 | missing text with no flag set renders as `""`, never as a placeholder word |
| RenderLaws.RenderTextAllFlags | frontend/src/lib/strapiRichText.ts:21-23 | with all three flags the result is `<u><em><strong>` + escaped text + `</strong></em></u>` |
| RenderLaws.RenderNodesEmpty | frontend/src/lib/strapiRichText.ts:28-30 | an empty list renders to `""` |
| RenderLaws.RenderNodesSingleton | frontend/src/lib/strapiRichText.ts:28-30 | a one-node list renders as that node |
| RenderLaws.RenderNodesAppend | frontend/src/lib/strapiRichText.ts:28-30 | rendering `a + b` is rendering `a` followed by rendering `b`: document order, no separator |
| RenderLaws.RenderAbsent | frontend/src/lib/strapiRichText.ts:33 | a falsy node renders to `""` |
| RenderLaws.RenderTextNode | frontend/src/lib/strapiRichText.ts:35-37 | a `text` node renders as `renderText` does, whatever its `children` |
| RenderLaws.RenderParagraph | frontend/src/lib/strapiRichText.ts:39-43 | a paragraph renders as `<p>` + children + `</p>` |
| RenderLaws.RenderHeading | frontend/src/lib/strapiRichText.ts:45-47 | a heading opens and closes with the same digit, which is in 1..6 and is the clamped level |
| RenderLaws.RenderList | frontend/src/lib/strapiRichText.ts:50-52 | a list is `<ol>…</ol>` when its format is `"ordered"` and `<ul>…</ul>` otherwise |
| RenderLaws.RenderListItem | frontend/src/lib/strapiRichText.ts:55-56 | a list item renders as `<li>` + children + `</li>` |
| RenderLaws.RenderUnknown | frontend/src/lib/strapiRichText.ts:58-59 | a node of any other type renders to exactly its rendered children, with no tag |
| RenderLaws.RenderNonArrayChildren | frontend/src/lib/strapiRichText.ts:39 | children that are not an array render as an empty array would |
| RenderLaws.UnknownTypeNotEmitted | frontend/src/lib/strapiRichText.ts:41-59 | two nodes that differ only in an unrecognised type render alike: the type is never written out |
| RenderLaws.FormatOnlyForLists | frontend/src/lib/strapiRichText.ts:50-52 | a node's format changes nothing unless the node is a list, and is never written out |
| RenderLaws.LevelOnlyForHeadings | frontend/src/lib/strapiRichText.ts:45-47 | a node's level changes nothing unless the node is a heading |
| RenderLaws.InlineFieldsOnlyForText | frontend/src/lib/strapiRichText.ts:18-37 | a node's text and inline flags change nothing unless the node is a text node |
| RenderLaws.EntryPoint | frontend/src/lib/strapiRichText.ts:63-66 | a non-array root gives `""`; an array root gives the rendering of its nodes |
| RenderLaws.RenderTextSafe | frontend/src/lib/strapiRichText.ts:18-26 | rendered text has no quote character, and every `&` in it begins an entity |
| RenderLaws.RenderNodeSafe | frontend/src/lib/strapiRichText.ts:32-61 | the same holds for every rendered node: the tags the renderer writes add no quote character and no bare `&` |
| RenderLaws.RenderNodesSafe | frontend/src/lib/strapiRichText.ts:28-30 | the same holds for every rendered list of nodes |
| RenderLaws.StrapiRichTextToHtmlSafe | frontend/src/lib/strapiRichText.ts:63-66 | the same holds for the whole output |
| WellFormed.ScanRenderText | frontend/src/lib/strapiRichText.ts:18-26 | a rendered text node leaves the tag checker's state as it found it, whatever follows it: its tags balance and the escaped text opens and closes nothing |
| WellFormed.ScanRenderNode | frontend/src/lib/strapiRichText.ts:32-61 | a rendered node closes every tag it opens, innermost first, whatever follows it |
| WellFormed.ScanRenderNodes | frontend/src/lib/strapiRichText.ts:28-30 | the same holds for a rendered list of nodes |
| WellFormed.StrapiRichTextToHtmlWellFormed | frontend/src/lib/strapiRichText.ts:63-66 | every output passes the tag-balance checker: each `<` and `>` belongs to a tag, and no tag is left open or closed out of order |
| RenderExamples.UnknownBlockIsTransparent | frontend/src/lib/strapiRichText.ts:58-59 | `[{type:"foo", children:[text t]}]` renders to `t` |
| RenderExamples.HeadingLevelAboveRange | frontend/src/lib/strapiRichText.ts:45-47 | a heading of level 99 renders as `<h6>…</h6>` |
| RenderExamples.HeadingLevelBelowRange | frontend/src/lib/strapiRichText.ts:45-47 | a heading of level 0 renders as `<h1>…</h1>` |
| RenderExamples.HeadingLevelDefault | frontend/src/lib/strapiRichText.ts:45-47 | a heading without a level renders as `<h2>…</h2>` |
| RenderExamples.OrderedList | frontend/src/lib/strapiRichText.ts:50-56 | an ordered list of one item renders as `<ol><li>…</li></ol>` |
| RenderExamples.UnorderedList | frontend/src/lib/strapiRichText.ts:50-56 | a list without a format renders as `<ul><li>…</li></ul>` |
| RenderExamples.InlineNesting | frontend/src/lib/strapiRichText.ts:21-23 | a text node with all three flags renders as `<u><em><strong>t</strong></em></u>` |
| RenderExamples.ReservedCharactersEscaped | frontend/src/lib/strapiRichText.ts:9-16 | a paragraph with text `<a>&'"` renders as `<p>&lt;a&gt;&amp;&#039;&quot;</p>` |
| RenderExamples.EscapeTwice | frontend/src/lib/strapiRichText.ts:9-16 | escaping is not idempotent: escaping `&` twice gives `&amp;amp;` |
| RenderExamples.NonArrayRoot | frontend/src/lib/strapiRichText.ts:64 | a root that is not an array renders to `""` |

## Left out

- JavaScript coercion of arbitrary `unknown` values. `Number("abc")` is NaN and gives `<hNaN>`. A level of 2.5 gives `<h2.5>`. A non-string `text` makes `replaceAll` throw. `0`, `false` and `""` count as falsy nodes. The model types `level` as an optional integer, `text` as an optional string and the flags as booleans, and a falsy node is the explicit `Absent` case.
- The TypeScript union type (lines 1-7): it exists only at compile time, and the `Node` datatype takes its place.
- `replaceAll` with an empty pattern: the source never calls it that way, so `ReplaceAll` requires a non-empty pattern.
- JavaScript number-to-string conversion: only the levels 1..6 can reach the heading tag, and each is written as its single decimal digit.
- String encoding: strings are sequences of Dafny characters, with no UTF-16 or normalisation detail. The renderer never looks inside a character other than to compare it.
- `RenderText` requires a non-falsy node. The source reads `node.text` without a guard and is only ever called after `renderNode`'s falsy check.
- How the returned HTML is embedded in pages, and any sanitisation beyond escaping text: that is presentation code outside this file.
