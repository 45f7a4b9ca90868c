/**
 * The HTML escaper of the rich-text renderer: a chain of five global
 * `replaceAll` calls that turns `&`, `<`, `>`, `"` and `'` into entities.
 *
 * Beside the chain as written, this module gives an independent per-character
 * reference (`EscapeSpec`) and an entity decoder (`Unescape`), and proves that
 * the chain equals the reference, that its output is safe, and that decoding
 * recovers the input.
 */
module HtmlEscape {

  /** `s` begins with `p`. */
  predicate IsPrefix(p: string, s: string) {
    |p| <= |s| && s[..|p|] == p
  }

  /**
   * `s.replaceAll(pat, rep)` for a non-empty string pattern: scan from the
   * left, replace each occurrence, and resume the scan just after it, so
   * that occurrences never overlap and replacements are never rescanned.
   */
  function ReplaceAll(s: string, pat: string, rep: string): string
    requires |pat| > 0
    decreases |s|
  {
    if |s| < |pat| then s
    else if s[..|pat|] == pat then rep + ReplaceAll(s[|pat|..], pat, rep)
    else [s[0]] + ReplaceAll(s[1..], pat, rep)
  }

  /** `escapeHtml`: the five replacements in the source's order, `&` first. */
  function EscapeHtml(input: string): string {
    var s1 := ReplaceAll(input, "&", "&amp;");
    var s2 := ReplaceAll(s1, "<", "&lt;");
    var s3 := ReplaceAll(s2, ">", "&gt;");
    var s4 := ReplaceAll(s3, "\"", "&quot;");
    ReplaceAll(s4, "'", "&#039;")
  }

  /** The five characters that are markup in HTML text and attribute values. */
  predicate IsReserved(c: char) {
    c == '&' || c == '<' || c == '>' || c == '"' || c == '\''
  }

  /** Reference definition: the entity for one character. */
  function EscapeChar(c: char): (r: string)
    ensures IsReserved(c) ==> |r| >= 4 && r[0] == '&'
    ensures !IsReserved(c) ==> r == [c]
  {
    match c
    case '&' => "&amp;"
    case '<' => "&lt;"
    case '>' => "&gt;"
    case '"' => "&quot;"
    case '\'' => "&#039;"
    case _ => [c]
  }

  /** Reference definition: escape character by character. */
  function EscapeSpec(s: string): string
    decreases |s|
  {
    if s == [] then [] else EscapeChar(s[0]) + EscapeSpec(s[1..])
  }

  /** `s` begins with one of the five entities the escaper emits. */
  predicate StartsWithEntity(s: string) {
    IsPrefix("&amp;", s) || IsPrefix("&lt;", s) || IsPrefix("&gt;", s)
    || IsPrefix("&quot;", s) || IsPrefix("&#039;", s)
  }

  /** Every `&` of `s` begins one of the five entities. */
  predicate AmpersandsAreEntities(s: string) {
    forall i :: 0 <= i < |s| && s[i] == '&' ==> StartsWithEntity(s[i..])
  }

  /** Safe as HTML text: no `<`, `>`, `"` or `'`, and no bare `&`. */
  predicate IsEscapedText(s: string) {
    && AmpersandsAreEntities(s)
    && forall i :: 0 <= i < |s| ==> s[i] != '<' && s[i] != '>' && s[i] != '"' && s[i] != '\''
  }

  /** Decoder for the five entities; any other character is copied. */
  function Unescape(s: string): string
    decreases |s|
  {
    if s == [] then []
    else if IsPrefix("&amp;", s) then "&" + Unescape(s[5..])
    else if IsPrefix("&lt;", s) then "<" + Unescape(s[4..])
    else if IsPrefix("&gt;", s) then ">" + Unescape(s[4..])
    else if IsPrefix("&quot;", s) then "\"" + Unescape(s[6..])
    else if IsPrefix("&#039;", s) then "'" + Unescape(s[6..])
    else [s[0]] + Unescape(s[1..])
  }

  // ---------------------------------------------------------------------
  // replaceAll with a one-character pattern is a per-character map

  lemma {:induction false} ReplaceAllCharCons(c: char, rest: string, x: char, rep: string)
    ensures ReplaceAll([c] + rest, [x], rep)
            == (if c == x then rep else [c]) + ReplaceAll(rest, [x], rep)
  {
    var s := [c] + rest;
    assert s[..1] == [c];
    assert s[1..] == rest;
  }

  /** replaceAll of one character distributes over concatenation. */
  lemma {:induction false} ReplaceAllCharAppend(a: string, b: string, x: char, rep: string)
    ensures ReplaceAll(a + b, [x], rep) == ReplaceAll(a, [x], rep) + ReplaceAll(b, [x], rep)
    decreases |a|
  {
    if a == [] {
      assert a + b == b;
    } else {
      assert a + b == [a[0]] + (a[1..] + b);
      assert a == [a[0]] + a[1..];
      ReplaceAllCharCons(a[0], a[1..] + b, x, rep);
      ReplaceAllCharCons(a[0], a[1..], x, rep);
      ReplaceAllCharAppend(a[1..], b, x, rep);
    }
  }

  /** replaceAll of a character that does not occur changes nothing. */
  lemma {:induction false} ReplaceAllCharAbsent(s: string, x: char, rep: string)
    requires x !in s
    ensures ReplaceAll(s, [x], rep) == s
    decreases |s|
  {
    if s != [] {
      assert s == [s[0]] + s[1..];
      ReplaceAllCharCons(s[0], s[1..], x, rep);
      ReplaceAllCharAbsent(s[1..], x, rep);
    }
  }

  lemma ReplaceAllCharSingle(c: char, x: char, rep: string)
    ensures ReplaceAll([c], [x], rep) == if c == x then rep else [c]
  {
    ReplaceAllCharCons(c, [], x, rep);
    assert [c] + [] == [c];
  }

  // ---------------------------------------------------------------------
  // The chain of five replaceAll calls

  /** Escaping distributes over concatenation. */
  lemma EscapeHtmlAppend(a: string, b: string)
    ensures EscapeHtml(a + b) == EscapeHtml(a) + EscapeHtml(b)
  {
    ReplaceAllCharAppend(a, b, '&', "&amp;");
    var a1, b1 := ReplaceAll(a, "&", "&amp;"), ReplaceAll(b, "&", "&amp;");
    ReplaceAllCharAppend(a1, b1, '<', "&lt;");
    var a2, b2 := ReplaceAll(a1, "<", "&lt;"), ReplaceAll(b1, "<", "&lt;");
    ReplaceAllCharAppend(a2, b2, '>', "&gt;");
    var a3, b3 := ReplaceAll(a2, ">", "&gt;"), ReplaceAll(b2, ">", "&gt;");
    ReplaceAllCharAppend(a3, b3, '"', "&quot;");
    var a4, b4 := ReplaceAll(a3, "\"", "&quot;"), ReplaceAll(b3, "\"", "&quot;");
    ReplaceAllCharAppend(a4, b4, '\'', "&#039;");
  }

  /**
   * On one character the chain gives that character's entity: `&` is
   * replaced first, and no later entity contains a later target.
   */
  lemma EscapeHtmlChar(c: char)
    ensures EscapeHtml([c]) == EscapeChar(c)
  {
    ReplaceAllCharSingle(c, '&', "&amp;");
    var s1 := ReplaceAll([c], "&", "&amp;");
    if c == '&' {
      ReplaceAllCharAbsent(s1, '<', "&lt;");
      ReplaceAllCharAbsent(s1, '>', "&gt;");
      ReplaceAllCharAbsent(s1, '"', "&quot;");
      ReplaceAllCharAbsent(s1, '\'', "&#039;");
    } else {
      ReplaceAllCharSingle(c, '<', "&lt;");
      var s2 := ReplaceAll(s1, "<", "&lt;");
      if c == '<' {
        ReplaceAllCharAbsent(s2, '>', "&gt;");
        ReplaceAllCharAbsent(s2, '"', "&quot;");
        ReplaceAllCharAbsent(s2, '\'', "&#039;");
      } else {
        ReplaceAllCharSingle(c, '>', "&gt;");
        var s3 := ReplaceAll(s2, ">", "&gt;");
        if c == '>' {
          ReplaceAllCharAbsent(s3, '"', "&quot;");
          ReplaceAllCharAbsent(s3, '\'', "&#039;");
        } else {
          ReplaceAllCharSingle(c, '"', "&quot;");
          var s4 := ReplaceAll(s3, "\"", "&quot;");
          if c == '"' {
            ReplaceAllCharAbsent(s4, '\'', "&#039;");
          } else {
            ReplaceAllCharSingle(c, '\'', "&#039;");
          }
        }
      }
    }
  }

  /** The sequential replaceAll chain equals the per-character substitution. */
  lemma {:induction false} EscapeHtmlIsPerChar(s: string)
    ensures EscapeHtml(s) == EscapeSpec(s)
    decreases |s|
  {
    if s == [] {
      ReplaceAllCharAbsent(s, '&', "&amp;");
      ReplaceAllCharAbsent(s, '<', "&lt;");
      ReplaceAllCharAbsent(s, '>', "&gt;");
      ReplaceAllCharAbsent(s, '"', "&quot;");
      ReplaceAllCharAbsent(s, '\'', "&#039;");
    } else {
      assert s == [s[0]] + s[1..];
      EscapeHtmlAppend([s[0]], s[1..]);
      EscapeHtmlChar(s[0]);
      EscapeHtmlIsPerChar(s[1..]);
    }
  }

  /** The empty string escapes to the empty string. */
  lemma EscapeHtmlEmpty()
    ensures EscapeHtml("") == ""
  {
    EscapeHtmlIsPerChar("");
  }

  /** Text with none of the five reserved characters. */
  predicate IsPlainText(s: string) {
    forall i :: 0 <= i < |s| ==> !IsReserved(s[i])
  }

  lemma {:induction false} EscapeSpecIdentity(s: string)
    requires IsPlainText(s)
    ensures EscapeSpec(s) == s
    decreases |s|
  {
    if s != [] {
      assert !IsReserved(s[0]);
      EscapeSpecIdentity(s[1..]);
    }
  }

  /** A string with none of the five reserved characters is returned unchanged. */
  lemma EscapeHtmlIdentity(s: string)
    requires IsPlainText(s)
    ensures EscapeHtml(s) == s
  {
    EscapeHtmlIsPerChar(s);
    EscapeSpecIdentity(s);
  }

  // ---------------------------------------------------------------------
  // Safety of the output

  lemma PrefixExtends(p: string, s: string, t: string)
    requires IsPrefix(p, s)
    ensures IsPrefix(p, s + t)
  {
    assert (s + t)[..|p|] == s[..|p|];
  }

  lemma StartsWithEntityExtends(s: string, t: string)
    requires StartsWithEntity(s)
    ensures StartsWithEntity(s + t)
  {
    if IsPrefix("&amp;", s) { PrefixExtends("&amp;", s, t); }
    else if IsPrefix("&lt;", s) { PrefixExtends("&lt;", s, t); }
    else if IsPrefix("&gt;", s) { PrefixExtends("&gt;", s, t); }
    else if IsPrefix("&quot;", s) { PrefixExtends("&quot;", s, t); }
    else { PrefixExtends("&#039;", s, t); }
  }

  /** The entity condition on `&` is kept by concatenation. */
  lemma AmpersandsAreEntitiesAppend(a: string, b: string)
    requires AmpersandsAreEntities(a) && AmpersandsAreEntities(b)
    ensures AmpersandsAreEntities(a + b)
  {
    var s := a + b;
    forall i | 0 <= i < |s| && s[i] == '&'
      ensures StartsWithEntity(s[i..])
    {
      if i < |a| {
        assert s[i..] == a[i..] + b;
        StartsWithEntityExtends(a[i..], b);
      } else {
        assert s[i..] == b[i - |a|..];
      }
    }
  }

  lemma EscapedTextAppend(a: string, b: string)
    requires IsEscapedText(a) && IsEscapedText(b)
    ensures IsEscapedText(a + b)
  {
    AmpersandsAreEntitiesAppend(a, b);
  }

  lemma EntityEscaped(e: string)
    requires |e| >= 4 && e[0] == '&' && StartsWithEntity(e)
    requires forall i :: 1 <= i < |e| ==> e[i] != '&' && e[i] != '<' && e[i] != '>' && e[i] != '"' && e[i] != '\''
    ensures IsEscapedText(e)
  {
    assert e[0..] == e;
  }

  lemma EscapeCharEscaped(c: char)
    ensures IsEscapedText(EscapeChar(c))
  {
    var e := EscapeChar(c);
    if IsReserved(c) {
      PrefixOfAppend(e, "");
      assert e + "" == e;
      EntityEscaped(e);
    }
  }

  lemma {:induction false} EscapeSpecEscaped(s: string)
    ensures IsEscapedText(EscapeSpec(s))
    decreases |s|
  {
    if s != [] {
      EscapeCharEscaped(s[0]);
      EscapeSpecEscaped(s[1..]);
      EscapedTextAppend(EscapeChar(s[0]), EscapeSpec(s[1..]));
    }
  }

  /**
   * The output of `escapeHtml` has no `<`, `>`, `"` or `'`, and each of its
   * `&` begins `&amp;`, `&lt;`, `&gt;`, `&quot;` or `&#039;`.
   */
  lemma EscapeHtmlEscaped(s: string)
    ensures IsEscapedText(EscapeHtml(s))
  {
    EscapeHtmlIsPerChar(s);
    EscapeSpecEscaped(s);
  }

  // ---------------------------------------------------------------------
  // Exactly one pass: decoding the output gives the input back

  lemma PrefixOfAppend(p: string, rest: string)
    ensures IsPrefix(p, p + rest) && (p + rest)[|p|..] == rest
  {
    assert (p + rest)[..|p|] == p;
  }

  lemma NotPrefixAt(p: string, s: string, k: nat)
    requires k < |p| && k < |s| && p[k] != s[k]
    ensures !IsPrefix(p, s)
  {
  }

  lemma UnescapeEntity(c: char, rest: string)
    ensures Unescape(EscapeChar(c) + rest) == [c] + Unescape(rest)
  {
    var e := EscapeChar(c);
    var s := e + rest;
    PrefixOfAppend(e, rest);
    if c == '&' {
    } else if c == '<' {
      NotPrefixAt("&amp;", s, 1);
    } else if c == '>' {
      NotPrefixAt("&amp;", s, 1);
      NotPrefixAt("&lt;", s, 1);
    } else if c == '"' {
      NotPrefixAt("&amp;", s, 1);
      NotPrefixAt("&lt;", s, 1);
      NotPrefixAt("&gt;", s, 1);
    } else if c == '\'' {
      NotPrefixAt("&amp;", s, 1);
      NotPrefixAt("&lt;", s, 1);
      NotPrefixAt("&gt;", s, 1);
      NotPrefixAt("&quot;", s, 1);
    } else {
      NotPrefixAt("&amp;", s, 0);
      NotPrefixAt("&lt;", s, 0);
      NotPrefixAt("&gt;", s, 0);
      NotPrefixAt("&quot;", s, 0);
      NotPrefixAt("&#039;", s, 0);
      assert s[1..] == rest;
    }
  }

  lemma {:induction false} UnescapeEscapeSpec(s: string)
    ensures Unescape(EscapeSpec(s)) == s
    decreases |s|
  {
    if s != [] {
      UnescapeEntity(s[0], EscapeSpec(s[1..]));
      UnescapeEscapeSpec(s[1..]);
    }
  }

  /** Decoding the escaper's output gives the input: nothing is escaped twice. */
  lemma UnescapeEscapeHtml(s: string)
    ensures Unescape(EscapeHtml(s)) == s
  {
    EscapeHtmlIsPerChar(s);
    UnescapeEscapeSpec(s);
  }

  /** Escaping loses no information: distinct inputs escape differently. */
  lemma EscapeHtmlInjective(a: string, b: string)
    requires EscapeHtml(a) == EscapeHtml(b)
    ensures a == b
  {
    UnescapeEscapeHtml(a);
    UnescapeEscapeHtml(b);
  }
}
