/**
 * `escape_html` of src/html_renderer.rs, and the decoding that undoes it.
 */
module HtmlEscape {
  import opened Strings

  /** Rust's `str::replace(c, rep)` for a single character pattern. */
  function ReplaceChar(s: string, c: char, rep: string): string
  {
    if s == [] then [] else (if s[0] == c then rep else [s[0]]) + ReplaceChar(s[1..], c, rep)
  }

  /**
   * `escape_html`: six replacements, '&' first so that the ampersands the
   * later replacements introduce are not escaped again.
   */
  function EscapeHtml(s: string): string
  {
    ReplaceChar(ReplaceChar(ReplaceChar(ReplaceChar(ReplaceChar(ReplaceChar(
      s, '&', "&amp;"), '<', "&lt;"), '>', "&gt;"), '"', "&quot;"), '\'', "&#x27;"), '/', "&#x2F;")
  }

  /** The characters that never appear raw in escaped text. */
  predicate IsHtmlSpecial(c: char)
  {
    c == '&' || c == '<' || c == '>' || c == '"' || c == '\'' || c == '/'
  }

  /** The entity `escape_html` writes for one character. */
  function EscapeChar(c: char): string
  {
    match c
    case '&' => "&amp;"
    case '<' => "&lt;"
    case '>' => "&gt;"
    case '"' => "&quot;"
    case '\'' => "&#x27;"
    case '/' => "&#x2F;"
    case _ => [c]
  }

  /** Escaping character by character. */
  function EscapeChars(s: string): string
  {
    if s == [] then [] else EscapeChar(s[0]) + EscapeChars(s[1..])
  }

  /** The character at the start of `s`, with an entity decoded, and how many characters it spans. */
  function Entity(s: string): (r: (char, nat))
    requires s != []
    ensures 1 <= r.1 <= |s|
  {
    if s[0] == '&' && |s| >= 2 then
      match s[1]
      case 'a' => if StartsWith(s, "&amp;") then ('&', 5) else (s[0], 1)
      case 'l' => if StartsWith(s, "&lt;") then ('<', 4) else (s[0], 1)
      case 'g' => if StartsWith(s, "&gt;") then ('>', 4) else (s[0], 1)
      case 'q' => if StartsWith(s, "&quot;") then ('"', 6) else (s[0], 1)
      case '#' =>
        if StartsWith(s, "&#x27;") then ('\'', 6)
        else if StartsWith(s, "&#x2F;") then ('/', 6)
        else (s[0], 1)
      case _ => (s[0], 1)
    else (s[0], 1)
  }

  /** Decodes the six entities that `escape_html` produces, left to right. */
  function UnescapeHtml(s: string): string
    decreases |s|
  {
    if s == [] then [] else var (c, n) := Entity(s); [c] + UnescapeHtml(s[n..])
  }

  lemma {:induction false} ReplaceCharAppend(a: string, b: string, c: char, rep: string)
    ensures ReplaceChar(a + b, c, rep) == ReplaceChar(a, c, rep) + ReplaceChar(b, c, rep)
    decreases |a|
  {
    if a != [] {
      assert (a + b)[1..] == a[1..] + b;
      ReplaceCharAppend(a[1..], b, c, rep);
    } else {
      assert a + b == b;
    }
  }

  lemma {:induction false} ReplaceCharAbsent(s: string, c: char, rep: string)
    requires c !in s
    ensures ReplaceChar(s, c, rep) == s
  {
    if s != [] {
      ReplaceCharAbsent(s[1..], c, rep);
    }
  }

  lemma ReplaceCharSingle(h: string, x: char, rep: string)
    requires |h| == 1
    ensures ReplaceChar(h, x, rep) == if h[0] == x then rep else h
  {
    assert h == [h[0]] && h[1..] == [];
  }

  /*
   * One lemma per entity: the replacements that follow the one producing
   * the entity leave it alone, since it holds none of their characters.
   */
  lemma AmpEntityKept(e: string)
    requires e == "&amp;"
    ensures ReplaceChar(ReplaceChar(ReplaceChar(ReplaceChar(ReplaceChar(e, '<', "&lt;"), '>', "&gt;"), '"', "&quot;"), '\'', "&#x27;"), '/', "&#x2F;") == e
  {
    ReplaceCharAbsent(e, '<', "&lt;");
    ReplaceCharAbsent(e, '>', "&gt;");
    ReplaceCharAbsent(e, '"', "&quot;");
    ReplaceCharAbsent(e, '\'', "&#x27;");
    ReplaceCharAbsent(e, '/', "&#x2F;");
  }

  lemma LtEntityKept(e: string)
    requires e == "&lt;"
    ensures ReplaceChar(ReplaceChar(ReplaceChar(ReplaceChar(e, '>', "&gt;"), '"', "&quot;"), '\'', "&#x27;"), '/', "&#x2F;") == e
  {
    ReplaceCharAbsent(e, '>', "&gt;");
    ReplaceCharAbsent(e, '"', "&quot;");
    ReplaceCharAbsent(e, '\'', "&#x27;");
    ReplaceCharAbsent(e, '/', "&#x2F;");
  }

  lemma GtEntityKept(e: string)
    requires e == "&gt;"
    ensures ReplaceChar(ReplaceChar(ReplaceChar(e, '"', "&quot;"), '\'', "&#x27;"), '/', "&#x2F;") == e
  {
    ReplaceCharAbsent(e, '"', "&quot;");
    ReplaceCharAbsent(e, '\'', "&#x27;");
    ReplaceCharAbsent(e, '/', "&#x2F;");
  }

  lemma QuotEntityKept(e: string)
    requires e == "&quot;"
    ensures ReplaceChar(ReplaceChar(e, '\'', "&#x27;"), '/', "&#x2F;") == e
  {
    ReplaceCharAbsent(e, '\'', "&#x27;");
    ReplaceCharAbsent(e, '/', "&#x2F;");
  }

  lemma AposEntityKept(e: string)
    requires e == "&#x27;"
    ensures ReplaceChar(e, '/', "&#x2F;") == e
  {
    ReplaceCharAbsent(e, '/', "&#x2F;");
  }

  lemma EscapeHtmlOfChar(h: string)
    requires |h| == 1
    ensures EscapeHtml(h) == EscapeChar(h[0])
  {
    var c := h[0];
    if c == '&' {
      ReplaceCharSingle(h, '&', "&amp;");
      AmpEntityKept(ReplaceChar(h, '&', "&amp;"));
    } else if c == '<' {
      ReplaceCharAbsent(h, '&', "&amp;");
      ReplaceCharSingle(h, '<', "&lt;");
      LtEntityKept(ReplaceChar(h, '<', "&lt;"));
    } else if c == '>' {
      ReplaceCharAbsent(h, '&', "&amp;");
      ReplaceCharAbsent(h, '<', "&lt;");
      ReplaceCharSingle(h, '>', "&gt;");
      GtEntityKept(ReplaceChar(h, '>', "&gt;"));
    } else if c == '"' {
      ReplaceCharAbsent(h, '&', "&amp;");
      ReplaceCharAbsent(h, '<', "&lt;");
      ReplaceCharAbsent(h, '>', "&gt;");
      ReplaceCharSingle(h, '"', "&quot;");
      QuotEntityKept(ReplaceChar(h, '"', "&quot;"));
    } else if c == '\'' {
      ReplaceCharAbsent(h, '&', "&amp;");
      ReplaceCharAbsent(h, '<', "&lt;");
      ReplaceCharAbsent(h, '>', "&gt;");
      ReplaceCharAbsent(h, '"', "&quot;");
      ReplaceCharSingle(h, '\'', "&#x27;");
      AposEntityKept(ReplaceChar(h, '\'', "&#x27;"));
    } else if c == '/' {
      ReplaceCharAbsent(h, '&', "&amp;");
      ReplaceCharAbsent(h, '<', "&lt;");
      ReplaceCharAbsent(h, '>', "&gt;");
      ReplaceCharAbsent(h, '"', "&quot;");
      ReplaceCharAbsent(h, '\'', "&#x27;");
      ReplaceCharSingle(h, '/', "&#x2F;");
    } else {
      ReplaceCharAbsent(h, '&', "&amp;");
      ReplaceCharAbsent(h, '<', "&lt;");
      ReplaceCharAbsent(h, '>', "&gt;");
      ReplaceCharAbsent(h, '"', "&quot;");
      ReplaceCharAbsent(h, '\'', "&#x27;");
      ReplaceCharAbsent(h, '/', "&#x2F;");
    }
  }

  /** The chain of replacements escapes each character independently. */
  lemma {:induction false} EscapeHtmlPerChar(s: string)
    ensures EscapeHtml(s) == EscapeChars(s)
  {
    if s != [] {
      var h, t := [s[0]], s[1..];
      assert s == h + t;
      ReplaceCharAppend(h, t, '&', "&amp;");
      var s1h, s1t := ReplaceChar(h, '&', "&amp;"), ReplaceChar(t, '&', "&amp;");
      ReplaceCharAppend(s1h, s1t, '<', "&lt;");
      var s2h, s2t := ReplaceChar(s1h, '<', "&lt;"), ReplaceChar(s1t, '<', "&lt;");
      ReplaceCharAppend(s2h, s2t, '>', "&gt;");
      var s3h, s3t := ReplaceChar(s2h, '>', "&gt;"), ReplaceChar(s2t, '>', "&gt;");
      ReplaceCharAppend(s3h, s3t, '"', "&quot;");
      var s4h, s4t := ReplaceChar(s3h, '"', "&quot;"), ReplaceChar(s3t, '"', "&quot;");
      ReplaceCharAppend(s4h, s4t, '\'', "&#x27;");
      var s5h, s5t := ReplaceChar(s4h, '\'', "&#x27;"), ReplaceChar(s4t, '\'', "&#x27;");
      ReplaceCharAppend(s5h, s5t, '/', "&#x2F;");
      assert EscapeHtml(s) == EscapeHtml(h) + EscapeHtml(t);
      EscapeHtmlOfChar(h);
      EscapeHtmlPerChar(t);
    }
  }

  /** An escaped character decodes back to itself, consuming exactly its entity. */
  lemma EntityOfEscaped(c: char, rest: string)
    ensures EscapeChar(c) + rest != [] && Entity(EscapeChar(c) + rest) == (c, |EscapeChar(c)|)
  {
    var e := EscapeChar(c);
    var s := e + rest;
    assert s[..|e|] == e;
    if !IsHtmlSpecial(c) {
      assert s[0] == c;
    }
  }

  lemma UnescapeEscapedChar(c: char, rest: string)
    ensures UnescapeHtml(EscapeChar(c) + rest) == [c] + UnescapeHtml(rest)
  {
    var e := EscapeChar(c);
    EntityOfEscaped(c, rest);
    assert (e + rest)[|e|..] == rest;
  }

  /** Decoding the six entities gives back exactly the text that was escaped. */
  lemma {:induction false} UnescapeEscapeHtml(s: string)
    ensures UnescapeHtml(EscapeHtml(s)) == s
  {
    EscapeHtmlPerChar(s);
    UnescapeEscapeChars(s);
  }

  lemma {:induction false} UnescapeEscapeChars(s: string)
    ensures UnescapeHtml(EscapeChars(s)) == s
  {
    if s != [] {
      UnescapeEscapedChar(s[0], EscapeChars(s[1..]));
      UnescapeEscapeChars(s[1..]);
    }
  }

  /** One of the six entities `escape_html` writes starts at index `i` of `s`. */
  predicate EntityAt(s: string, i: nat)
  {
    MatchAt(s, "&amp;", i) || MatchAt(s, "&lt;", i) || MatchAt(s, "&gt;", i)
    || MatchAt(s, "&quot;", i) || MatchAt(s, "&#x27;", i) || MatchAt(s, "&#x2F;", i)
  }

  /** Escaped text holds no raw '<', '>', '"', '\'' or '/'; every '&' starts an entity. */
  lemma {:induction false} EscapedHasNoMarkup(s: string)
    ensures forall i :: 0 <= i < |EscapeHtml(s)| ==>
      EscapeHtml(s)[i] !in {'<', '>', '"', '\'', '/'}
    ensures forall i :: 0 <= i < |EscapeHtml(s)| && EscapeHtml(s)[i] == '&' ==> EntityAt(EscapeHtml(s), i)
  {
    EscapeHtmlPerChar(s);
    EscapeCharsHasNoMarkup(s);
    EscapeCharsEntities(s);
  }

  lemma {:induction false} EscapeCharsHasNoMarkup(s: string)
    ensures forall i :: 0 <= i < |EscapeChars(s)| ==>
      EscapeChars(s)[i] !in {'<', '>', '"', '\'', '/'}
  {
    if s != [] {
      EscapeCharsHasNoMarkup(s[1..]);
      var e := EscapeChar(s[0]);
      assert forall i :: 0 <= i < |e| ==> e[i] !in {'<', '>', '"', '\'', '/'};
      assert EscapeChars(s) == e + EscapeChars(s[1..]);
    }
  }

  /** In text escaped character by character, every '&' starts an entity. */
  lemma {:induction false} EscapeCharsEntities(s: string)
    ensures forall i :: 0 <= i < |EscapeChars(s)| && EscapeChars(s)[i] == '&' ==> EntityAt(EscapeChars(s), i)
  {
    if s != [] {
      EscapeCharsEntities(s[1..]);
      var e, rest := EscapeChar(s[0]), EscapeChars(s[1..]);
      assert EscapeChars(s) == e + rest;
      forall i | 0 <= i < |e + rest| && (e + rest)[i] == '&' ensures EntityAt(e + rest, i) {
        if i < |e| {
          EntityOfChar(s[0], rest, i);
        } else {
          EntityShift(e, rest, i - |e|);
        }
      }
    }
  }

  /** The only '&' of an escaped character starts its entity. */
  lemma EntityOfChar(c: char, rest: string, i: nat)
    requires i < |EscapeChar(c)| && EscapeChar(c)[i] == '&'
    ensures EntityAt(EscapeChar(c) + rest, i)
  {
    var e := EscapeChar(c);
    assert i == 0 && IsHtmlSpecial(c);
    assert (e + rest)[..|e|] == e;
  }

  /** An entity in the text after `e` is still one when `e` comes first. */
  lemma EntityShift(e: string, rest: string, j: nat)
    requires EntityAt(rest, j)
    ensures EntityAt(e + rest, |e| + j)
  {
    var s := e + rest;
    assert s[|e|..] == rest;
    if MatchAt(rest, "&lt;", j) || MatchAt(rest, "&gt;", j) {
      assert s[|e| + j..|e| + j + 4] == rest[j..j + 4];
    } else if MatchAt(rest, "&amp;", j) {
      assert s[|e| + j..|e| + j + 5] == rest[j..j + 5];
    } else {
      assert s[|e| + j..|e| + j + 6] == rest[j..j + 6];
    }
  }

  /** Text without special characters is left as it is. */
  lemma {:induction false} EscapePlainText(s: string)
    requires forall i :: 0 <= i < |s| ==> !IsHtmlSpecial(s[i])
    ensures EscapeHtml(s) == s
  {
    EscapeHtmlPerChar(s);
    EscapeCharsPlain(s);
  }

  lemma {:induction false} EscapeCharsPlain(s: string)
    requires forall i :: 0 <= i < |s| ==> !IsHtmlSpecial(s[i])
    ensures EscapeChars(s) == s
  {
    if s != [] {
      EscapeCharsPlain(s[1..]);
    }
  }
}
