/**
 * The block part of src/html_renderer.rs: `render_html` writes the optional
 * header and then every block of the body, each through `render_block`.
 *
 * Every piece of text that comes from the document is escaped, so the
 * markup around it can be read back: the decoders `ElementText` (the text
 * between an element's opening tag and the next tag) and `QuotedText` (an
 * attribute's value) recover the original text from the HTML.
 */
module HtmlRenderer {
  import opened Wrappers
  import opened Strings
  import opened Ast
  import opened HtmlEscape
  import opened InlineHtml
  import opened RenderList

  // ---- Reading the HTML back ------------------------------------------------------

  /** The part of `s` before the first `c`, or all of `s`. */
  function UpTo(s: string, c: char): (r: string)
    ensures |r| <= |s| && c !in r
  {
    match IndexOf(s, c)
    case None => s
    case Some(i) => s[..i]
  }

  /** The decoded text between the end of the first tag (its `>`) and the next `<`. */
  function ElementText(html: string): Option<string>
  {
    match IndexOf(html, '>')
    case None => None
    case Some(i) => Some(UnescapeHtml(UpTo(html[i + 1..], '<')))
  }

  /** The decoded value of an attribute whose opening quote has just been read. */
  function QuotedText(s: string): string
  {
    UnescapeHtml(UpTo(s, '"'))
  }

  /** The first `c` in `a + rest` is the one that starts `rest`, when `a` holds none. */
  lemma {:induction false} IndexOfAppend(a: string, c: char, rest: string)
    requires c !in a && rest != [] && rest[0] == c
    ensures IndexOf(a + rest, c) == Some(|a|)
  {
    if a == [] {
      assert a + rest == rest;
    } else {
      assert (a + rest)[1..] == a[1..] + rest;
      IndexOfAppend(a[1..], c, rest);
    }
  }

  lemma DropPrefix(a: string, b: string)
    ensures (a + b)[|a|..] == b
  {
  }

  /** Escaped text stops at the first `<` or `"` that follows it. */
  lemma UpToEscaped(text: string, c: char, rest: string)
    requires c == '<' || c == '"'
    requires rest != [] && rest[0] == c
    ensures UpTo(EscapeHtml(text) + rest, c) == EscapeHtml(text)
  {
    var e := EscapeHtml(text);
    EscapedHasNoMarkup(text);
    IndexOfAppend(e, c, rest);
    assert (e + rest)[..|e|] == e;
  }

  /**
   * An element whose opening tag ends with its only `>` gives back its
   * escaped text, up to the tag that follows.
   */
  lemma ElementTextOf(open: string, text: string, rest: string)
    requires open != [] && open[|open| - 1] == '>' && '>' !in open[..|open| - 1]
    requires rest != [] && rest[0] == '<'
    ensures ElementText(open + EscapeHtml(text) + rest) == Some(text)
  {
    var e := EscapeHtml(text);
    var n := |open| - 1;
    var tail := ">" + (e + rest);
    assert open + e + rest == open[..n] + tail by {
      assert open == open[..n] + ">";
    }
    IndexOfAppend(open[..n], '>', tail);
    assert (open[..n] + tail)[n + 1..] == e + rest;
    UpToEscaped(text, '<', rest);
    UnescapeEscapeHtml(text);
  }

  /** An attribute value written escaped and closed by a quote reads back as the value. */
  lemma QuotedTextOf(text: string, rest: string)
    requires rest != [] && rest[0] == '"'
    ensures QuotedText(EscapeHtml(text) + rest) == text
  {
    UpToEscaped(text, '"', rest);
    UnescapeEscapeHtml(text);
  }

  lemma NoGtInEscaped(text: string)
    ensures '>' !in EscapeHtml(text)
  {
    EscapedHasNoMarkup(text);
  }

  // ---- Regrouping concatenations ------------------------------------------------
  // Each names one regrouping a read-back proof below needs, so that the proof
  // states it in one call instead of leaving the solver to search for it.

  lemma TakePrefix(a: string, b: string)
    ensures (a + b)[..|a|] == a
  {
  }

  lemma Regroup3(a: string, b: string, c: string, d: string)
    ensures ((a + b) + c) + d == a + ((b + c) + d)
  {
  }

  lemma Regroup4(a: string, b: string, c: string, d: string, e: string)
    ensures (((a + b) + c) + d) + e == a + (((b + c) + d) + e)
  {
  }

  lemma Regroup5(a: string, b: string, c: string, d: string, e: string, f: string)
    ensures ((((a + b) + c) + d) + e) + f == a + ((((b + c) + d) + e) + f)
  {
  }

  lemma RegroupClass(p: string, q: string, l: string, r: string, g: string, e: string, t: string)
    ensures (((p + ((q + l) + r)) + g) + e) + t == (p + q) + (l + (((r + g) + e) + t))
  {
  }

  lemma RegroupAfterFirst(a: string, b: string, c: string, d: string, e: string, f: string, g: string)
    ensures (((((a + b) + c) + d) + e) + f) + g == a + (b + ((((c + d) + e) + f) + g))
  {
  }

  lemma RegroupAfterThird(a: string, b: string, c: string, d: string, e: string, f: string, g: string)
    ensures (((((a + b) + c) + d) + e) + f) + g == ((a + b) + c) + (d + ((e + f) + g))
  {
  }

  // ---- The header ---------------------------------------------------------------

  /** The date paragraph of `render_header`, when there is a date. */
  function DateHtml(date: Option<string>): string
  {
    match date
    case Some(d) => "<p class=\"date\">" + EscapeHtml(d) + "</p>\n"
    case None => ""
  }

  /** `render_header`: the escaped title in an `<h1>`, then the escaped date, if any. */
  function HeaderHtml(header: ArticleHeader): string
  {
    "<header>\n" + "<h1>" + EscapeHtml(header.title) + "</h1>\n" + DateHtml(header.date) + "</header>\n"
  }

  /** Where the date paragraph starts: after the opening tag and the title. */
  function DateOffset(header: ArticleHeader): nat
  {
    |"<header>\n<h1>"| + |EscapeHtml(header.title)| + |"</h1>\n"|
  }

  /** The header's `<h1>` reads back as the title, whatever follows the header. */
  lemma HeaderTitle(header: ArticleHeader, rest: string)
    ensures var html := HeaderHtml(header) + rest;
      StartsWith(html, "<header>\n") && ElementText(html[|"<header>\n"|..]) == Some(header.title)
  {
    var h, o, e := "<header>\n", "<h1>", EscapeHtml(header.title);
    var tail := (("</h1>\n" + DateHtml(header.date)) + "</header>\n") + rest;
    Regroup4(h + o + e, "</h1>\n", DateHtml(header.date), "</header>\n", rest);
    Regroup3(h, o, e, tail);
    DropPrefix(h, (o + e) + tail);
    TakePrefix(h, (o + e) + tail);
    ElementTextOf(o, header.title, tail);
  }

  /** After the title comes a date paragraph exactly when there is a date, and it reads back as the date. */
  lemma HeaderDate(header: ArticleHeader)
    ensures DateOffset(header) <= |HeaderHtml(header)|
    ensures var after := HeaderHtml(header)[DateOffset(header)..];
      (header.date.None? <==> after == "</header>\n")
      && (header.date.Some? ==> StartsWith(after, "<p") && ElementText(after) == Some(header.date.value))
  {
    var front := "<header>\n" + "<h1>" + EscapeHtml(header.title) + "</h1>\n";
    var date := DateHtml(header.date);
    var close := "</header>\n";
    AppendAssoc(front, date, close);
    DropPrefix(front, date + close);
    match header.date
    case None =>
      assert date + close == close;
    case Some(d) =>
      var p := "<p class=\"date\">";
      AppendAssoc(p + EscapeHtml(d), "</p>\n", close);
      assert (date + close)[1] == 'p';
      ElementTextOf(p, d, "</p>\n" + close);
  }

  // ---- The blocks -------------------------------------------------------------------

  /** The class attribute of `render_code_block`, when a language is given. */
  function LanguageClass(language: Option<string>): string
  {
    match language
    case Some(lang) => " class=\"language-" + EscapeHtml(lang) + "\""
    case None => ""
  }

  /** `render_code_block`: a `language-` class only when a language is given. */
  function CodeBlockHtml(language: Option<string>, code: string): string
  {
    "<pre>" + "<code" + LanguageClass(language) + ">" + EscapeHtml(code) + "</code></pre>\n"
  }

  /** The code reads back from inside `<pre>`. */
  lemma CodeBlockCode(language: Option<string>, code: string)
    ensures var html := CodeBlockHtml(language, code);
      StartsWith(html, "<pre>") && ElementText(html[|"<pre>"|..]) == Some(code)
  {
    var cls := LanguageClass(language);
    var e := EscapeHtml(code);
    var tail := "</code></pre>\n";
    Regroup5("<pre>", "<code", cls, ">", e, tail);
    DropPrefix("<pre>", ((("<code" + cls) + ">") + e) + tail);
    assert '>' !in cls by {
      match language
      case None =>
      case Some(lang) =>
        NoGtInEscaped(lang);
    }
    var open := ("<code" + cls) + ">";
    assert open[..|open| - 1] == "<code" + cls;
    ElementTextOf(open, code, tail);
  }

  /** The opening `<code` tag ends at once exactly when no language is given. */
  lemma CodeBlockClass(language: Option<string>, code: string)
    ensures var html := CodeBlockHtml(language, code);
      |html| > 10 && (language.None? <==> html[|"<pre><code"|] == '>')
  {
    var cls := LanguageClass(language);
    var rest := ((cls + ">") + EscapeHtml(code)) + "</code></pre>\n";
    Regroup3("<pre>" + "<code", cls, ">", EscapeHtml(code));
    AppendAssoc("<pre>" + "<code", (cls + ">") + EscapeHtml(code), "</code></pre>\n");
    assert CodeBlockHtml(language, code)[10] == rest[0];
    match language
    case None =>
      assert rest[0] == '>';
    case Some(lang) =>
      assert cls[0] == ' ';
  }

  /** The class attribute's value after `language-` reads back as the language. */
  lemma CodeBlockLanguage(lang: string, code: string)
    ensures var html := CodeBlockHtml(Some(lang), code);
      var open := "<pre>" + "<code" + " class=\"language-";
      |html| > |open| && html[..|open|] == open && QuotedText(html[|open|..]) == lang
  {
    var p, q, l := "<pre>" + "<code", " class=\"language-", EscapeHtml(lang);
    var after := ((("\"" + ">") + EscapeHtml(code)) + "</code></pre>\n");
    RegroupClass(p, q, l, "\"", ">", EscapeHtml(code), "</code></pre>\n");
    DropPrefix(p + q, l + after);
    TakePrefix(p + q, l + after);
    QuotedTextOf(lang, after);
  }

  /** The heading level written: the section level, at most 6. */
  function HeadingLevel(level: nat): nat
  {
    if level < 6 then level else 6
  }

  function HeadingTag(level: nat): string
  {
    "h" + NatToString(HeadingLevel(level))
  }

  /** The heading tag is `h` and one digit: the section level, clamped to 6. */
  lemma HeadingTagClamped(level: nat)
    ensures var tag := HeadingTag(level);
      |tag| == 2 && tag[0] == 'h' && IsAsciiDigit(tag[1])
      && (level <= 6 ==> DigitValue(tag[1]) == level)
      && (level >= 6 ==> DigitValue(tag[1]) == 6)
  {
  }

  /** `render_section_header`: the heading tag, the id written unquoted, and the escaped title. */
  function SectionHeaderHtml(level: nat, id: string, title: string): string
  {
    var tag := HeadingTag(level);
    "<" + tag + " id=" + id + ">" + EscapeHtml(title) + "</" + tag + ">\n"
  }

  /** With an id free of `>`, the heading reads back as the title. */
  lemma SectionHeaderTitle(level: nat, id: string, title: string)
    requires '>' !in id
    ensures ElementText(SectionHeaderHtml(level, id, title)) == Some(title)
  {
    var tag := HeadingTag(level);
    HeadingTagClamped(level);
    assert '>' !in tag by {
      assert tag == [tag[0], tag[1]];
    }
    var front := ("<" + tag) + " id=";
    var open := (front + id) + ">";
    var e := EscapeHtml(title);
    Regroup3(open + e, "</", tag, ">\n");
    assert open[..|open| - 1] == front + id;
    ElementTextOf(open, title, ("</" + tag) + ">\n");
  }

  /** `render_blockquote`. */
  function BlockquoteHtml(elements: seq<InlineElement>): string
  {
    "<blockquote>" + RenderInlines(elements) + "</blockquote>\n"
  }

  /** `render_image_figure`: the escaped url, the caption's escaped text as alt text, and the caption. */
  function FigureHtml(url: string, caption: seq<InlineElement>): string
  {
    "<figure>\n  <img src=\"" + EscapeHtml(url) + "\" alt=\"" + EscapeHtml(ExtractText(caption))
      + "\" />\n  <figcaption>" + RenderInlines(caption) + "</figcaption>\n</figure>\n"
  }

  /** The `src` attribute reads back as the url, and the `alt` attribute as the caption's text. */
  lemma FigureAttributes(url: string, caption: seq<InlineElement>)
    ensures var html := FigureHtml(url, caption);
      var srcAt := |"<figure>\n  <img src=\""|;
      var altAt := srcAt + |EscapeHtml(url)| + |"\" alt=\""|;
      altAt <= |html|
      && QuotedText(html[srcAt..]) == url
      && QuotedText(html[altAt..]) == ExtractText(caption)
  {
    var f, eu, a := "<figure>\n  <img src=\"", EscapeHtml(url), "\" alt=\"";
    var alt := ExtractText(caption);
    var ea, t, rc, t2 := EscapeHtml(alt), "\" />\n  <figcaption>", RenderInlines(caption), "</figcaption>\n</figure>\n";
    var afterUrl := (((a + ea) + t) + rc) + t2;
    RegroupAfterFirst(f, eu, a, ea, t, rc, t2);
    DropPrefix(f, eu + afterUrl);
    QuotedTextOf(url, afterUrl);
    var front := (f + eu) + a;
    RegroupAfterThird(f, eu, a, ea, t, rc, t2);
    DropPrefix(front, ea + ((t + rc) + t2));
    QuotedTextOf(alt, (t + rc) + t2);
  }

  /** `render_display_math`: the escaped equation between `$$` lines. */
  function MathHtml(equation: string): string
  {
    "$$\n" + EscapeHtml(equation) + "\n$$\n"
  }

  /** The equation reads back from between the `$$` lines. */
  lemma MathRoundTrip(equation: string)
    ensures var html := MathHtml(equation);
      |html| >= 7 && StartsWith(html, "$$\n") && EndsWith(html, "\n$$\n")
      && UnescapeHtml(html[3..|html| - 4]) == equation
  {
    var html := MathHtml(equation);
    assert html[3..|html| - 4] == EscapeHtml(equation);
    UnescapeEscapeHtml(equation);
  }

  /** `render_paragraph`. */
  function ParagraphHtml(elements: seq<InlineElement>): string
  {
    "<p>" + RenderInlines(elements) + "</p>\n"
  }

  /** A paragraph of plain text with nothing to escape is written as it was read. */
  lemma PlainParagraph(s: string)
    requires s != [] && InlineParser.Plain(s)
    requires forall i :: 0 <= i < |s| ==> !IsHtmlSpecial(s[i])
    ensures ParagraphHtml(InlineParser.ParseInline(s)) == "<p>" + s + "</p>\n"
  {
    PlainTextPassesThrough(s);
  }

  /**
   * `render_block`. Tables and big buttons have no case in the source's
   * match; they are written as nothing. Lists are written with the corrected
   * levels of `ClampLevels`, where the source aborts on a level-0 item.
   */
  function BlockHtml(block: Block): string
  {
    match block
    case Raw(content) => content
    case CodeBlock(language, code) => CodeBlockHtml(language, code)
    case SectionHeader(level, id, _, title) => SectionHeaderHtml(level, id, title)
    case BlockQuote(elements) => BlockquoteHtml(elements)
    case ImageFigure(url, _, _, caption) => FigureHtml(url, caption)
    case DisplayMath(_, _, content) => MathHtml(content)
    case Table(_, _, _, _) => ""
    case BigButton(_, _) => ""
    case UnorderedList(items) => ListHtml(ClampLevels(items), "<ul>", "</ul>")
    case OrderedList(items) => ListHtml(ClampLevels(items), "<ol>", "</ol>")
    case Paragraph(elements) => ParagraphHtml(elements)
  }

  /** `render_block`, with the lists written by the stack of `render_list`. */
  method RenderBlock(block: Block) returns (html: string)
    ensures html == BlockHtml(block)
  {
    match block
    case UnorderedList(items) =>
      html := RenderListClamped(items, "<ul>", "</ul>");
    case OrderedList(items) =>
      html := RenderListClamped(items, "<ol>", "</ol>");
    case Raw(content) =>
      html := content;
    case CodeBlock(language, code) =>
      html := CodeBlockHtml(language, code);
    case SectionHeader(level, id, _, title) =>
      html := SectionHeaderHtml(level, id, title);
    case BlockQuote(elements) =>
      html := BlockquoteHtml(elements);
    case ImageFigure(url, _, _, caption) =>
      html := FigureHtml(url, caption);
    case DisplayMath(_, _, content) =>
      html := MathHtml(content);
    case Table(_, _, _, _) =>
      html := "";
    case BigButton(_, _) =>
      html := "";
    case Paragraph(elements) =>
      html := ParagraphHtml(elements);
  }

  // ---- The article ------------------------------------------------------------------

  /** The blocks written one after another. */
  function BodyHtml(blocks: seq<Block>): string
  {
    if blocks == [] then "" else BodyHtml(blocks[..|blocks| - 1]) + BlockHtml(blocks[|blocks| - 1])
  }

  /** The header part of `render_html`: the header, when there is one. */
  function HeaderPart(header: Option<ArticleHeader>): string
  {
    match header
    case Some(h) => HeaderHtml(h)
    case None => ""
  }

  /** `render_html`: the header, if any, then the body. */
  function ArticleHtml(article: Article): string
  {
    HeaderPart(article.header) + BodyHtml(article.body)
  }

  /** One more block adds its text at the end. */
  lemma BodyHtmlSnoc(blocks: seq<Block>, i: nat)
    requires i < |blocks|
    ensures BodyHtml(blocks[..i + 1]) == BodyHtml(blocks[..i]) + BlockHtml(blocks[i])
  {
    assert blocks[..i + 1][..i] == blocks[..i];
  }

  /** Writing a body in two parts writes the parts one after the other. */
  lemma {:induction false} BodyHtmlAppend(a: seq<Block>, b: seq<Block>)
    ensures BodyHtml(a + b) == BodyHtml(a) + BodyHtml(b)
    decreases |b|
  {
    if b == [] {
      assert a + b == a;
    } else {
      var front := b[..|b| - 1];
      assert (a + b)[..|a + b| - 1] == a + front;
      BodyHtmlAppend(a, front);
      AppendAssoc(BodyHtml(a), BodyHtml(front), BlockHtml(b[|b| - 1]));
    }
  }

  /** A header comes first, and its title reads back from the page. */
  lemma ArticleHeaderFirst(article: Article)
    requires article.header.Some?
    ensures var html := ArticleHtml(article);
      StartsWith(html, "<header>\n") && ElementText(html[|"<header>\n"|..]) == Some(article.header.value.title)
  {
    HeaderTitle(article.header.value, BodyHtml(article.body));
  }

  /** `render_html`: the header, then every block, in order. */
  method RenderHtml(article: Article) returns (html: string)
    ensures html == ArticleHtml(article)
  {
    html := "";
    if article.header.Some? {
      html := HeaderHtml(article.header.value);
    }
    ghost var head := html;
    assert head == HeaderPart(article.header);
    for i := 0 to |article.body|
      invariant html == head + BodyHtml(article.body[..i])
    {
      var blockHtml := RenderBlock(article.body[i]);
      BodyHtmlSnoc(article.body, i);
      AppendAssoc(head, BodyHtml(article.body[..i]), blockHtml);
      html := html + blockHtml;
    }
    assert article.body[..|article.body|] == article.body;
  }
}
