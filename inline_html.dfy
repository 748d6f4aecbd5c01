/**
 * The inline part of src/html_renderer.rs: `render_inline_element(s)` and
 * `extract_text`, the plain text of a caption used as an image's alt text.
 */
module InlineHtml {
  import opened Strings
  import opened Ast
  import opened HtmlEscape
  import opened InlineParser

  /** `render_inline_element`: escaped text and code, and the tags around each kind. */
  function RenderInline(e: InlineElement): string
    decreases e
  {
    match e
    case Text(text) => EscapeHtml(text)
    case Code(code) => "<code>" + EscapeHtml(code) + "</code>"
    case InlineMath(math) => "$" + EscapeHtml(math) + "$"
    case Link(linkText, url) => "<a href=\"" + EscapeHtml(url) + "\">" + RenderInlines(linkText) + "</a>"
    case Emphasis(content) => "<em>" + RenderInlines(content) + "</em>"
    case Strong(content) => "<strong>" + RenderInlines(content) + "</strong>"
    case Reference(name) => "<a class=\"refname\" href=\"#" + name + "\">" + name + "</a>"
    case ReferenceAnchor(anchor, invisible) =>
      if invisible then "" else "<span class=\"refname\" id=\"#" + anchor + "\">" + anchor + "</a>"
  }

  /** `render_inline_elements`: the renderings of the elements, in order. */
  function RenderInlines(es: seq<InlineElement>): string
    decreases es
  {
    if es == [] then "" else RenderInline(es[0]) + RenderInlines(es[1..])
  }

  /**
   * `extract_text` of one element: the text of a leaf, the text of the
   * children of a link, emphasis or strong text, and the name a reference shows.
   */
  function ExtractOne(e: InlineElement): string
    decreases e
  {
    match e
    case Text(text) => text
    case Code(code) => code
    case InlineMath(math) => math
    case Link(linkText, _) => ExtractText(linkText)
    case Emphasis(content) => ExtractText(content)
    case Strong(content) => ExtractText(content)
    case Reference(name) => name
    case ReferenceAnchor(anchor, invisible) => if invisible then "" else anchor
  }

  /** `extract_text`: the plain text of the elements, joined in order. */
  function ExtractText(es: seq<InlineElement>): string
    decreases es
  {
    if es == [] then "" else ExtractOne(es[0]) + ExtractText(es[1..])
  }

  /** Rendering a concatenation renders each part, in order. */
  lemma {:induction false} RenderInlinesAppend(a: seq<InlineElement>, b: seq<InlineElement>)
    ensures RenderInlines(a + b) == RenderInlines(a) + RenderInlines(b)
  {
    if a != [] {
      assert (a + b)[1..] == a[1..] + b;
      RenderInlinesAppend(a[1..], b);
      assert (a + b)[0] == a[0];
    } else {
      assert a + b == b;
    }
  }

  /** The text of a concatenation is the texts of the parts, in order. */
  lemma {:induction false} ExtractTextAppend(a: seq<InlineElement>, b: seq<InlineElement>)
    ensures ExtractText(a + b) == ExtractText(a) + ExtractText(b)
  {
    if a != [] {
      assert (a + b)[1..] == a[1..] + b;
      ExtractTextAppend(a[1..], b);
      assert (a + b)[0] == a[0];
    } else {
      assert a + b == b;
    }
  }

  /** Invisible reference anchors render as nothing at all. */
  lemma {:induction false} HiddenAnchorsRenderNothing(es: seq<InlineElement>)
    requires forall i :: 0 <= i < |es| ==> es[i].ReferenceAnchor? && es[i].invisible
    ensures RenderInlines(es) == "" && ExtractText(es) == ""
  {
    if es != [] {
      HiddenAnchorsRenderNothing(es[1..]);
    }
  }

  /**
   * Text with no markup characters and nothing to escape passes from the
   * inline parser through the renderer unchanged, and it is its own alt text.
   */
  lemma PlainTextPassesThrough(s: string)
    requires s != [] && Plain(s)
    requires forall i :: 0 <= i < |s| ==> !IsHtmlSpecial(s[i])
    ensures RenderInlines(ParseInline(s)) == s
    ensures ExtractText(ParseInline(s)) == s
  {
    forall q | 0 <= q < |s| ensures LiteralAt(s, q) {
    }
    LiteralRun(s, []);
    assert [] + s == s;
    EscapePlainText(s);
    assert ParseInline(s) == [Text(s)];
    assert RenderInlines([Text(s)]) == RenderInline(Text(s)) + RenderInlines([]);
    assert ExtractText([Text(s)]) == ExtractOne(Text(s)) + ExtractText([]);
  }

  /** The rendering of text decodes back to the text: escaping loses nothing. */
  lemma TextRoundTrip(t: string)
    ensures UnescapeHtml(RenderInlines([Text(t)])) == t
  {
    assert RenderInlines([Text(t)]) == EscapeHtml(t) + RenderInlines([]);
    assert EscapeHtml(t) + "" == EscapeHtml(t);
    UnescapeEscapeHtml(t);
  }
}
