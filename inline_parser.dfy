/**
 * `parse_inline_elements` of src/parser.rs: the recursive parser of inline
 * markup. It walks a character iterator; `Scan` is its meaning on the
 * characters not yet consumed, and `ParseInlineElements` is the loop itself,
 * proved equal to it.
 *
 * The delimiter handling is modelled as written: `take_while` consumes the
 * closing delimiter it stops at, so the `chars.next()` meant to skip that
 * delimiter drops the character after it.
 */
module InlineParser {
  import opened Strings
  import opened Ast

  /** The first index at or after `from` holding `c`, or |s| when there is none. */
  function IndexFrom(s: string, from: nat, c: char): (k: nat)
    requires from <= |s|
    ensures from <= k <= |s|
    ensures k < |s| ==> s[k] == c
    decreases |s| - from
  {
    if from == |s| || s[from] == c then from else IndexFrom(s, from + 1, c)
  }

  /** No `c` is passed over on the way. */
  lemma {:induction false} IndexFromSkips(s: string, from: nat, c: char)
    requires from <= |s|
    ensures c !in s[from..IndexFrom(s, from, c)]
    decreases |s| - from
  {
    if !(from == |s| || s[from] == c) {
      IndexFromSkips(s, from + 1, c);
      assert s[from..IndexFrom(s, from, c)] == [s[from]] + s[from + 1..IndexFrom(s, from + 1, c)];
    }
  }

  /** `IndexFrom` is the first `c` at or after `from`: pinned by its defining facts. */
  lemma {:induction false} IndexFromAt(s: string, from: nat, c: char, k: nat)
    requires from <= k <= |s| && c !in s[from..k] && (k < |s| ==> s[k] == c)
    ensures IndexFrom(s, from, c) == k
    decreases k - from
  {
    if from < k {
      assert s[from] in s[from..k];
      assert s[from + 1..k] == s[from..k][1..];
      IndexFromAt(s, from + 1, c, k);
    }
  }

  /** How many characters are consumed when `n` are asked for: at most all of them. */
  function Advance(t: string, n: nat): (r: nat)
    ensures r <= |t| && r <= n
    ensures n <= |t| ==> r == n
  {
    if n <= |t| then n else |t|
  }

  /** The characters left after consuming `n` of them. */
  function Drop(t: string, n: nat): string
  {
    t[Advance(t, n)..]
  }

  /** A pending text buffer as the elements it becomes: nothing when it is empty. */
  function Flush(buffer: string): (r: seq<InlineElement>)
    ensures buffer == [] <==> r == []
    ensures r != [] ==> r == [Text(buffer)]
  {
    if buffer == [] then [] else [Text(buffer)]
  }

  /** "**" starts at `q`. */
  predicate PairAt(t: string, q: nat)
  {
    q + 1 < |t| && t[q] == '*' && t[q + 1] == '*'
  }

  /** Where a strong span opened before `from` closes: the first "**" at or after `from`, or |t|. */
  function StrongEnd(t: string, from: nat): (k: nat)
    requires from <= |t|
    ensures from <= k <= |t|
    ensures k < |t| ==> PairAt(t, k)
    decreases |t| - from
  {
    if from == |t| || PairAt(t, from) then from
    else if from + 1 == |t| then |t|
    else StrongEnd(t, from + 1)
  }

  lemma {:induction false} StrongEndAt(t: string, from: nat, k: nat)
    requires from <= k <= |t|
    requires forall q :: from <= q < k ==> !PairAt(t, q)
    requires k < |t| ==> PairAt(t, k)
    ensures StrongEnd(t, from) == k
    decreases k - from
  {
    if from < k {
      StrongEndAt(t, from + 1, k);
    }
  }

  /** The element a code span (`) or a math span ($) becomes. */
  function Span(delimiter: char, content: string): InlineElement
  {
    if delimiter == '`' then Code(content) else InlineMath(content)
  }

  /** The remaining characters start a span: code, math, a bracket, emphasis or "**". */
  predicate Opens(t: string)
  {
    t != [] && (t[0] == '`' || t[0] == '$' || t[0] == '[' || t[0] == '_' || PairAt(t, 0))
  }

  /**
   * The elements an opening character produces: one span, or nothing for a
   * bracket not followed, one character later, by '('.
   */
  function Token(t: string): seq<InlineElement>
    requires Opens(t)
    decreases |t|, 0
  {
    var c := t[0];
    if c == '`' || c == '$' then
      [Span(c, t[1..IndexFrom(t, 1, c)])]
    else if c == '[' then
      var k := IndexFrom(t, 1, ']');
      var p := k + 2;
      if p < |t| && t[p] == '(' then [Link(Scan(t[1..k], []), t[p + 1..IndexFrom(t, p + 1, ')')])]
      else []
    else if c == '_' then
      [Emphasis(Scan(t[1..IndexFrom(t, 1, '_')], []))]
    else
      [Strong(Scan(t[2..StrongEnd(t, 2)], []))]
  }

  /** How many characters an opening character's span consumes. */
  function Used(t: string): (n: nat)
    requires Opens(t)
    ensures 1 <= n <= |t|
  {
    var c := t[0];
    if c == '`' || c == '$' then Advance(t, IndexFrom(t, 1, c) + 2)
    else if c == '[' then
      var k := IndexFrom(t, 1, ']');
      var p := k + 2;
      if p < |t| && t[p] == '(' then Advance(t, IndexFrom(t, p + 1, ')') + 2)
      else Advance(t, p + 1)
    else if c == '_' then Advance(t, IndexFrom(t, 1, '_') + 1)
    else Advance(t, StrongEnd(t, 2) + 2)
  }

  /**
   * The elements produced from the remaining characters `t` when `buffer`
   * holds the text read so far. A special character flushes the buffer,
   * except a '*' that does not start "**", which is kept as text.
   */
  function Scan(t: string, buffer: string): seq<InlineElement>
    decreases |t|, 1
  {
    if t == [] then Flush(buffer)
    else if Opens(t) then Flush(buffer) + Token(t) + Scan(t[Used(t)..], [])
    else Scan(t[1..], buffer + [t[0]])
  }

  /** `parse_inline_elements` as a function of its input. */
  function ParseInline(s: string): seq<InlineElement>
  {
    Scan(s, [])
  }

  /**
   * The emphasis loop: the characters after the opening '_' up to the closing
   * one, which is consumed, or up to the end.
   */
  method CollectEmphasis(t: string) returns (text: string, used: nat)
    requires t != []
    ensures var k := IndexFrom(t, 1, '_'); text == t[1..k] && used == Advance(t, k + 1)
  {
    text := [];
    var p := 1;
    while p < |t|
      invariant 1 <= p <= |t|
      invariant text == t[1..p]
      invariant IndexFrom(t, 1, '_') == IndexFrom(t, p, '_')
    {
      if t[p] == '_' {
        used := p + 1;
        return;
      }
      text := text + [t[p]];
      p := p + 1;
    }
    used := p;
  }

  /**
   * The strong loop: the characters after the opening "**" up to the first
   * "**", which is consumed, or up to the end. A lone '*' is kept.
   */
  method CollectStrong(t: string) returns (text: string, used: nat)
    requires |t| >= 2
    ensures var k := StrongEnd(t, 2); text == t[2..k] && used == Advance(t, k + 2)
  {
    text := [];
    var p := 2;
    while p < |t|
      invariant 2 <= p <= |t|
      invariant text == t[2..p]
      invariant StrongEnd(t, 2) == StrongEnd(t, p)
    {
      var ch := t[p];
      if ch == '*' {
        if p + 1 < |t| && t[p + 1] == '*' {
          used := p + 2;
          return;
        }
        text := text + ['*'];
        p := p + 1;
      } else {
        text := text + [ch];
        p := p + 1;
      }
    }
    used := p;
  }

  /** A character that opens nothing joins the text buffer. */
  lemma ScanPlain(t: string, buffer: string)
    requires t != [] && !Opens(t)
    ensures Scan(t, buffer) == Scan(t[1..], buffer + [t[0]])
  {
  }

  /** An opening character flushes the buffer, then its span's elements come, then the rest. */
  lemma ScanOpen(t: string, buffer: string, token: seq<InlineElement>, n: nat)
    requires Opens(t) && token == Token(t) && n == Used(t)
    ensures Scan(t, buffer) == Flush(buffer) + token + Scan(t[n..], [])
  {
  }

  /** `parse_inline_elements`: the character loop, proved equal to `ParseInline`. */
  method ParseInlineElements(s: string) returns (elements: seq<InlineElement>)
    ensures elements == ParseInline(s)
    decreases |s|, 2
  {
    elements := [];
    var buffer := "";
    var i := 0;
    while i < |s|
      invariant 0 <= i <= |s|
      invariant elements + Scan(s[i..], buffer) == ParseInline(s)
      decreases |s| - i
    {
      var t := s[i..];
      var c := s[i];
      if !Opens(t) {
        ScanPlain(t, buffer);
        buffer := buffer + [c];
        i := i + 1;
        assert t[1..] == s[i..];
        continue;
      }
      var n;
      elements, n := FlushAndRead(elements, buffer, t);
      buffer := [];
      assert t[n..] == s[i + n..];
      i := i + n;
    }
    if buffer != [] {
      elements := elements + [Text(buffer)];
    }
  }

  /**
   * An opening character in the character loop: the buffered text is pushed
   * as one element, then the span's elements; `n` characters are used.
   */
  method FlushAndRead(elements: seq<InlineElement>, buffer: string, t: string)
      returns (pushed: seq<InlineElement>, n: nat)
    requires Opens(t)
    ensures 1 <= n <= |t| && n == Used(t)
    ensures pushed + Scan(t[n..], []) == elements + Scan(t, buffer)
    decreases |t|, 1
  {
    pushed := elements;
    if buffer != [] {
      pushed := pushed + [Text(buffer)];
    }
    var token;
    token, n := ReadSpan(t);
    ScanOpen(t, buffer, token, n);
    pushed := pushed + token;
    assert pushed == elements + Flush(buffer) + token;
  }

  /** One span of the character loop: its elements and how many characters it used. */
  method ReadSpan(t: string) returns (token: seq<InlineElement>, n: nat)
    requires Opens(t)
    ensures token == Token(t) && n == Used(t)
    decreases |t|, 0
  {
    var c := t[0];
    if c == '`' || c == '$' {
      var k := IndexFrom(t, 1, c);
      token := [Span(c, t[1..k])];
      n := Advance(t, k + 2);
    } else if c == '[' {
      var k := IndexFrom(t, 1, ']');
      var p := k + 2;
      if p < |t| && t[p] == '(' {
        var m := IndexFrom(t, p + 1, ')');
        var text := ParseInlineElements(t[1..k]);
        token := [Link(text, t[p + 1..m])];
        n := Advance(t, m + 2);
      } else {
        token := [];
        n := Advance(t, p + 1);
      }
    } else if c == '_' {
      var emphText, used := CollectEmphasis(t);
      var inner := ParseInlineElements(emphText);
      token := [Emphasis(inner)];
      n := used;
    } else {
      var strongText, used := CollectStrong(t);
      var inner := ParseInlineElements(strongText);
      token := [Strong(inner)];
      n := used;
    }
  }

  // ---- Properties -------------------------------------------------------------

  /** No empty text leaf anywhere in an element. */
  predicate NoEmptyText(e: InlineElement)
    decreases e
  {
    match e
    case Text(text) => text != []
    case Link(children, _) => forall i :: 0 <= i < |children| ==> NoEmptyText(children[i])
    case Emphasis(children) => forall i :: 0 <= i < |children| ==> NoEmptyText(children[i])
    case Strong(children) => forall i :: 0 <= i < |children| ==> NoEmptyText(children[i])
    case _ => true
  }

  predicate AllNoEmptyText(es: seq<InlineElement>)
  {
    forall i :: 0 <= i < |es| ==> NoEmptyText(es[i])
  }

  lemma AllNoEmptyTextAppend(a: seq<InlineElement>, b: seq<InlineElement>)
    requires AllNoEmptyText(a) && AllNoEmptyText(b)
    ensures AllNoEmptyText(a + b)
  {
    forall i | 0 <= i < |a + b| ensures NoEmptyText((a + b)[i]) {
      if i >= |a| {
        assert (a + b)[i] == b[i - |a|];
      }
    }
  }

  /** The parser never emits an empty text element, at any depth. */
  lemma {:induction false} ScanNoEmptyText(t: string, buffer: string)
    ensures AllNoEmptyText(Scan(t, buffer))
    decreases |t|, 1
  {
    if t != [] {
      if Opens(t) {
        TokenNoEmptyText(t);
        ScanNoEmptyText(t[Used(t)..], []);
        AllNoEmptyTextAppend(Flush(buffer), Token(t));
        AllNoEmptyTextAppend(Flush(buffer) + Token(t), Scan(t[Used(t)..], []));
      } else {
        ScanNoEmptyText(t[1..], buffer + [t[0]]);
      }
    }
  }

  lemma {:induction false} TokenNoEmptyText(t: string)
    requires Opens(t)
    ensures AllNoEmptyText(Token(t))
    decreases |t|, 0
  {
    var c := t[0];
    if c == '[' {
      var k := IndexFrom(t, 1, ']');
      ScanNoEmptyText(t[1..k], []);
    } else if c == '_' {
      ScanNoEmptyText(t[1..IndexFrom(t, 1, '_')], []);
    } else if c != '`' && c != '$' {
      ScanNoEmptyText(t[2..StrongEnd(t, 2)], []);
    }
  }

  /** `parse_inline_elements` never emits an empty `Text`. */
  lemma ParseInlineNoEmptyText(s: string)
    ensures AllNoEmptyText(ParseInline(s))
  {
    ScanNoEmptyText(s, []);
  }

  /** No element of the sequence is a reference anchor. */
  predicate NoAnchor(es: seq<InlineElement>)
  {
    forall i :: 0 <= i < |es| ==> !es[i].ReferenceAnchor?
  }

  /**
   * The parser never emits a reference anchor at the top level: only text,
   * code, math, links, emphasis and strong text come out of it.
   */
  lemma {:induction false} ScanNoAnchor(t: string, buffer: string)
    ensures NoAnchor(Scan(t, buffer))
    decreases |t|
  {
    if t != [] {
      if Opens(t) {
        ScanNoAnchor(t[Used(t)..], []);
        var head := Flush(buffer) + Token(t);
        assert NoAnchor(head);
        var all := head + Scan(t[Used(t)..], []);
        forall i | 0 <= i < |all| ensures !all[i].ReferenceAnchor? {
          if i >= |head| {
            assert all[i] == Scan(t[Used(t)..], [])[i - |head|];
          }
        }
      } else {
        ScanNoAnchor(t[1..], buffer + [t[0]]);
      }
    }
  }

  /** A character that opens nothing where it stands: it goes to the text buffer. */
  predicate LiteralAt(t: string, q: nat)
    requires q < |t|
  {
    t[q] != '`' && t[q] != '$' && t[q] != '[' && t[q] != '_' && !PairAt(t, q)
  }

  /** A run of literal characters is collected into the buffer unchanged. */
  lemma {:induction false} LiteralRun(t: string, buffer: string)
    requires forall q :: 0 <= q < |t| ==> LiteralAt(t, q)
    ensures Scan(t, buffer) == Flush(buffer + t)
    decreases |t|
  {
    if t != [] {
      forall q | 0 <= q < |t[1..]| ensures LiteralAt(t[1..], q) {
        assert LiteralAt(t, q + 1);
      }
      assert LiteralAt(t, 0);
      LiteralRun(t[1..], buffer + [t[0]]);
      assert buffer + [t[0]] + t[1..] == buffer + t;
    } else {
      assert buffer + t == buffer;
    }
  }

  /** No character that could open a span. */
  predicate Plain(s: string)
  {
    forall q :: 0 <= q < |s| ==> s[q] != '`' && s[q] != '$' && s[q] != '[' && s[q] != '_' && s[q] != '*'
  }

  /** A single '*' between plain text is kept literally in the text. */
  lemma SingleStarKept(a: string, b: string)
    requires Plain(a) && Plain(b)
    ensures ParseInline(a + ['*'] + b) == [Text(a + ['*'] + b)]
  {
    var t := a + ['*'] + b;
    forall q | 0 <= q < |t| ensures LiteralAt(t, q) {
      if q < |a| {
        assert t[q] == a[q];
      } else if q > |a| {
        assert t[q] == b[q - |a| - 1];
      } else {
        assert q + 1 < |t| ==> t[q + 1] == b[0];
      }
    }
    LiteralRun(t, []);
    assert [] + t == t && t != [];
  }

  /**
   * A code or math span drops the character after its closing delimiter:
   * `take_while` has already consumed the delimiter when `chars.next()` runs.
   */
  lemma SpanDropsNextChar(delimiter: char, content: string, x: char, rest: string)
    requires delimiter == '`' || delimiter == '$'
    requires delimiter !in content
    ensures ParseInline([delimiter] + content + [delimiter, x] + rest)
      == [Span(delimiter, content)] + ParseInline(rest)
  {
    var t := [delimiter] + content + [delimiter, x] + rest;
    var k := 1 + |content|;
    assert t[1..k] == content;
    assert t[k] == delimiter;
    IndexFromAt(t, 1, delimiter, k);
    assert Opens(t) && Token(t) == [Span(delimiter, content)] && Used(t) == k + 2;
    assert t[k + 2..] == rest;
    assert Scan(t, []) == [] + Token(t) + Scan(rest, []);
  }

  /**
   * A link forms only when the second character after ']' is '(': the one
   * right after ']' is skipped unread.
   */
  lemma LinkSkipsOneChar(text: string, x: char, url: string, y: char, rest: string)
    requires ']' !in text && ')' !in url
    ensures ParseInline(['['] + text + [']', x, '('] + url + [')', y] + rest)
      == [Link(ParseInline(text), url)] + ParseInline(rest)
  {
    var t := ['['] + text + [']', x, '('] + url + [')', y] + rest;
    var k := 1 + |text|;
    assert t[1..k] == text && t[k] == ']';
    IndexFromAt(t, 1, ']', k);
    var p := k + 2;
    assert t[p] == '(';
    var pre := ['['] + text + [']', x, '('];
    assert t == pre + url + ([')', y] + rest) && |pre| == p + 1;
    var m := p + 1 + |url|;
    assert t[p + 1..m] == url && t[m] == ')';
    IndexFromAt(t, p + 1, ')', m);
    assert Opens(t) && Token(t) == [Link(ParseInline(text), url)] && Used(t) == m + 2;
    assert t[m + 2..] == rest;
    assert Scan(t, []) == [] + Token(t) + Scan(rest, []);
  }

  /**
   * The usual `[text](url)` spelling is no link: the text and the '(' vanish,
   * the first character of the url too, and parsing resumes after it.
   */
  lemma AdjacentParenIsNoLink(text: string, url: string)
    requires ']' !in text && url != [] && url[0] != '('
    ensures ParseInline(['['] + text + [']', '('] + url) == ParseInline(url[1..])
  {
    var t := ['['] + text + [']', '('] + url;
    var k := 1 + |text|;
    assert t[1..k] == text && t[k] == ']';
    IndexFromAt(t, 1, ']', k);
    assert t[k + 2] == url[0];
    assert Opens(t) && Token(t) == [] && Used(t) == k + 3;
    assert t[k + 3..] == url[1..];
    assert Scan(t, []) == [] + [] + Scan(url[1..], []);
  }

  /** An emphasis span's contents are parsed on their own, from a shorter string. */
  lemma EmphasisSpan(text: string, rest: string)
    requires '_' !in text
    ensures ParseInline(['_'] + text + ['_'] + rest) == [Emphasis(ParseInline(text))] + ParseInline(rest)
  {
    var t := ['_'] + text + ['_'] + rest;
    var k := 1 + |text|;
    assert t[1..k] == text && t[k] == '_';
    IndexFromAt(t, 1, '_', k);
    assert Opens(t) && Token(t) == [Emphasis(ParseInline(text))] && Used(t) == k + 1;
    assert t[k + 1..] == rest;
    assert Scan(t, []) == [] + Token(t) + Scan(rest, []);
  }

  /** A strong span's contents are parsed on their own, from a shorter string. */
  lemma StrongSpan(text: string, rest: string)
    requires '*' !in text
    ensures ParseInline(['*', '*'] + text + ['*', '*'] + rest) == [Strong(ParseInline(text))] + ParseInline(rest)
  {
    var t := ['*', '*'] + text + ['*', '*'] + rest;
    var k := 2 + |text|;
    assert t[2..k] == text;
    forall q | 2 <= q < k ensures !PairAt(t, q) {
      assert t[q] == text[q - 2];
    }
    assert PairAt(t, k);
    StrongEndAt(t, 2, k);
    assert Opens(t) && Token(t) == [Strong(ParseInline(text))] && Used(t) == k + 2;
    assert t[k + 2..] == rest;
    assert Scan(t, []) == [] + Token(t) + Scan(rest, []);
  }
}
