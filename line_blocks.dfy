/**
 * The block parsers of src/parser.rs that need no parser state. The shared
 * `Peekable<Lines>` iterator is modelled as the sequence of lines and the
 * index of the next unread one; each parser returns its block and the index
 * after the lines it consumed.
 */
module LineBlocks {
  import opened Wrappers
  import opened Strings
  import opened Ast
  import opened InlineParser

  /**
   * A line of the body and its `trim()`. Every parser of src/parser.rs looks
   * at a line through `line.trim()`; the trimmed text is computed once per
   * line (`TrimmedLines`) and carried along.
   */
  datatype Line = Line(raw: string, trimmed: string)

  /** The lines as the parsers see them: each with its trimmed text. */
  function TrimmedLines(raw: seq<string>): (r: seq<Line>)
    ensures |r| == |raw|
    ensures forall j :: 0 <= j < |r| ==> r[j].raw == raw[j] && r[j].trimmed == Trim(raw[j])
  {
    seq(|raw|, j requires 0 <= j < |raw| => Line(raw[j], Trim(raw[j])))
  }

  /** Each line followed by "\n": the text a block collects with `push_str` and `push('\n')`. */
  function JoinLines(ls: seq<Line>): (r: string)
    ensures |r| >= |ls|
  {
    if ls == [] then [] else JoinLines(ls[..|ls| - 1]) + ls[|ls| - 1].raw + "\n"
  }

  lemma JoinLinesSnoc(lines: seq<Line>, from: nat, p: nat)
    requires from <= p < |lines|
    ensures JoinLines(lines[from..p + 1]) == JoinLines(lines[from..p]) + lines[p].raw + "\n"
  {
    assert lines[from..p + 1][..p - from] == lines[from..p];
  }

  /** `f` applied to each of the lines from `from` up to `end`, in order: the items a list parser collects. */
  function MapRange<T>(f: Line -> T, lines: seq<Line>, from: nat, end: nat): (r: seq<T>)
    requires from <= end <= |lines|
    ensures |r| == end - from
    decreases end
  {
    if from == end then [] else MapRange(f, lines, from, end - 1) + [f(lines[end - 1])]
  }

  lemma {:induction false} MapRangeAt<T>(f: Line -> T, lines: seq<Line>, from: nat, end: nat, i: nat)
    requires from <= i < end <= |lines|
    ensures MapRange(f, lines, from, end)[i - from] == f(lines[i])
    decreases end
  {
    if i < end - 1 {
      MapRangeAt(f, lines, from, end - 1, i);
    }
  }

  /** The index after line `k` when it exists: consuming a line that may be missing. */
  function Past(lines: seq<Line>, k: nat): (r: nat)
    requires k <= |lines|
    ensures k <= r <= |lines|
  {
    if k < |lines| then k + 1 else k
  }

  /** The number of leading `c` characters of `s`. */
  function LeadingCount(s: string, c: char): (n: nat)
    ensures n <= |s|
    ensures n < |s| ==> s[n] != c
  {
    if s != [] && s[0] == c then 1 + LeadingCount(s[1..], c) else 0
  }

  /** The characters counted are all `c`. */
  lemma {:induction false} LeadingCountRun(s: string, c: char)
    ensures forall i :: 0 <= i < LeadingCount(s, c) ==> s[i] == c
  {
    if s != [] && s[0] == c {
      LeadingCountRun(s[1..], c);
    }
  }

  lemma {:induction false} LeadingCountAt(s: string, c: char, n: nat)
    requires n <= |s| && (forall i :: 0 <= i < n ==> s[i] == c) && (n < |s| ==> s[n] != c)
    ensures LeadingCount(s, c) == n
  {
    if n > 0 {
      LeadingCountAt(s[1..], c, n - 1);
    }
  }

  // ---- Fenced blocks ----------------------------------------------------------

  /** The first line at or after `from` that trims to `fence`, or |lines|. */
  function FenceEnd(lines: seq<Line>, from: nat, fence: string): (k: nat)
    requires from <= |lines|
    ensures from <= k <= |lines|
    ensures k < |lines| ==> lines[k].trimmed == fence
    decreases |lines| - from
  {
    if from == |lines| || lines[from].trimmed == fence then from else FenceEnd(lines, from + 1, fence)
  }

  /**
   * The loop shared by raw and code blocks: the lines from `from` up to the
   * closing fence, each followed by "\n"; the fence line is consumed.
   */
  method CollectFenced(lines: seq<Line>, from: nat, fence: string) returns (content: string, next: nat)
    requires from <= |lines|
    ensures var k := FenceEnd(lines, from, fence); content == JoinLines(lines[from..k]) && next == Past(lines, k)
  {
    content := "";
    var p := from;
    while p < |lines|
      invariant from <= p <= |lines|
      invariant FenceEnd(lines, from, fence) == FenceEnd(lines, p, fence)
      invariant content == JoinLines(lines[from..p])
    {
      if lines[p].trimmed == fence {
        return content, p + 1;
      }
      JoinLinesSnoc(lines, from, p);
      content := content + lines[p].raw + "\n";
      p := p + 1;
    }
    next := p;
  }

  /** `parse_raw_block`: the lines between the opening "???" and the closing one, verbatim. */
  method ParseRawBlock(lines: seq<Line>, pos: nat) returns (block: Block, next: nat)
    requires pos < |lines|
    ensures var k := FenceEnd(lines, pos + 1, "???");
      block == Raw(JoinLines(lines[pos + 1..k])) && next == Past(lines, k)
    ensures pos < next <= |lines|
  {
    var content;
    content, next := CollectFenced(lines, pos + 1, "???");
    block := Raw(content);
  }

  /** The optional "lang NAME" line after the opening "~~~": the language and where the code starts. */
  function LanguageLine(lines: seq<Line>, p: nat): (r: (Option<string>, nat))
    requires p <= |lines|
    ensures r.1 <= |lines| && p <= r.1 <= p + 1
    ensures r.0.Some? <==> r.1 == p + 1
  {
    if p < |lines| && StartsWith(lines[p].trimmed, "lang ") then (Some(lines[p].trimmed[5..]), p + 1)
    else (None, p)
  }

  /** `parse_code_block`: an optional language line, then the code up to the closing "~~~". */
  method ParseCodeBlock(lines: seq<Line>, pos: nat) returns (block: Block, next: nat)
    requires pos < |lines|
    ensures var (language, start) := LanguageLine(lines, pos + 1);
      var k := FenceEnd(lines, start, "~~~");
      block == CodeBlock(language, JoinLines(lines[start..k])) && next == Past(lines, k)
    ensures pos < next <= |lines|
  {
    var language: Option<string> := None;
    var start := pos + 1;
    if start < |lines| {
      var trimmed := lines[start].trimmed;
      if StartsWith(trimmed, "lang ") {
        language := Some(trimmed[5..]);
        start := start + 1;
      }
    }
    var code;
    code, next := CollectFenced(lines, start, "~~~");
    block := CodeBlock(language, code);
  }

  // ---- Block quotes -----------------------------------------------------------

  predicate IsQuoteLine(line: Line)
  {
    StartsWith(line.trimmed, "> ")
  }

  /** A quote line's text: trimmed, without its leading "> ". */
  function QuoteBody(line: Line): (r: string)
    ensures IsQuoteLine(line) ==> r == line.trimmed[2..]
  {
    var t := line.trimmed;
    if |t| >= 2 then t[2..] else []
  }

  /** The first line at or after `from` that is not a quote line, or |lines|. */
  function QuoteEnd(lines: seq<Line>, from: nat): (k: nat)
    requires from <= |lines|
    ensures from <= k <= |lines|
    ensures k < |lines| ==> !IsQuoteLine(lines[k])
    decreases |lines| - from
  {
    if from == |lines| || !IsQuoteLine(lines[from]) then from else QuoteEnd(lines, from + 1)
  }

  /** The quoted text: each line trimmed, without its "> ", followed by "\n". */
  function QuoteText(ls: seq<Line>): string
  {
    if ls == [] then [] else QuoteText(ls[..|ls| - 1]) + QuoteBody(ls[|ls| - 1]) + "\n"
  }

  lemma QuoteTextSnoc(lines: seq<Line>, from: nat, p: nat)
    requires from <= p < |lines|
    ensures QuoteText(lines[from..p + 1]) == QuoteText(lines[from..p]) + QuoteBody(lines[p]) + "\n"
  {
    assert lines[from..p + 1][..p - from] == lines[from..p];
  }

  /** The line loop of `parse_blockquote`: the quoted text up to the first other line. */
  method CollectQuote(lines: seq<Line>, pos: nat) returns (content: string, next: nat)
    requires pos <= |lines|
    ensures next == QuoteEnd(lines, pos) && content == QuoteText(lines[pos..next])
  {
    content := "";
    next := pos;
    while next < |lines|
      invariant pos <= next <= |lines|
      invariant QuoteEnd(lines, pos) == QuoteEnd(lines, next)
      invariant content == QuoteText(lines[pos..next])
    {
      if !IsQuoteLine(lines[next]) {
        break;
      }
      QuoteTextSnoc(lines, pos, next);
      content := content + QuoteBody(lines[next]) + "\n";
      next := next + 1;
    }
  }

  /** `parse_blockquote`: the run of "> " lines, parsed as one inline text. */
  method ParseBlockquote(lines: seq<Line>, pos: nat) returns (block: Block, next: nat)
    requires pos <= |lines|
    ensures next == QuoteEnd(lines, pos)
    ensures block == BlockQuote(ParseInline(QuoteText(lines[pos..next])))
  {
    var content;
    content, next := CollectQuote(lines, pos);
    var elements := ParseInlineElements(content);
    block := BlockQuote(elements);
  }

  // ---- Lists ------------------------------------------------------------------

  /** "*" repeated `n` times, then a space. */
  function StarPrefix(n: nat): (r: string)
    ensures |r| == n + 1 && r[n] == ' ' && forall i :: 0 <= i < n ==> r[i] == '*'
  {
    if n == 0 then " " else ['*'] + StarPrefix(n - 1)
  }

  /** `is_unordered_list_item` as written: the line starts with one of "* ", "** ", ... "****** ". */
  predicate StartsWithStarPrefix(s: string)
  {
    exists n :: 1 <= n <= 6 && StartsWith(s, StarPrefix(n))
  }

  /** The same test by counting: one to six stars, then a space. */
  predicate IsUnorderedListItem(s: string)
  {
    var n := LeadingCount(s, '*');
    1 <= n <= 6 && n < |s| && s[n] == ' '
  }

  /** The two forms of the test agree. */
  lemma UnorderedItemForms(s: string)
    ensures StartsWithStarPrefix(s) <==> IsUnorderedListItem(s)
  {
    var n := LeadingCount(s, '*');
    if IsUnorderedListItem(s) {
      LeadingCountRun(s, '*');
      StarPrefixOf(s, n);
      assert StartsWith(s, StarPrefix(n));
    }
    if StartsWithStarPrefix(s) {
      var m :| 1 <= m <= 6 && StartsWith(s, StarPrefix(m));
      StarPrefixMatch(s, m);
    }
  }

  lemma {:induction false} StarPrefixOf(s: string, n: nat)
    requires n < |s| && (forall i :: 0 <= i < n ==> s[i] == '*') && s[n] == ' '
    ensures s[..n + 1] == StarPrefix(n)
  {
    if n > 0 {
      StarPrefixOf(s[1..], n - 1);
      assert s[..n + 1] == [s[0]] + s[1..][..n];
    }
  }

  lemma StarPrefixMatch(s: string, m: nat)
    requires StartsWith(s, StarPrefix(m))
    ensures LeadingCount(s, '*') == m && m < |s| && s[m] == ' '
  {
    var p := StarPrefix(m);
    assert forall i :: 0 <= i < m ==> s[i] == p[i];
    assert s[m] == p[m];
    LeadingCountAt(s, '*', m);
  }

  /** The list item of an unordered-list line: its star count and its text. */
  function UnorderedItem(line: Line): ListItem
  {
    var t := line.trimmed;
    var level := LeadingCount(t, '*');
    ListItem(level, ParseInline(Trim(t[level..])))
  }

  /** One more item line extends the collected items by its item and leaves the end of the list where it was. */
  lemma UnorderedStep(lines: seq<Line>, pos: nat, p: nat)
    requires pos <= p < |lines| && IsUnorderedListItem(lines[p].trimmed)
    ensures UnorderedEnd(lines, p) == UnorderedEnd(lines, p + 1)
    ensures MapRange(UnorderedItem, lines, pos, p + 1) == MapRange(UnorderedItem, lines, pos, p) + [UnorderedItem(lines[p])]
  {
  }

  /** The item loop of `parse_unordered_list`: the items up to the first other line. */
  method CollectUnorderedItems(lines: seq<Line>, pos: nat) returns (items: seq<ListItem>, p: nat)
    requires pos <= |lines|
    ensures p == UnorderedEnd(lines, pos) && items == MapRange(UnorderedItem, lines, pos, p)
  {
    items := [];
    p := pos;
    while p < |lines|
      invariant pos <= p <= |lines|
      invariant UnorderedEnd(lines, pos) == UnorderedEnd(lines, p)
      invariant items == MapRange(UnorderedItem, lines, pos, p)
    {
      if !IsUnorderedListItem(lines[p].trimmed) {
        break;
      }
      var item := ReadUnorderedItem(lines[p]);
      UnorderedStep(lines, pos, p);
      items := items + [item];
      p := p + 1;
    }
  }

  /** One step of `parse_unordered_list`: the star count and the parsed text of an item line. */
  method ReadUnorderedItem(line: Line) returns (item: ListItem)
    ensures item == UnorderedItem(line)
  {
    var trimmed := line.trimmed;
    var level := LeadingCount(trimmed, '*');
    var text := ParseInlineElements(Trim(trimmed[level..]));
    item := ListItem(level, text);
  }

  /** The first line at or after `from` that is not an unordered list item, or |lines|. */
  function UnorderedEnd(lines: seq<Line>, from: nat): (k: nat)
    requires from <= |lines|
    ensures from <= k <= |lines|
    ensures k < |lines| ==> !IsUnorderedListItem(lines[k].trimmed)
    decreases |lines| - from
  {
    if from == |lines| || !IsUnorderedListItem(lines[from].trimmed) then from else UnorderedEnd(lines, from + 1)
  }

  /** Every line before the end of an unordered list is an item. */
  lemma {:induction false} UnorderedEndItems(lines: seq<Line>, from: nat, j: nat)
    requires from <= j && from <= |lines| && j < UnorderedEnd(lines, from)
    ensures IsUnorderedListItem(lines[j].trimmed)
    decreases j - from
  {
    assert from < |lines| && IsUnorderedListItem(lines[from].trimmed);
    if j > from {
      assert UnorderedEnd(lines, from) == UnorderedEnd(lines, from + 1);
      UnorderedEndItems(lines, from + 1, j);
    }
  }

  /** The index after a list: one blank line ending it is consumed too. */
  function AfterList(lines: seq<Line>, k: nat): (r: nat)
    requires k <= |lines|
    ensures k <= r <= |lines|
  {
    if k < |lines| && lines[k].trimmed == [] then k + 1 else k
  }

  /** Every item of an unordered list has a level in 1..6. */
  lemma UnorderedListLevels(lines: seq<Line>, pos: nat)
    requires pos <= |lines|
    ensures var items := MapRange(UnorderedItem, lines, pos, UnorderedEnd(lines, pos));
      forall i :: 0 <= i < |items| ==> 1 <= items[i].level <= 6
  {
    var k := UnorderedEnd(lines, pos);
    var items := MapRange(UnorderedItem, lines, pos, k);
    forall i | 0 <= i < |items| ensures 1 <= items[i].level <= 6 {
      MapRangeAt(UnorderedItem, lines, pos, k, pos + i);
      UnorderedEndItems(lines, pos, pos + i);
    }
  }

  /**
   * `parse_unordered_list`: consecutive unordered items; a blank line ends the
   * list and is consumed, any other line ends it unconsumed. Every level is in 1..6.
   */
  method ParseUnorderedList(lines: seq<Line>, pos: nat) returns (block: Block, next: nat)
    requires pos <= |lines|
    ensures var k := UnorderedEnd(lines, pos);
      block == UnorderedList(MapRange(UnorderedItem, lines, pos, k)) && next == AfterList(lines, k)
    ensures block.UnorderedList? && forall i :: 0 <= i < |block.items| ==> 1 <= block.items[i].level <= 6
  {
    var items, p := CollectUnorderedItems(lines, pos);
    next := p;
    if p < |lines| && lines[p].trimmed == [] {
      next := p + 1;
    }
    block := UnorderedList(items);
    UnorderedListLevels(lines, pos);
  }

  /** The number of leading ASCII digits. */
  function LeadingDigits(s: string): (n: nat)
    ensures n <= |s|
    ensures n < |s| ==> !IsAsciiDigit(s[n])
  {
    if s != [] && IsAsciiDigit(s[0]) then 1 + LeadingDigits(s[1..]) else 0
  }

  /** The characters counted are all digits. */
  lemma {:induction false} LeadingDigitsRun(s: string)
    ensures AllDigits(s[..LeadingDigits(s)])
  {
    if s != [] && IsAsciiDigit(s[0]) {
      LeadingDigitsRun(s[1..]);
      assert s[1..][..LeadingDigits(s[1..])] == s[1..LeadingDigits(s)];
    }
  }

  /** `is_ordered_list_item`, the pattern `^\d+\. ` on ASCII digits: digits, then ". ". */
  predicate IsOrderedListItem(s: string)
  {
    var n := LeadingDigits(s);
    n >= 1 && n + 1 < |s| && s[n] == '.' && s[n + 1] == ' '
  }

  /** The number of an ordered-list line: the digits before the first '.', as a `usize`. */
  function ItemNumber(t: string): Option<nat>
  {
    ParseUsize(t[..LeadingDigits(t)])
  }

  /**
   * Whether a line continues an ordered list: it is an ordered item and its
   * number fits in a `usize`.
   */
  predicate GivesOrderedItem(line: Line)
  {
    IsOrderedListItem(line.trimmed) && ItemNumber(line.trimmed).Some?
  }

  /**
   * The item of an ordered-list line: its number and the trimmed text after
   * the ". ", parsed; a placeholder for a line that gives no item.
   */
  function OrderedItemOf(line: Line): ListItem
  {
    var t := line.trimmed;
    if GivesOrderedItem(line) then ListItem(ItemNumber(t).value, ParseInline(Trim(t[LeadingDigits(t) + 1..])))
    else ListItem(0, [])
  }

  /** The first line at or after `from` that gives no ordered item, or |lines|. */
  function OrderedEnd(lines: seq<Line>, from: nat): (k: nat)
    requires from <= |lines|
    ensures from <= k <= |lines|
    ensures k < |lines| ==> !GivesOrderedItem(lines[k])
    decreases |lines| - from
  {
    if from == |lines| || !GivesOrderedItem(lines[from]) then from else OrderedEnd(lines, from + 1)
  }

  /** One step of `parse_ordered_list`: the item of a line, or none when the line ends the list. */
  method ReadOrderedItem(line: Line) returns (item: Option<ListItem>)
    ensures item == if GivesOrderedItem(line) then Some(OrderedItemOf(line)) else None
  {
    var trimmed := line.trimmed;
    if !IsOrderedListItem(trimmed) {
      return None;
    }
    var dot := LeadingDigits(trimmed);
    var number := ParseUsize(trimmed[..dot]);
    if number.None? {
      return None;
    }
    var text := ParseInlineElements(Trim(trimmed[dot + 1..]));
    item := Some(ListItem(number.value, text));
  }

  /**
   * `parse_ordered_list`: consecutive ordered items, each with its number as
   * its level; a number that does not fit in a `usize` ends the list, and a
   * blank line ends it and is consumed.
   */
  method ParseOrderedList(lines: seq<Line>, pos: nat) returns (block: Block, next: nat)
    requires pos <= |lines|
    ensures var k := OrderedEnd(lines, pos);
      block == OrderedList(MapRange(OrderedItemOf, lines, pos, k))
      && next == AfterList(lines, k)
  {
    var items, p := CollectOrderedItems(lines, pos);
    next := p;
    if p < |lines| && lines[p].trimmed == [] {
      next := p + 1;
    }
    block := OrderedList(items);
  }

  /**
   * One turn of the item loop of `parse_ordered_list`: either the line at `p`
   * gives an item, which is appended, or the list ends at `p`.
   */
  method OrderedTurn(lines: seq<Line>, pos: nat, p: nat, items: seq<ListItem>) returns (stop: bool, items': seq<ListItem>, p': nat)
    requires pos <= p < |lines| && OrderedEnd(lines, pos) == OrderedEnd(lines, p)
    requires items == MapRange(OrderedItemOf, lines, pos, p)
    ensures pos <= p' <= |lines| && OrderedEnd(lines, pos) == OrderedEnd(lines, p')
    ensures items' == MapRange(OrderedItemOf, lines, pos, p')
    ensures if stop then p' == OrderedEnd(lines, pos) else p' == p + 1
  {
    var item := ReadOrderedItem(lines[p]);
    if item.None? {
      return true, items, p;
    }
    items', p' := items + [item.value], p + 1;
    stop := false;
  }

  /** The item loop of `parse_ordered_list`: the items up to the first line that gives none. */
  method CollectOrderedItems(lines: seq<Line>, pos: nat) returns (items: seq<ListItem>, p: nat)
    requires pos <= |lines|
    ensures p == OrderedEnd(lines, pos) && items == MapRange(OrderedItemOf, lines, pos, p)
  {
    items := [];
    p := pos;
    while p < |lines|
      invariant pos <= p <= |lines|
      invariant OrderedEnd(lines, pos) == OrderedEnd(lines, p)
      invariant items == MapRange(OrderedItemOf, lines, pos, p)
      decreases |lines| - p
    {
      var stop;
      stop, items, p := OrderedTurn(lines, pos, p, items);
      if stop {
        return;
      }
    }
  }

  // ---- Paragraphs -------------------------------------------------------------

  /** The first blank line at or after `from`, or |lines|. */
  function BlankFrom(lines: seq<Line>, from: nat): (k: nat)
    requires from <= |lines|
    ensures from <= k <= |lines|
    ensures k < |lines| ==> lines[k].trimmed == []
    decreases |lines| - from
  {
    if from == |lines| || lines[from].trimmed == [] then from else BlankFrom(lines, from + 1)
  }

  /**
   * `parse_paragraph`: the lines up to the next blank one (which is
   * consumed), joined with "\n", trimmed at the end and parsed as inline text.
   */
  method ParseParagraph(lines: seq<Line>, pos: nat) returns (block: Block, next: nat)
    requires pos <= |lines|
    ensures var k := BlankFrom(lines, pos);
      block == Paragraph(ParseInline(TrimEnd(JoinLines(lines[pos..k])))) && next == Past(lines, k)
  {
    var content := "";
    var p := pos;
    while p < |lines|
      invariant pos <= p <= |lines|
      invariant BlankFrom(lines, pos) == BlankFrom(lines, p)
      invariant content == JoinLines(lines[pos..p])
    {
      if lines[p].trimmed == [] {
        break;
      }
      JoinLinesSnoc(lines, pos, p);
      content := content + lines[p].raw + "\n";
      p := p + 1;
    }
    next := Past(lines, p);
    var elements := ParseInlineElements(TrimEnd(content));
    block := Paragraph(elements);
  }
}
