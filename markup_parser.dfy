/**
 * The stateful part of src/parser.rs: the `Parser` object that splits an
 * article into header and body, dispatches each block to its parser, numbers
 * headers, figures and equations as it goes, and gives every section header
 * an id.
 */
module MarkupParser {
  import opened Wrappers
  import opened Strings
  import opened Ast
  import opened InlineParser
  import opened LineBlocks

  // ---- Splitting the article ------------------------------------------------

  /** The line that separates the header from the body. */
  const HEADER_SEPARATOR: string := "\n===\n"

  /**
   * `str::split` with a string pattern: the pieces between the non-overlapping
   * occurrences of `sep`, found from left to right.
   */
  function SplitOn(s: string, sep: string): (r: seq<string>)
    requires |sep| > 0
    ensures |r| >= 1
    decreases |s|
  {
    match FindFrom(s, sep, 0)
    case None => [s]
    case Some(i) => [s[..i]] + SplitOn(s[i + |sep|..], sep)
  }

  /** `join`: the pieces with `sep` between each two. */
  function JoinWith(parts: seq<string>, sep: string): string
  {
    if |parts| <= 1 then (if parts == [] then [] else parts[0])
    else parts[0] + sep + JoinWith(parts[1..], sep)
  }

  /** Joining the pieces again gives back the text: nothing is lost or added by the split. */
  lemma {:induction false} SplitOnJoin(s: string, sep: string)
    requires |sep| > 0
    ensures JoinWith(SplitOn(s, sep), sep) == s
    decreases |s|
  {
    match FindFrom(s, sep, 0)
    case None =>
    case Some(i) =>
      var rest := s[i + |sep|..];
      SplitOnJoin(rest, sep);
      assert s[i..i + |sep|] == sep;
      assert s == s[..i] + sep + rest;
  }

  /** A prefix that ends before the first occurrence of `sep` holds no occurrence of it. */
  lemma NoMatchBefore(s: string, sep: string, k: nat)
    requires |sep| > 0 && k <= |s| && forall i :: 0 <= i < k ==> !MatchAt(s, sep, i)
    ensures forall i :: 0 <= i ==> !MatchAt(s[..k], sep, i)
  {
    forall i | 0 <= i ensures !MatchAt(s[..k], sep, i) {
      if i + |sep| <= k {
        assert !MatchAt(s, sep, i);
        assert s[..k][i..i + |sep|] == s[i..i + |sep|];
      }
    }
  }

  /** No piece of the split contains the separator. */
  lemma {:induction false} SplitOnPieces(s: string, sep: string, j: nat)
    requires |sep| > 0 && j < |SplitOn(s, sep)|
    ensures forall i :: 0 <= i ==> !MatchAt(SplitOn(s, sep)[j], sep, i)
    decreases |s|
  {
    match FindFrom(s, sep, 0)
    case None =>
    case Some(k) =>
      if j == 0 {
        NoMatchBefore(s, sep, k);
      } else {
        SplitOnPieces(s[k + |sep|..], sep, j - 1);
      }
  }

  /** The text has a header exactly when the separator occurs in it. */
  lemma SplitOnSeveral(s: string, sep: string)
    requires |sep| > 0
    ensures |SplitOn(s, sep)| > 1 <==> exists i :: MatchAt(s, sep, i)
  {
    match FindFrom(s, sep, 0)
    case None =>
    case Some(k) =>
      assert MatchAt(s, sep, k);
  }

  // ---- The header -------------------------------------------------------------

  /** The lines that are not blank, in order (`filter(|line| !line.trim().is_empty())`). */
  function NonBlankLines(ls: seq<string>): (r: seq<string>)
    ensures |r| <= |ls|
  {
    if ls == [] then []
    else if IsBlank(ls[0]) then NonBlankLines(ls[1..])
    else [ls[0]] + NonBlankLines(ls[1..])
  }

  /** The first kept line is the first line that is not blank; every line before it is blank. */
  lemma {:induction false} NonBlankLinesFirst(ls: seq<string>)
    requires NonBlankLines(ls) != []
    ensures exists j :: (0 <= j < |ls| && ls[j] == NonBlankLines(ls)[0] && !IsBlank(ls[j])
                         && forall i :: 0 <= i < j ==> IsBlank(ls[i]))
  {
    if IsBlank(ls[0]) {
      NonBlankLinesFirst(ls[1..]);
      var j :| 0 <= j < |ls[1..]| && ls[1..][j] == NonBlankLines(ls[1..])[0] && !IsBlank(ls[1..][j])
        && forall i :: 0 <= i < j ==> IsBlank(ls[1..][i]);
      assert ls[j + 1] == NonBlankLines(ls)[0];
      assert forall i :: 0 <= i < j + 1 ==> IsBlank(ls[i]) by {
        forall i | 0 <= i < j + 1 ensures IsBlank(ls[i]) {
          if i > 0 {
            assert ls[i] == ls[1..][i - 1];
          }
        }
      }
    } else {
      assert ls[0] == NonBlankLines(ls)[0];
    }
  }

  /** Every kept line is one of the lines, and none of them is blank. */
  lemma {:induction false} NonBlankLinesKept(ls: seq<string>)
    ensures forall x :: x in NonBlankLines(ls) ==> x in ls && !IsBlank(x)
  {
    if ls != [] {
      NonBlankLinesKept(ls[1..]);
    }
  }

  /**
   * `parse_header`: the first line that is not blank is the title (as it
   * stands, untrimmed; empty when there is none), the second one the date.
   */
  function ParseHeader(s: string): ArticleHeader
  {
    var kept := NonBlankLines(Lines(s));
    ArticleHeader(if kept != [] then kept[0] else [], if |kept| > 1 then Some(kept[1]) else None)
  }

  /**
   * The title is empty exactly when every line is blank; otherwise it is the
   * first line that is not blank, and a date is only read after a title.
   */
  lemma ParseHeaderTitle(s: string)
    ensures var h := ParseHeader(s); var ls := Lines(s);
      (h.title == [] <==> forall i :: 0 <= i < |ls| ==> IsBlank(ls[i]))
      && (h.title != [] ==> exists j :: (0 <= j < |ls| && ls[j] == h.title
                                          && forall i :: 0 <= i < j ==> IsBlank(ls[i])))
      && (h.date.Some? ==> h.title != [])
  {
    var ls := Lines(s);
    var kept := NonBlankLines(ls);
    NonBlankLinesKept(ls);
    if kept != [] {
      NonBlankLinesFirst(ls);
      assert kept[0] in kept;
      assert Trim([]) == [];
    } else {
      NonBlankLinesNone(ls);
    }
  }

  /** Nothing is kept only when every line is blank. */
  lemma {:induction false} NonBlankLinesNone(ls: seq<string>)
    requires NonBlankLines(ls) == []
    ensures forall i :: 0 <= i < |ls| ==> IsBlank(ls[i])
  {
    if ls != [] {
      NonBlankLinesNone(ls[1..]);
      forall i | 1 <= i < |ls| ensures IsBlank(ls[i]) {
        assert ls[i] == ls[1..][i - 1];
      }
    }
  }

  // ---- Section ids ------------------------------------------------------------

  /**
   * The base of an id: the text lower-cased, with everything but letters,
   * digits and spaces dropped and each space turned into '-'.
   */
  function BaseId(text: string): (r: string)
    ensures |r| <= |text|
  {
    if text == [] then []
    else
      var c := AsciiLower(text[0]);
      var kept := if IsAsciiAlphanumeric(c) then [c] else if c == ' ' then ['-'] else [];
      kept + BaseId(text[1..])
  }

  /** An id base holds only lower-case letters, digits and '-': it is safe in a URL fragment. */
  lemma {:induction false} BaseIdChars(text: string)
    ensures forall i :: 0 <= i < |BaseId(text)| ==>
      IsAsciiLower(BaseId(text)[i]) || IsAsciiDigit(BaseId(text)[i]) || BaseId(text)[i] == '-'
  {
    if text != [] {
      BaseIdChars(text[1..]);
      var c := AsciiLower(text[0]);
      assert !IsAsciiUpper(c);
    }
  }

  /** The id for the `n`-th use of a base: the base itself the first time, then "base-n". */
  function IdFor(base: string, n: nat): string
  {
    if n == 1 then base else base + "-" + NatToString(n)
  }

  /** Different uses of one base get different ids. */
  lemma IdForInjective(base: string, m: nat, n: nat)
    requires m >= 1 && n >= 1 && IdFor(base, m) == IdFor(base, n)
    ensures m == n
  {
    if m != 1 && n != 1 {
      assert IdFor(base, m)[|base| + 1..] == NatToString(m);
      assert IdFor(base, n)[|base| + 1..] == NatToString(n);
      NatToStringInjective(m, n);
    }
  }

  /** How often a base has been used so far (`entry(..).or_insert(0)`). */
  function CountOf(counts: map<string, nat>, base: string): nat
  {
    if base in counts then counts[base] else 0
  }

  /**
   * `generate_id` as written: the base's count goes up by one and the id is
   * `IdFor(base, count)`, with no look at the ids other bases produced.
   */
  function GenerateIdAsWritten(counts: map<string, nat>, text: string): (r: (map<string, nat>, string))
    ensures var base := BaseId(text); var n := CountOf(counts, base) + 1;
      r.0 == counts[base := n] && r.1 == IdFor(base, n)
  {
    var base := BaseId(text);
    var count := CountOf(counts, base) + 1;
    (counts[base := count], if count == 1 then base else base + "-" + NatToString(count))
  }

  /**
   * The ids as written are not unique: "A", "A" and "A 2" give "a", "a-2"
   * and "a-2" again, because the base of "A 2" is the id of the second "A".
   */
  lemma GenerateIdAsWrittenCollides()
    ensures var (c1, id1) := GenerateIdAsWritten(map[], "A");
      var (c2, id2) := GenerateIdAsWritten(c1, "A");
      var (c3, id3) := GenerateIdAsWritten(c2, "A 2");
      id1 == "a" && id2 == "a-2" && id3 == "a-2"
  {
    assert BaseId("A") == "a" by {
      assert BaseId("A"[1..]) == [];
    }
    assert BaseId("A 2") == "a-2" by {
      assert "A 2"[1..] == " 2" && " 2"[1..] == "2" && "2"[1..] == [];
      assert BaseId("2") == "2";
      assert BaseId(" 2") == "-2";
    }
    assert NatToString(2) == "2";
    var c1 := map["a" := 1];
    assert "a-2" !in c1.Keys by {
      assert "a-2" != "a";
    }
  }

  /**
   * One step of the corrected id generation: the base's count moves on to the
   * first number above it whose id has not been issued, and that id is issued.
   */
  predicate IdStep(counts: map<string, nat>, issued: set<string>, text: string, id: string,
                   counts': map<string, nat>, issued': set<string>)
  {
    var base := BaseId(text);
    base in counts' && counts'[base] > CountOf(counts, base)
    && id == IdFor(base, counts'[base]) && id !in issued
    && (forall j :: CountOf(counts, base) < j < counts'[base] ==> IdFor(base, j) in issued)
    && counts' == counts[base := counts'[base]]
    && issued' == issued + {id}
  }

  /** When the id `generate_id` would give is still free, the corrected step gives it too. */
  lemma IdStepAgrees(counts: map<string, nat>, issued: set<string>, text: string, id: string,
                     counts': map<string, nat>, issued': set<string>)
    requires IdStep(counts, issued, text, id, counts', issued')
    requires GenerateIdAsWritten(counts, text).1 !in issued
    ensures (counts', id) == GenerateIdAsWritten(counts, text)
  {
    var base := BaseId(text);
    var n := CountOf(counts, base) + 1;
    assert IdFor(base, n) !in issued;
  }

  /** Different counts give different ids. */
  lemma IdForDiffers(base: string, m: nat, n: nat)
    requires m >= 1 && n >= 1 && m != n
    ensures IdFor(base, m) != IdFor(base, n)
  {
    if IdFor(base, m) == IdFor(base, n) {
      IdForInjective(base, m, n);
    }
  }

  /**
   * The first count from `start` on whose id has not been issued: where the
   * corrected `generate_id` stops. The ids tried on the way are all issued.
   */
  function FirstFree(base: string, start: nat, issued: set<string>): (n: nat)
    requires start >= 1
    ensures start <= n && IdFor(base, n) !in issued
    ensures forall j :: start <= j < n ==> IdFor(base, j) in issued
    decreases |issued|
  {
    var id := IdFor(base, start);
    if id !in issued then start
    else
      var n := FirstFree(base, start + 1, issued - {id});
      IdForDiffers(base, n, start);
      n
  }

  /**
   * The corrected `generate_id` as a function of the state before it: the id,
   * and the counts and issued ids after it.
   */
  function NextId(counts: map<string, nat>, issued: set<string>, text: string): (string, map<string, nat>, set<string>)
  {
    var base := BaseId(text);
    var n := FirstFree(base, CountOf(counts, base) + 1, issued);
    (IdFor(base, n), counts[base := n], issued + {IdFor(base, n)})
  }

  /** A corrected step is determined by the state before it: it is exactly `NextId`. */
  lemma IdStepIsNextId(counts: map<string, nat>, issued: set<string>, text: string, id: string,
                       counts': map<string, nat>, issued': set<string>)
    ensures IdStep(counts, issued, text, id, counts', issued') <==> (id, counts', issued') == NextId(counts, issued, text)
  {
    var base := BaseId(text);
    var start := CountOf(counts, base) + 1;
    var f := FirstFree(base, start, issued);
    if IdStep(counts, issued, text, id, counts', issued') {
      var n := counts'[base];
      assert IdFor(base, n) !in issued;
      assert IdFor(base, f) !in issued;
    }
  }

  // ---- What `parse_block` makes of a line ----------------------------------

  /** The branch of `parse_block` a line that is not blank takes. */
  datatype BlockKind =
    | RawKind | CodeKind | HeaderKind | QuoteKind | FigureKind | MathKind
    | UnorderedKind | OrderedKind | ParagraphKind

  /** The tests of `parse_block` on the trimmed line, in its order: the first that holds decides. */
  function KindOf(t: string): BlockKind
  {
    if t == "???" then RawKind
    else if t == "~~~" then CodeKind
    else if StartsWith(t, "#") then HeaderKind
    else if StartsWith(t, "> ") then QuoteKind
    else if StartsWith(t, "pic ") then FigureKind
    else if StartsWith(t, "$ ") then MathKind
    else if IsUnorderedListItem(t) then UnorderedKind
    else if StartsWith(t, "1. ") then OrderedKind
    else ParagraphKind
  }

  /** The branches whose block depends on the lines alone, not on the parser's counters. */
  predicate Stateless(kind: BlockKind)
  {
    !(kind.HeaderKind? || kind.FigureKind? || kind.MathKind?)
  }

  /** The block a stateless branch reads from line `k` on, and the index after it. */
  function StatelessBlock(lines: seq<Line>, k: nat): (Block, nat)
    requires k < |lines| && Stateless(KindOf(lines[k].trimmed))
  {
    match KindOf(lines[k].trimmed)
    case RawKind =>
      var e := FenceEnd(lines, k + 1, "???");
      (Raw(JoinLines(lines[k + 1..e])), Past(lines, e))
    case CodeKind =>
      var (language, start) := LanguageLine(lines, k + 1);
      var e := FenceEnd(lines, start, "~~~");
      (CodeBlock(language, JoinLines(lines[start..e])), Past(lines, e))
    case QuoteKind =>
      var e := QuoteEnd(lines, k);
      (BlockQuote(ParseInline(QuoteText(lines[k..e]))), e)
    case UnorderedKind =>
      var e := UnorderedEnd(lines, k);
      (UnorderedList(MapRange(UnorderedItem, lines, k, e)), AfterList(lines, e))
    case OrderedKind =>
      var e := OrderedEnd(lines, k);
      (OrderedList(MapRange(OrderedItemOf, lines, k, e)), AfterList(lines, e))
    case ParagraphKind =>
      var e := BlankFrom(lines, k);
      (Paragraph(ParseInline(TrimEnd(JoinLines(lines[k..e])))), Past(lines, e))
  }

  /** The digit line "1. " always starts an ordered list: its number parses. */
  lemma OrderedStartGivesItem(line: Line)
    requires StartsWith(line.trimmed, "1. ")
    ensures GivesOrderedItem(line)
  {
    var t := line.trimmed;
    assert t[0] == '1' && t[1] == '.' && t[2] == ' ';
    assert LeadingDigits(t[1..]) == 0;
    assert LeadingDigits(t) == 1;
    assert t[..1] == "1";
    assert AllDigits("1") && DigitsValue("1") == 1 by {
      assert "1"[..0] == [];
    }
  }

  /**
   * A "0. " line continues an ordered list with an item of level 0: after
   * "1. a", the line "0. b" gives the list's second item, at level 0.
   */
  lemma ZeroNumberedItem()
    ensures var lines := [Line("1. a", "1. a"), Line("0. b", "0. b")];
      OrderedEnd(lines, 0) == 2 && MapRange(OrderedItemOf, lines, 0, 2)[1].level == 0
  {
    var lines := [Line("1. a", "1. a"), Line("0. b", "0. b")];
    OrderedStartGivesItem(lines[0]);
    var t := "0. b";
    assert LeadingDigits(t[1..]) == 0;
    assert LeadingDigits(t) == 1;
    assert t[..1] == "0";
    assert AllDigits("0") && DigitsValue("0") == 0 by {
      assert "0"[..0] == [];
    }
    assert GivesOrderedItem(lines[1]);
    MapRangeAt(OrderedItemOf, lines, 0, 2, 1);
  }

  /**
   * A stateless branch consumes at least the line it starts on, and its block
   * is never one of the numbered kinds.
   */
  lemma StatelessProgress(lines: seq<Line>, k: nat)
    requires k < |lines| && lines[k].trimmed != [] && Stateless(KindOf(lines[k].trimmed))
    ensures var (block, next) := StatelessBlock(lines, k);
      k < next <= |lines| && !block.SectionHeader? && !block.ImageFigure? && !block.DisplayMath?
  {
    var t := lines[k].trimmed;
    match KindOf(t)
    case RawKind =>
    case CodeKind =>
    case QuoteKind =>
      assert IsQuoteLine(lines[k]);
      assert QuoteEnd(lines, k) == QuoteEnd(lines, k + 1);
    case UnorderedKind =>
      assert UnorderedEnd(lines, k) == UnorderedEnd(lines, k + 1);
    case OrderedKind =>
      OrderedStartGivesItem(lines[k]);
      assert OrderedEnd(lines, k) == OrderedEnd(lines, k + 1);
    case ParagraphKind =>
      assert BlankFrom(lines, k) == BlankFrom(lines, k + 1);
  }

  /** The title of a section header: the trimmed text after its leading '#'s. */
  function HeaderText(t: string): string
  {
    Trim(t[LeadingCount(t, '#')..])
  }

  /** `parse_section_header` on a trimmed line, given the id generated for it and its running number. */
  function HeaderBlock(t: string, id: string, number: nat): Block
  {
    SectionHeader(LeadingCount(t, '#'), id, number, HeaderText(t))
  }

  /** A header line has at least one '#': the level of a section header is at least 1. */
  lemma HeaderLevelPositive(t: string, id: string, number: nat)
    requires KindOf(t) == HeaderKind
    ensures HeaderBlock(t, id, number).level >= 1
    ensures HeaderBlock(t, id, number).title == Trim(t[HeaderBlock(t, id, number).level..])
  {
    assert t[0] == '#';
  }

  /** A reference anchor made invisible, any other element unchanged. */
  function MarkAnchor(e: InlineElement): InlineElement
  {
    if e.ReferenceAnchor? then e.(invisible := true) else e
  }

  /** Every reference anchor made invisible. */
  function MarkAnchors(es: seq<InlineElement>): (r: seq<InlineElement>)
    ensures |r| == |es|
  {
    seq(|es|, i requires 0 <= i < |es| => MarkAnchor(es[i]))
  }

  /** The name of the last reference anchor, if any. */
  function LastAnchor(es: seq<InlineElement>): Option<string>
  {
    if es == [] then None
    else if es[|es| - 1].ReferenceAnchor? then Some(es[|es| - 1].anchor)
    else LastAnchor(es[..|es| - 1])
  }

  /**
   * `parse_image_figure` on a trimmed line, given the figure's running number:
   * "pic URL:CAPTION" becomes a figure with the trimmed URL and the parsed,
   * trimmed caption; a line without ':' becomes an empty paragraph.
   */
  function FigureBlock(t: string, number: nat): Block
  {
    if !StartsWith(t, "pic ") then Paragraph([])
    else
      var rest := t[4..];
      match IndexOf(rest, ':')
      case None => Paragraph([])
      case Some(i) =>
        var text := ParseInline(Trim(rest[i + 1..]));
        ImageFigure(Trim(rest[..i]), LastAnchor(text), number, MarkAnchors(text))
  }

  /** With no anchors, marking changes nothing and finds no name. */
  lemma {:induction false} NoAnchorUnmarked(es: seq<InlineElement>)
    requires NoAnchor(es)
    ensures MarkAnchors(es) == es && LastAnchor(es) == None
  {
    if es != [] {
      NoAnchorUnmarked(es[..|es| - 1]);
    }
  }

  /**
   * A figure never gets an id: the caption parser produces no reference
   * anchors, so the anchor loop of `parse_image_figure` finds nothing and the
   * caption is exactly the parsed text.
   */
  lemma FigureHasNoId(t: string, number: nat)
    requires FigureBlock(t, number).ImageFigure?
    ensures var b := FigureBlock(t, number); var rest := t[4..];
      b.figureId.None? && b.idNumber == number
      && exists i :: 0 <= i < |rest| && rest[i] == ':' && ':' !in rest[..i]
           && b.url == Trim(rest[..i]) && b.caption == ParseInline(Trim(rest[i + 1..]))
  {
    var rest := t[4..];
    var i := IndexOf(rest, ':').value;
    var text := ParseInline(Trim(rest[i + 1..]));
    ScanNoAnchor(Trim(rest[i + 1..]), []);
    NoAnchorUnmarked(text);
  }

  /** `parse_display_math` on a trimmed line: the text after "$ ", with no id. */
  function MathBlock(t: string, number: nat): Block
  {
    if StartsWith(t, "$ ") then DisplayMath(None, number, t[2..]) else Paragraph([])
  }

  /**
   * The `for element in &mut text` loop of `parse_image_figure`: every
   * reference anchor is made invisible and the last one's name is the id.
   */
  method MarkFigureAnchors(text: seq<InlineElement>) returns (marked: seq<InlineElement>, id: Option<string>)
    ensures marked == MarkAnchors(text) && id == LastAnchor(text)
  {
    marked := text;
    id := None;
    for i := 0 to |text|
      invariant |marked| == |text|
      invariant forall j :: 0 <= j < i ==> marked[j] == MarkAnchor(text[j])
      invariant forall j :: i <= j < |text| ==> marked[j] == text[j]
      invariant id == LastAnchor(text[..i])
    {
      assert text[..i + 1][..i] == text[..i];
      if marked[i].ReferenceAnchor? {
        id := Some(marked[i].anchor);
        marked := marked[i := marked[i].(invisible := true)];
      }
    }
    assert text[..|text|] == text;
  }

  // ---- Running numbers ----------------------------------------------------

  /** The three kinds of block the parser numbers and records. */
  datatype Counter = Headers | Figures | Equations

  predicate Counted(b: Block, c: Counter)
  {
    match c
    case Headers => b.SectionHeader?
    case Figures => b.ImageFigure?
    case Equations => b.DisplayMath?
  }

  /** The indices of the blocks of one kind, in order: what `parse_body` pushes for it. */
  function Positions(blocks: seq<Block>, c: Counter): (r: seq<nat>)
    ensures |r| <= |blocks|
  {
    if blocks == [] then []
    else Positions(blocks[..|blocks| - 1], c) + (if Counted(blocks[|blocks| - 1], c) then [|blocks| - 1] else [])
  }

  /** The positions are exactly the indices of the blocks of that kind, in increasing order. */
  lemma {:induction false} PositionsExact(blocks: seq<Block>, c: Counter)
    ensures forall x :: x in Positions(blocks, c) ==> x < |blocks|
    ensures forall i :: 0 <= i < |blocks| ==> (i in Positions(blocks, c) <==> Counted(blocks[i], c))
    ensures forall a, b :: 0 <= a < b < |Positions(blocks, c)| ==> Positions(blocks, c)[a] < Positions(blocks, c)[b]
  {
    if blocks != [] {
      var front := blocks[..|blocks| - 1];
      PositionsExact(front, c);
      assert forall i :: 0 <= i < |front| ==> front[i] == blocks[i];
      var p := Positions(front, c);
      var tail: seq<nat> := if Counted(blocks[|blocks| - 1], c) then [|blocks| - 1] else [];
      assert Positions(blocks, c) == p + tail;
      forall a, b | 0 <= a < b < |p + tail| ensures (p + tail)[a] < (p + tail)[b] {
        if b >= |p| {
          assert p[a] in p;
        }
      }
    }
  }

  /**
   * Every block of kind `c` carries as its number how many blocks of that kind
   * came before it, counted from `start`.
   */
  predicate Numbered(blocks: seq<Block>, c: Counter, start: nat)
  {
    forall i :: 0 <= i < |blocks| && Counted(blocks[i], c) ==>
      blocks[i].idNumber == start + |Positions(blocks[..i], c)|
  }

  /** Appending a block whose number is the count so far keeps the numbering. */
  lemma PositionsSnoc(blocks: seq<Block>, b: Block, c: Counter)
    ensures Positions(blocks + [b], c) == Positions(blocks, c) + (if Counted(b, c) then [|blocks|] else [])
  {
    assert (blocks + [b])[..|blocks|] == blocks;
  }

  lemma NumberedSnoc(blocks: seq<Block>, b: Block, c: Counter, start: nat)
    requires Numbered(blocks, c, start)
    requires Counted(b, c) ==> b.idNumber == start + |Positions(blocks, c)|
    ensures Numbered(blocks + [b], c, start)
  {
    var all := blocks + [b];
    forall i | 0 <= i < |all| && Counted(all[i], c)
      ensures all[i].idNumber == start + |Positions(all[..i], c)|
    {
      if i < |blocks| {
        assert all[..i] == blocks[..i];
        assert all[i] == blocks[i];
      } else {
        assert all[..i] == blocks;
      }
    }
  }


  /** The ids of all section headers are distinct, none was issued before and all are issued now. */
  predicate FreshHeaderIds(blocks: seq<Block>, before: set<string>, after: set<string>)
  {
    before <= after
    && (forall i :: 0 <= i < |blocks| && blocks[i].SectionHeader? ==>
          blocks[i].id in after && blocks[i].id !in before)
    && (forall i, j :: 0 <= i < j < |blocks| && blocks[i].SectionHeader? && blocks[j].SectionHeader? ==>
          blocks[i].id != blocks[j].id)
  }

  /** Appending a block keeps the ids fresh when a new header's id is newly issued. */
  lemma FreshHeaderIdsSnoc(blocks: seq<Block>, b: Block, before: set<string>, mid: set<string>, after: set<string>)
    requires FreshHeaderIds(blocks, before, mid)
    requires b.SectionHeader? ==> b.id !in mid && after == mid + {b.id}
    requires !b.SectionHeader? ==> after == mid
    ensures FreshHeaderIds(blocks + [b], before, after)
  {
    var all := blocks + [b];
    forall i | 0 <= i < |blocks| ensures all[i] == blocks[i] {
    }
  }

  /**
   * What `parse_body` records, given the parser's lists and issued ids before
   * (`h0`, `f0`, `e0`, `ids0`) and after: each list gained the positions of its
   * kind, every numbered block carries its running number, and the header
   * ids are fresh and distinct.
   */
  predicate Recorded(blocks: seq<Block>,
                     h0: seq<nat>, f0: seq<nat>, e0: seq<nat>, ids0: set<string>,
                     h: seq<nat>, f: seq<nat>, e: seq<nat>, ids: set<string>)
  {
    h == h0 + Positions(blocks, Headers)
    && f == f0 + Positions(blocks, Figures)
    && e == e0 + Positions(blocks, Equations)
    && Numbered(blocks, Headers, |h0|)
    && Numbered(blocks, Figures, |f0|)
    && Numbered(blocks, Equations, |e0|)
    && FreshHeaderIds(blocks, ids0, ids)
  }

  /**
   * What one call of `parse_block` does with the non-blank line `k`, given the
   * lists' lengths (`nh`, `nf`, `ne`) and the id state before and after.
   */
  predicate BlockOutcome(lines: seq<Line>, k: nat, nh: nat, nf: nat, ne: nat,
                         counts: map<string, nat>, ids: set<string>,
                         block: Block, next: nat,
                         counts': map<string, nat>, ids': set<string>)
    requires k < |lines|
  {
    var t := lines[k].trimmed;
    match KindOf(t)
    case HeaderKind =>
      next == k + 1 && block.SectionHeader? && block == HeaderBlock(t, block.id, nh)
      && IdStep(counts, ids, HeaderText(t), block.id, counts', ids')
    case FigureKind =>
      next == k + 1 && block == FigureBlock(t, nf) && counts' == counts && ids' == ids
    case MathKind =>
      next == k + 1 && block == MathBlock(t, ne) && counts' == counts && ids' == ids
    case _ =>
      (block, next) == StatelessBlock(lines, k) && counts' == counts && ids' == ids
  }

  /**
   * Every outcome consumes the line it starts on, numbers its block with the
   * matching list's length, and issues an id only for a section header.
   */
  lemma OutcomeFacts(lines: seq<Line>, k: nat, nh: nat, nf: nat, ne: nat,
                     counts: map<string, nat>, ids: set<string>,
                     block: Block, next: nat,
                     counts': map<string, nat>, ids': set<string>)
    requires k < |lines| && lines[k].trimmed != []
    requires BlockOutcome(lines, k, nh, nf, ne, counts, ids, block, next, counts', ids')
    ensures k < next <= |lines|
    ensures block.SectionHeader? ==> block.idNumber == nh && block.id !in ids && ids' == ids + {block.id}
    ensures !block.SectionHeader? ==> ids' == ids
    ensures block.ImageFigure? ==> block.idNumber == nf
    ensures block.DisplayMath? ==> block.idNumber == ne
  {
    if Stateless(KindOf(lines[k].trimmed)) {
      StatelessProgress(lines, k);
    }
  }

  /**
   * What one call of `parse_block` makes of the non-blank line `k`, as a
   * function of the lists' lengths and the id state: the block, the index
   * after it, and the counts and issued ids after it.
   */
  function BlockStep(lines: seq<Line>, k: nat, nh: nat, nf: nat, ne: nat,
                     counts: map<string, nat>, ids: set<string>): (Block, nat, map<string, nat>, set<string>)
    requires k < |lines|
  {
    var t := lines[k].trimmed;
    match KindOf(t)
    case HeaderKind =>
      var (id, counts', ids') := NextId(counts, ids, HeaderText(t));
      (HeaderBlock(t, id, nh), k + 1, counts', ids')
    case FigureKind => (FigureBlock(t, nf), k + 1, counts, ids)
    case MathKind => (MathBlock(t, ne), k + 1, counts, ids)
    case _ =>
      var (block, next) := StatelessBlock(lines, k);
      (block, next, counts, ids)
  }

  /** The outcomes `parse_block` may have are exactly the one `BlockStep` gives. */
  lemma OutcomeIsStep(lines: seq<Line>, k: nat, nh: nat, nf: nat, ne: nat,
                      counts: map<string, nat>, ids: set<string>,
                      block: Block, next: nat,
                      counts': map<string, nat>, ids': set<string>)
    requires k < |lines|
    ensures BlockOutcome(lines, k, nh, nf, ne, counts, ids, block, next, counts', ids')
      <==> (block, next, counts', ids') == BlockStep(lines, k, nh, nf, ne, counts, ids)
  {
    var t := lines[k].trimmed;
    if KindOf(t) == HeaderKind && block.SectionHeader? {
      IdStepIsNextId(counts, ids, HeaderText(t), block.id, counts', ids');
    }
  }

  /** `BlockStep` on a non-blank line consumes that line and stays within the lines. */
  lemma StepProgress(lines: seq<Line>, k: nat, nh: nat, nf: nat, ne: nat,
                     counts: map<string, nat>, ids: set<string>)
    requires k < |lines| && lines[k].trimmed != []
    ensures k < BlockStep(lines, k, nh, nf, ne, counts, ids).1 <= |lines|
  {
    if Stateless(KindOf(lines[k].trimmed)) {
      StatelessProgress(lines, k);
    }
  }

  /** The first line at or after `from` that is not blank, or |lines|. */
  function NonBlankFrom(lines: seq<Line>, from: nat): (k: nat)
    requires from <= |lines|
    ensures from <= k <= |lines|
    ensures k < |lines| ==> lines[k].trimmed != []
    decreases |lines| - from
  {
    if from == |lines| || lines[from].trimmed != [] then from else NonBlankFrom(lines, from + 1)
  }

  /** The lines skipped on the way to the first non-blank one are blank. */
  lemma {:induction false} NonBlankFromSkips(lines: seq<Line>, from: nat, i: nat)
    requires from <= |lines| && from <= i < NonBlankFrom(lines, from)
    ensures lines[i].trimmed == []
    decreases i - from
  {
    if i > from {
      NonBlankFromSkips(lines, from + 1, i);
    }
  }

  // ---- The parser object -----------------------------------------------------

  /**
   * `Parser`: the article being built, the indices of the numbered blocks of
   * each kind, how often each id base has been used, and the ids issued so
   * far (the last one belongs to the corrected id generation).
   */
  class Parser {
    var article: Article
    var sectionHeaders: seq<nat>
    var imageFigures: seq<nat>
    var displayEquations: seq<nat>
    var sectionIdCounts: map<string, nat>
    var issuedIds: set<string>

    /** `Parser::default()`: an empty article and no counters. */
    constructor()
      ensures article == Article(None, [])
      ensures sectionHeaders == [] && imageFigures == [] && displayEquations == []
      ensures sectionIdCounts == map[] && issuedIds == {}
    {
      article := Article(None, []);
      sectionHeaders := [];
      imageFigures := [];
      displayEquations := [];
      sectionIdCounts := map[];
      issuedIds := {};
    }

    /** The three lists of block indices. */
    function Lists(): (seq<nat>, seq<nat>, seq<nat>)
      reads this
    {
      (sectionHeaders, imageFigures, displayEquations)
    }

    /**
     * `generate_id`, corrected: the base's count moves on past every number
     * whose id was already issued, so the id returned is new. It is the id
     * `generate_id` returns whenever that one is still free (`IdStepAgrees`).
     */
    method GenerateId(text: string) returns (id: string)
      modifies this
      ensures IdStep(old(sectionIdCounts), old(issuedIds), text, id, sectionIdCounts, issuedIds)
      ensures article == old(article) && Lists() == old(Lists())
    {
      var base := BaseId(text);
      var count := FirstFreeCount(base, CountOf(sectionIdCounts, base) + 1, issuedIds);
      id := IdFor(base, count);
      sectionIdCounts := sectionIdCounts[base := count];
      issuedIds := issuedIds + {id};
    }

    /** `parse_section_header`: the level, a fresh id and the running number of the header. */
    method ParseSectionHeader(lines: seq<Line>, pos: nat) returns (block: Block, next: nat)
      requires pos <= |lines|
      modifies this
      ensures next == Past(lines, pos)
      ensures pos < |lines| ==> var t := lines[pos].trimmed;
        block.SectionHeader? && block == HeaderBlock(t, block.id, |sectionHeaders|)
        && IdStep(old(sectionIdCounts), old(issuedIds), HeaderText(t), block.id, sectionIdCounts, issuedIds)
      ensures pos == |lines| ==> block == Paragraph([]) && sectionIdCounts == old(sectionIdCounts) && issuedIds == old(issuedIds)
      ensures article == old(article) && Lists() == old(Lists())
    {
      if pos < |lines| {
        var trimmed := lines[pos].trimmed;
        var level := LeadingCount(trimmed, '#');
        var text := Trim(trimmed[level..]);
        var id := GenerateId(text);
        var idNumber := |sectionHeaders|;
        return SectionHeader(level, id, idNumber, text), pos + 1;
      }
      return Paragraph([]), pos;
    }

    /** `parse_image_figure`: a figure numbered with the figures so far, or an empty paragraph. */
    method ParseImageFigure(lines: seq<Line>, pos: nat) returns (block: Block, next: nat)
      requires pos <= |lines|
      ensures next == Past(lines, pos)
      ensures block == (if pos < |lines| then FigureBlock(lines[pos].trimmed, |imageFigures|) else Paragraph([]))
    {
      next := Past(lines, pos);
      block := Paragraph([]);
      if pos < |lines| {
        var trimmed := lines[pos].trimmed;
        if StartsWith(trimmed, "pic ") {
          var rest := trimmed[4..];
          var colon := IndexOf(rest, ':');
          if colon.Some? {
            var elements := ParseInlineElements(Trim(rest[colon.value + 1..]));
            var text, id := MarkFigureAnchors(elements);
            block := ImageFigure(Trim(rest[..colon.value]), id, |imageFigures|, text);
          }
        }
      }
    }

    /** `parse_display_math`: an equation numbered with the equations so far, or an empty paragraph. */
    method ParseDisplayMath(lines: seq<Line>, pos: nat) returns (block: Block, next: nat)
      requires pos <= |lines|
      ensures next == Past(lines, pos)
      ensures block == (if pos < |lines| then MathBlock(lines[pos].trimmed, |displayEquations|) else Paragraph([]))
    {
      next := Past(lines, pos);
      block := Paragraph([]);
      if pos < |lines| {
        var trimmed := lines[pos].trimmed;
        if StartsWith(trimmed, "$ ") {
          block := DisplayMath(None, |displayEquations|, trimmed[2..]);
        }
      }
    }

    /** The branch of `parse_block` for a line that is not blank. */
    method Dispatch(lines: seq<Line>, k: nat) returns (block: Block, next: nat)
      requires k < |lines| && lines[k].trimmed != []
      modifies this
      ensures BlockOutcome(lines, k, |sectionHeaders|, |imageFigures|, |displayEquations|,
                           old(sectionIdCounts), old(issuedIds), block, next, sectionIdCounts, issuedIds)
      ensures article == old(article) && Lists() == old(Lists())
    {
      var trimmed := lines[k].trimmed;
      if trimmed == "???" {
        block, next := ParseRawBlock(lines, k);
      } else if trimmed == "~~~" {
        block, next := ParseCodeBlock(lines, k);
      } else if StartsWith(trimmed, "#") {
        block, next := ParseSectionHeader(lines, k);
      } else if StartsWith(trimmed, "> ") {
        block, next := ParseBlockquote(lines, k);
      } else if StartsWith(trimmed, "pic ") {
        block, next := ParseImageFigure(lines, k);
      } else if StartsWith(trimmed, "$ ") {
        block, next := ParseDisplayMath(lines, k);
      } else if IsUnorderedListItem(trimmed) {
        block, next := ParseUnorderedList(lines, k);
      } else if StartsWith(trimmed, "1. ") {
        block, next := ParseOrderedList(lines, k);
      } else {
        block, next := ParseParagraph(lines, k);
      }
    }

    /**
     * `parse_block`: skips blank lines and parses the block at the first line
     * that is not blank; nothing when only blank lines are left, and then all
     * of them are consumed.
     */
    method ParseBlock(lines: seq<Line>, pos: nat) returns (block: Option<Block>, next: nat)
      requires pos <= |lines|
      modifies this
      ensures var k := NonBlankFrom(lines, pos);
        (block.None? <==> k == |lines|)
        && (block.None? ==> next == |lines| && sectionIdCounts == old(sectionIdCounts) && issuedIds == old(issuedIds))
        && (block.Some? ==> BlockOutcome(lines, k, |sectionHeaders|, |imageFigures|, |displayEquations|,
                                         old(sectionIdCounts), old(issuedIds), block.value, next,
                                         sectionIdCounts, issuedIds))
      ensures article == old(article) && Lists() == old(Lists())
    {
      var p := pos;
      while p < |lines|
        invariant pos <= p <= |lines| && NonBlankFrom(lines, pos) == NonBlankFrom(lines, p)
      {
        if lines[p].trimmed != [] {
          var b;
          b, next := Dispatch(lines, p);
          return Some(b), next;
        }
        p := p + 1;
      }
      return None, p;
    }

    /**
     * The bookkeeping of `parse_body` for one block: its index goes into the
     * list of its kind, if it is numbered, and the block is appended.
     */
    method PushBlock(blocks: seq<Block>, block: Block) returns (r: seq<Block>)
      modifies this
      ensures r == blocks + [block]
      ensures sectionHeaders == old(sectionHeaders) + (if block.SectionHeader? then [|blocks|] else [])
      ensures imageFigures == old(imageFigures) + (if block.ImageFigure? then [|blocks|] else [])
      ensures displayEquations == old(displayEquations) + (if block.DisplayMath? then [|blocks|] else [])
      ensures article == old(article) && sectionIdCounts == old(sectionIdCounts) && issuedIds == old(issuedIds)
    {
      var ind := |blocks|;
      match block {
        case ImageFigure(_, _, _, _) =>
          imageFigures := imageFigures + [ind];
        case DisplayMath(_, _, _) =>
          displayEquations := displayEquations + [ind];
        case SectionHeader(_, _, _, _) =>
          sectionHeaders := sectionHeaders + [ind];
        case _ =>
      }
      r := blocks + [block];
    }

    /**
     * `parse_body`: the blocks of the text, one `parse_block` after another
     * until the lines run out; the index of every header, figure and equation
     * is recorded in its list.
     */
    method ParseBody(s: string) returns (blocks: seq<Block>)
      modifies this
      ensures blocks == BodyBlocks(TrimmedLines(Lines(s)), 0, |old(sectionHeaders)|, |old(imageFigures)|,
                                   |old(displayEquations)|, old(sectionIdCounts), old(issuedIds))
      ensures Recorded(blocks, old(sectionHeaders), old(imageFigures), old(displayEquations), old(issuedIds),
                       sectionHeaders, imageFigures, displayEquations, issuedIds)
      ensures |blocks| <= |Lines(s)|
      ensures article == old(article)
    {
      var lines := TrimmedLines(Lines(s));
      ghost var whole := BodyBlocks(lines, 0, |sectionHeaders|, |imageFigures|, |displayEquations|,
                                    sectionIdCounts, issuedIds);
      blocks := [];
      var pos := 0;
      while pos < |lines|
        invariant pos <= |lines| && |blocks| <= pos
        invariant article == old(article)
        invariant Recorded(blocks, old(sectionHeaders), old(imageFigures), old(displayEquations), old(issuedIds),
                           sectionHeaders, imageFigures, displayEquations, issuedIds)
        invariant whole == blocks + BodyBlocks(lines, pos, |sectionHeaders|, |imageFigures|, |displayEquations|,
                                               sectionIdCounts, issuedIds)
        decreases |lines| - pos
      {
        blocks, pos := NextBlock(lines, pos, blocks, whole,
                                 old(sectionHeaders), old(imageFigures), old(displayEquations), old(issuedIds));
      }
    }

    /**
     * One turn of the loop of `parse_body`: the next block, if any is left,
     * is parsed and recorded. What was recorded stays recorded, and the
     * blocks so far followed by the rest of the body still make up the body.
     */
    method NextBlock(lines: seq<Line>, pos: nat, blocks: seq<Block>, ghost whole: seq<Block>,
                     ghost h0: seq<nat>, ghost f0: seq<nat>, ghost e0: seq<nat>, ghost ids0: set<string>)
      returns (blocks': seq<Block>, next: nat)
      requires pos < |lines| && |blocks| <= pos
      requires Recorded(blocks, h0, f0, e0, ids0, sectionHeaders, imageFigures, displayEquations, issuedIds)
      requires whole == blocks + BodyBlocks(lines, pos, |sectionHeaders|, |imageFigures|, |displayEquations|,
                                            sectionIdCounts, issuedIds)
      modifies this
      ensures pos < next <= |lines| && |blocks'| <= next
      ensures Recorded(blocks', h0, f0, e0, ids0, sectionHeaders, imageFigures, displayEquations, issuedIds)
      ensures whole == blocks' + BodyBlocks(lines, next, |sectionHeaders|, |imageFigures|, |displayEquations|,
                                            sectionIdCounts, issuedIds)
      ensures article == old(article)
    {
      ghost var counts0, ids1 := sectionIdCounts, issuedIds;
      ghost var nh, nf, ne := |sectionHeaders|, |imageFigures|, |displayEquations|;
      var block;
      block, next := ParseBlock(lines, pos);
      blocks' := blocks;
      if block.Some? {
        OutcomeFacts(lines, NonBlankFrom(lines, pos), nh, nf, ne,
                     counts0, ids1, block.value, next, sectionIdCounts, issuedIds);
        BodyTurn(lines, pos, whole, blocks, nh, nf, ne, counts0, ids1, block.value, next, sectionIdCounts, issuedIds);
        RecordedSnoc(blocks, block.value, h0, f0, e0, ids0,
                     sectionHeaders, imageFigures, displayEquations, ids1, issuedIds);
        blocks' := PushBlock(blocks, block.value);
        assert |sectionHeaders| == nh + (if block.value.SectionHeader? then 1 else 0);
        assert |imageFigures| == nf + (if block.value.ImageFigure? then 1 else 0);
        assert |displayEquations| == ne + (if block.value.DisplayMath? then 1 else 0);
      } else {
        assert BodyBlocks(lines, pos, nh, nf, ne, counts0, ids1) == [];
        assert BodyBlocks(lines, next, nh, nf, ne, counts0, ids1) == [];
      }
    }

    /**
     * `parse`: with a "\n===\n" separator, the text before the first one is
     * the header and the text up to the next one the body (the rest is
     * dropped); without one, there is no header and all of it is the body.
     */
    method Parse(s: string)
      modifies this
      ensures var parts := SplitOn(s, HEADER_SEPARATOR);
        article.header == (if |parts| > 1 then Some(ParseHeader(parts[0])) else None)
      ensures article.body == BodyBlocks(TrimmedLines(Lines(BodyText(s))), 0, |old(sectionHeaders)|,
                                         |old(imageFigures)|, |old(displayEquations)|,
                                         old(sectionIdCounts), old(issuedIds))
      ensures |article.body| <= |Lines(BodyText(s))|
      ensures Recorded(article.body, old(sectionHeaders), old(imageFigures), old(displayEquations), old(issuedIds),
                       sectionHeaders, imageFigures, displayEquations, issuedIds)
    {
      var parts := SplitOn(s, HEADER_SEPARATOR);
      if |parts| > 1 {
        article := article.(header := Some(ParseHeader(parts[0])));
        var body := ParseBody(parts[1]);
        article := article.(body := body);
      } else {
        article := article.(header := None);
        var body := ParseBody(parts[0]);
        article := article.(body := body);
      }
    }
  }

  /** The text `parse` reads the body from: the second piece of the split, or the only one. */
  function BodyText(s: string): string
  {
    var parts := SplitOn(s, HEADER_SEPARATOR);
    if |parts| > 1 then parts[1] else parts[0]
  }

  /**
   * The blocks `parse_body` makes of the lines from `pos` on, starting from
   * the lists' lengths `nh`, `nf`, `ne` and the id state `counts`, `ids`:
   * one `parse_block` after another, each numbered block bumping its count.
   */
  function BodyBlocks(lines: seq<Line>, pos: nat, nh: nat, nf: nat, ne: nat,
                      counts: map<string, nat>, ids: set<string>): (r: seq<Block>)
    requires pos <= |lines|
    ensures |r| <= |lines| - pos
    decreases |lines| - pos
  {
    var k := NonBlankFrom(lines, pos);
    if k == |lines| then []
    else
      var (block, next, counts', ids') := BlockStep(lines, k, nh, nf, ne, counts, ids);
      StepProgress(lines, k, nh, nf, ne, counts, ids);
      [block] + BodyBlocks(lines, next, nh + (if block.SectionHeader? then 1 else 0),
                           nf + (if block.ImageFigure? then 1 else 0),
                           ne + (if block.DisplayMath? then 1 else 0), counts', ids')
  }

  /** One `parse_block` that finds a block peels that block off the front of the body. */
  lemma BodyBlocksUnfold(lines: seq<Line>, pos: nat, nh: nat, nf: nat, ne: nat,
                         counts: map<string, nat>, ids: set<string>,
                         block: Block, next: nat, counts': map<string, nat>, ids': set<string>)
    requires pos <= |lines| && NonBlankFrom(lines, pos) < |lines|
    requires BlockOutcome(lines, NonBlankFrom(lines, pos), nh, nf, ne, counts, ids, block, next, counts', ids')
    ensures next <= |lines|
    ensures BodyBlocks(lines, pos, nh, nf, ne, counts, ids)
      == [block] + BodyBlocks(lines, next, nh + (if block.SectionHeader? then 1 else 0),
                              nf + (if block.ImageFigure? then 1 else 0),
                              ne + (if block.DisplayMath? then 1 else 0), counts', ids')
  {
    var k := NonBlankFrom(lines, pos);
    OutcomeIsStep(lines, k, nh, nf, ne, counts, ids, block, next, counts', ids');
    StepProgress(lines, k, nh, nf, ne, counts, ids);
  }

  /** The loop of `parse_body` after one more block: the blocks so far and the rest still make up the body. */
  lemma BodyTurn(lines: seq<Line>, pos: nat, whole: seq<Block>, blocks: seq<Block>, nh: nat, nf: nat, ne: nat,
                 counts: map<string, nat>, ids: set<string>,
                 block: Block, next: nat, counts': map<string, nat>, ids': set<string>)
    requires pos <= |lines| && NonBlankFrom(lines, pos) < |lines|
    requires BlockOutcome(lines, NonBlankFrom(lines, pos), nh, nf, ne, counts, ids, block, next, counts', ids')
    requires whole == blocks + BodyBlocks(lines, pos, nh, nf, ne, counts, ids)
    ensures next <= |lines|
    ensures whole == (blocks + [block]) + BodyBlocks(lines, next, nh + (if block.SectionHeader? then 1 else 0),
                                                     nf + (if block.ImageFigure? then 1 else 0),
                                                     ne + (if block.DisplayMath? then 1 else 0), counts', ids')
  {
    BodyBlocksUnfold(lines, pos, nh, nf, ne, counts, ids, block, next, counts', ids');
    AppendAssoc(blocks, [block], BodyBlocks(lines, next, nh + (if block.SectionHeader? then 1 else 0),
                                            nf + (if block.ImageFigure? then 1 else 0),
                                            ne + (if block.DisplayMath? then 1 else 0), counts', ids'));
  }

  /**
   * The body is the text between the first separator and the second: what
   * follows a second separator is dropped. `a` and `b` are pieces whose first
   * separator is the one placed after them.
   */
  lemma BodyTextBetween(a: string, b: string, c: string)
    requires FindFrom(a + HEADER_SEPARATOR, HEADER_SEPARATOR, 0) == Some(|a|)
    requires FindFrom(b + HEADER_SEPARATOR, HEADER_SEPARATOR, 0) == Some(|b|)
    ensures BodyText(a + HEADER_SEPARATOR + b + HEADER_SEPARATOR + c) == b
  {
    var rest := b + HEADER_SEPARATOR + c;
    assert a + HEADER_SEPARATOR + b + HEADER_SEPARATOR + c == a + HEADER_SEPARATOR + rest;
    SplitAtFirst(a, rest);
    SplitAtFirst(b, c);
  }

  /** Splitting at a first separator puts the text before it in the first piece. */
  lemma SplitAtFirst(a: string, rest: string)
    requires FindFrom(a + HEADER_SEPARATOR, HEADER_SEPARATOR, 0) == Some(|a|)
    ensures SplitOn(a + HEADER_SEPARATOR + rest, HEADER_SEPARATOR) == [a] + SplitOn(rest, HEADER_SEPARATOR)
  {
    var s := a + HEADER_SEPARATOR + rest;
    FirstSeparator(a, rest);
    assert s[..|a|] == a;
    assert s[|a| + |HEADER_SEPARATOR|..] == rest;
  }

  /** A separator that is the first in `a` + separator stays the first whatever follows it. */
  lemma FirstSeparator(a: string, rest: string)
    requires FindFrom(a + HEADER_SEPARATOR, HEADER_SEPARATOR, 0) == Some(|a|)
    ensures FindFrom(a + HEADER_SEPARATOR + rest, HEADER_SEPARATOR, 0) == Some(|a|)
  {
    var p := a + HEADER_SEPARATOR;
    var s := p + rest;
    forall i | 0 <= i < |a| ensures !MatchAt(s, HEADER_SEPARATOR, i) {
      assert !MatchAt(p, HEADER_SEPARATOR, i);
      assert s[i..i + |HEADER_SEPARATOR|] == p[i..i + |HEADER_SEPARATOR|];
    }
    assert s[|a|..|a| + |HEADER_SEPARATOR|] == HEADER_SEPARATOR;
    FindFromFirst(s, HEADER_SEPARATOR, 0, |a|);
  }

  /** Appending a block that OutcomeFacts describes keeps what `parse_body` records. */
  lemma RecordedSnoc(blocks: seq<Block>, b: Block,
                     h0: seq<nat>, f0: seq<nat>, e0: seq<nat>, ids0: set<string>,
                     h: seq<nat>, f: seq<nat>, e: seq<nat>, ids: set<string>, ids': set<string>)
    requires Recorded(blocks, h0, f0, e0, ids0, h, f, e, ids)
    requires b.SectionHeader? ==> b.idNumber == |h| && b.id !in ids && ids' == ids + {b.id}
    requires !b.SectionHeader? ==> ids' == ids
    requires b.ImageFigure? ==> b.idNumber == |f|
    requires b.DisplayMath? ==> b.idNumber == |e|
    ensures Recorded(blocks + [b], h0, f0, e0, ids0,
                     h + (if b.SectionHeader? then [|blocks|] else []),
                     f + (if b.ImageFigure? then [|blocks|] else []),
                     e + (if b.DisplayMath? then [|blocks|] else []), ids')
  {
    ListSnoc(blocks, b, Headers, h0, h);
    ListSnoc(blocks, b, Figures, f0, f);
    ListSnoc(blocks, b, Equations, e0, e);
    FreshHeaderIdsSnoc(blocks, b, ids0, ids, ids');
  }

  /** One list of `Recorded` after a block is appended. */
  lemma ListSnoc(blocks: seq<Block>, b: Block, c: Counter, l0: seq<nat>, l: seq<nat>)
    requires l == l0 + Positions(blocks, c) && Numbered(blocks, c, |l0|)
    requires Counted(b, c) ==> b.idNumber == |l|
    ensures l + (if Counted(b, c) then [|blocks|] else []) == l0 + Positions(blocks + [b], c)
    ensures Numbered(blocks + [b], c, |l0|)
  {
    NumberedSnoc(blocks, b, c, |l0|);
    PositionsSnoc(blocks, b, c);
    AppendAssoc(l0, Positions(blocks, c), if Counted(b, c) then [|blocks|] else []);
  }

  /**
   * The loop of the corrected `generate_id`: the first count from `start` on
   * whose id has not been issued. It ends because the ids of different counts
   * differ and only finitely many ids have been issued.
   */
  method FirstFreeCount(base: string, start: nat, issued: set<string>) returns (count: nat)
    requires start >= 1
    ensures start <= count && IdFor(base, count) !in issued
    ensures forall j :: start <= j < count ==> IdFor(base, j) in issued
  {
    count := start;
    ghost var tried: set<string> := {};
    while IdFor(base, count) in issued
      invariant start <= count
      invariant tried <= issued
      invariant forall j :: start <= j < count ==> IdFor(base, j) in issued
      invariant forall x :: x in tried ==> exists j :: start <= j < count && x == IdFor(base, j)
      decreases |issued - tried|
    {
      TryNext(base, start, count, tried, issued);
      tried := tried + {IdFor(base, count)};
      count := count + 1;
    }
  }

  /** One more candidate tried: it was not tried before, so fewer issued ids are left untried. */
  lemma TryNext(base: string, start: nat, count: nat, tried: set<string>, issued: set<string>)
    requires 1 <= start <= count && tried <= issued && IdFor(base, count) in issued
    requires forall x :: x in tried ==> exists j :: start <= j < count && x == IdFor(base, j)
    requires forall j :: start <= j < count ==> IdFor(base, j) in issued
    ensures forall j :: start <= j < count + 1 ==> IdFor(base, j) in issued
    ensures tried + {IdFor(base, count)} <= issued
    ensures forall x :: x in tried + {IdFor(base, count)} ==> exists j :: start <= j < count + 1 && x == IdFor(base, j)
    ensures |issued - (tried + {IdFor(base, count)})| < |issued - tried|
  {
    var id := IdFor(base, count);
    if id in tried {
      var j :| start <= j < count && id == IdFor(base, j);
      IdForInjective(base, j, count);
    }
    assert issued - tried == (issued - (tried + {id})) + {id};
  }
}
