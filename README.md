# dllup in Dafny

A model of the core of `dllup`, a static-site tool that turns a small
markup language into HTML pages and prepares the images those pages show.
The model covers four parts of the program:

- **The markup parser** (`src/parser.rs`). A `Parser` object holds the
  article being built, the indices of the section headers, image figures and
  display equations it has met, and the counters behind the section ids. The
  parser splits the header from the body at "\n===\n". It then reads the body
  block by block: raw and code blocks, section headers, quotes, figures,
  display math, unordered and ordered lists, and paragraphs. Every block's
  text goes through the inline parser, which handles code, math, links,
  emphasis and strong text. The model is a `class Parser`
  (`markup_parser.dfy`) with the block readers in `line_blocks.dfy`, and the
  inline character loop is in `inline_parser.dfy`. Each loop is a `method`
  proved equal to a function of its input.
- **The HTML renderer** (`src/html_renderer.rs`). It covers HTML escaping,
  the inline renderer and `extract_text` (`inline_html.dfy`). It also covers
  the stack-based nested-list writer (`render_list.dfy`) and the page and
  block writers (`html_renderer.dfy`). Escaping is proved to round-trip,
  and the list writer is proved to emit balanced tags with one `<li>` per
  item.
- **The image pipeline's deterministic logic** (`src/image_processor.rs`).
  This part has several pieces:
  - variant width planning (`variant_plan.dfy`)
  - display sizing (`display_layout.dfy`)
  - JPEG APP1 splicing and the TIFF Orientation reset, on bytes and on an
    in-place array (`jpeg_exif.dfy`)
  - the EXIF summary (`exif_summary.dfy`)
  - format tables and SVG sniffing (`image_formats.dfy`)
  - file and cache names (`cache_names.dfy`)
  - the content-deduplicating original cache, public URLs and the dimension
    sidecar, over a `FileStore` object whose `files` map stands for the disk
    (`image_cache.dfy`)
- **The configuration** (`src/config.rs`): the defaults, `normalize` on a
  `Config` object, and `default_config_path` (`config.dfy`).

Other files:
- `ast.dfy` transcribes the datatypes of `src/ast.rs`.
- `strings.dfy` and `paths.dfy` hold the parts of Rust's `str` and `Path`
  behaviour that the core relies on: trimming, splitting, decimal parsing,
  and path components and joining on Unix.
- `wrappers.dfy` holds `Option`.

The JPEG and TIFF byte layouts follow ITU-T T.81 Annex B.1.1 (marker
segments), section 4.5.4 of JEITA CP-3451 (the Exif APP1 segment) and
section 2 of TIFF 6.0 (the image file header and IFD entries).

## Model

| member | source | states |
|---|---|---|
| Config.Config.constructor | src/config.rs:13-37 | The defaults: no timings, no root URL, no persistent math engine and no math command. |
| Config.Config.Normalize | src/config.rs:49-55 | `root_url` becomes its normalised value; the other fields are unchanged. |
| Config.NormalizeKeepsNoneAndRoot | src/config.rs:49-51 | An absent root URL and the root URL "/" are left as they are. |
| Config.NormalizeStripsTrailingSlashes | src/config.rs:52 | Any other root URL loses all its trailing '/'. The result never ends in '/', is a prefix of the input, and only '/' characters were dropped. |
| Config.NormalizeDoubleSlash | src/config.rs:52 | "//" normalises to the empty string, because only the single "/" is protected. |
| Config.NormalizeIdempotent | src/config.rs:49-55 | Normalising twice is the same as normalising once. |
| Strings.TrimEndMatchesPrefix | src/config.rs:52 | `trim_end_matches` keeps a prefix and drops only the given character. |
| Strings.TrimStartMatchesSuffix | src/image_processor.rs:604 | `trim_start_matches` keeps a suffix and drops only the given character. |
| Config.DefaultConfigPath | src/config.rs:62-65 | The file name is "dllup.toml". It sits in the input's parent directory, or in "." when the input has no parent. |
| Config.DefaultConfigPathIsJoin | src/config.rs:62-65 | The path is the chosen directory joined with "dllup.toml". |
| Config.JoinConfigFileName | src/config.rs:64 | Joining "dllup.toml" onto a directory appends exactly one normal component. |
| Config.ConfigBesideInput | src/config.rs:62-65 | When the input has a parent directory, the configuration file has that same parent. |
| Config.ConfigFileNameIsOneComponent | src/config.rs:64 | "dllup.toml" parses as a single normal path component. |
| MarkupParser.Parser.constructor | src/parser.rs:7-16 | An empty article with no header and no blocks, empty index lists, and no id counts or issued ids. |
| MarkupParser.Parser.Parse | src/parser.rs:18-27 | With a separator, the header comes from the first piece and the body from the second. Without one, there is no header and the whole text is the body. The body is exactly `BodyBlocks` of that text's lines, from the parser's lists and id state before the call. Its numbered blocks are recorded. |
| MarkupParser.BodyTextBetween | src/parser.rs:19-22 | Text after a second separator is dropped: the body is exactly the piece between the first two separators. |
| MarkupParser.SplitAtFirst | src/parser.rs:19 | Splitting at the first separator makes the text before it the first piece, and the rest is split on its own. |
| MarkupParser.FirstSeparator | src/parser.rs:19 | The first separator stays the first, whatever text follows it. |
| MarkupParser.SplitOnJoin | src/parser.rs:19 | Joining the pieces of `split("\n===\n")` with the separator gives back the text. |
| MarkupParser.SplitOnPieces | src/parser.rs:19 | No piece of the split contains the separator. |
| MarkupParser.SplitOnSeveral | src/parser.rs:19-20 | The split has more than one piece exactly when the separator occurs in the text. |
| MarkupParser.ParseHeaderTitle | src/parser.rs:29-35 | The title is empty exactly when every line is blank; otherwise it is the first non-blank line. A date is read only after a title, from the second non-blank line. |
| MarkupParser.NonBlankLinesFirst | src/parser.rs:30 | The first kept line is the first non-blank line, and every line before it is blank. |
| MarkupParser.NonBlankLinesKept | src/parser.rs:30 | Every kept line is one of the input lines, and none of the kept lines is blank. |
| MarkupParser.NonBlankLinesNone | src/parser.rs:30 | Nothing is kept only when every line is blank. |
| MarkupParser.Parser.ParseBody | src/parser.rs:37-60 | The blocks are exactly `BodyBlocks` of the text's lines, starting from the parser's lists and id state. Each list gains exactly the indices of the blocks of its kind, in increasing order. Every numbered block carries its running number. Every section header's id is distinct and newly issued. There are no more blocks than lines. |
| MarkupParser.BodyBlocks | src/parser.rs:37-60 | The body as one function of the lines and the starting state: one `parse_block` after another, each numbered block advancing its count. There are no more blocks than lines left. |
| MarkupParser.BodyBlocksUnfold | src/parser.rs:41-58 | A `parse_block` that finds a block puts that block at the front of the body. The rest of the body starts where that block ends, with the counts and ids after it. |
| MarkupParser.Parser.NextBlock | src/parser.rs:41-58 | One turn of the loop consumes at least one line. What was recorded stays recorded, and the blocks so far followed by the rest of the body still make up the whole body. |
| MarkupParser.BodyTurn | src/parser.rs:41-58 | After one more block, the blocks so far followed by the rest of the body still make up the whole body. |
| MarkupParser.OutcomeIsStep | src/parser.rs:62-93 | The outcomes `parse_block` may have are exactly the single one `BlockStep` gives: the block and what follows it are determined by the lines and the state. |
| MarkupParser.StepProgress | src/parser.rs:62-93 | One block step consumes at least the line it starts on and stays within the lines. |
| MarkupParser.Parser.PushBlock | src/parser.rs:43-56 | The block is appended, and its index goes to the list of its kind only. |
| MarkupParser.RecordedSnoc | src/parser.rs:43-56 | Appending a block that `parse_block` produced keeps everything `parse_body` records. |
| MarkupParser.PositionsExact | src/parser.rs:43-56 | The recorded positions are exactly the indices of the blocks of that kind, in increasing order. |
| MarkupParser.FreshHeaderIdsSnoc | src/parser.rs:43-56 | A new header whose id was just issued keeps all header ids distinct and fresh. |
| MarkupParser.Parser.ParseBlock | src/parser.rs:62-93 | Blank lines are skipped. The result is None exactly when only blank lines are left, and then they are all consumed. Otherwise the block is the one dispatched at the first non-blank line. |
| MarkupParser.Parser.Dispatch | src/parser.rs:71-89 | The tests on the trimmed line are made in the source's order, and the first one that holds decides the block and the lines consumed. |
| MarkupParser.OutcomeFacts | src/parser.rs:62-93 | Every block consumes at least the line it starts on, which makes `parse_body` terminate. Each block is numbered with the length of its list, and only a section header issues an id. |
| MarkupParser.StatelessProgress | src/parser.rs:71-89 | The blocks that do not depend on the parser's state consume at least one line and are never of a numbered kind. |
| MarkupParser.NonBlankFromSkips | src/parser.rs:63-69 | The lines skipped before the first non-blank one are all blank. |
| MarkupParser.ZeroNumberedItem | src/parser.rs:297-308 | After "1. a", the line "0. b" continues the ordered list, and its item has level 0. |
| MarkupParser.OrderedStartGivesItem | src/parser.rs:85-86 | A line starting with "1. " always starts an ordered list, because its number parses. |
| LineBlocks.UnorderedItemForms | src/parser.rs:95-103 | The six `starts_with` tests hold exactly when the line starts with one to six '*' and then a space. |
| LineBlocks.StarPrefixMatch | src/parser.rs:95-103 | A line starting with m stars and a space matches exactly the prefix of length m. |
| LineBlocks.LeadingDigitsRun | src/parser.rs:105-110 | The leading characters counted as the digits of `^\d+` are all ASCII digits. |
| LineBlocks.ParseRawBlock | src/parser.rs:112-132 | The content is the lines up to the closing "???", each followed by "\n". The fence line is consumed. |
| LineBlocks.CollectFenced | src/parser.rs:115-130 | The loop collects exactly the lines before the first fence line, each followed by "\n", and consumes the fence. |
| LineBlocks.ParseCodeBlock | src/parser.rs:134-163 | A "lang NAME" line sets the language. The code is the lines up to the closing "~~~". |
| LineBlocks.LanguageLine | src/parser.rs:137-146 | A language is read exactly when the line after the opening fence is consumed as a "lang " line; at most that one line is consumed. |
| MarkupParser.GenerateIdAsWritten | src/parser.rs:165-183 | As written, the id is the base the k-th time it is used: the base itself when k = 1, else "base-k". The base's count goes up by exactly one. |
| MarkupParser.GenerateIdAsWrittenCollides | src/parser.rs:165-183 | The headers "A", "A" and "A 2" get the ids "a", "a-2" and "a-2": the ids as written are not unique. |
| MarkupParser.Parser.GenerateId | src/parser.rs:165-183 | Corrected: the id returned was not issued before and is now issued. It is the as-written id whenever that one is still free. |
| MarkupParser.IdStepAgrees | src/parser.rs:174-182 | When the id the code as written gives is still free, the corrected step gives the same id and count. |
| MarkupParser.BaseIdChars | src/parser.rs:167-172 | An id base holds only lower-case letters, digits and '-'. |
| MarkupParser.IdForInjective | src/parser.rs:178-182 | Different counts for one base give different ids. |
| MarkupParser.FirstFreeCount | src/parser.rs:174-182 | The corrected count is the first one from the old count on whose id is free, and every count before it is taken. |
| MarkupParser.FirstFree | src/parser.rs:174-182 | The first count from a start on whose id is free: its id is not issued, and the id of every count before it is. |
| MarkupParser.IdStepIsNextId | src/parser.rs:165-183 | A corrected id step is determined by the state before it: it holds exactly for the id, counts and issued ids that `NextId` gives. |
| MarkupParser.IdForDiffers | src/parser.rs:178-182 | An id issued for one count is never the id of another count, which is how the id search skips over a taken id. |
| MarkupParser.TryNext | src/parser.rs:174-182 | Each count tried leaves fewer issued ids untried, so the search ends. |
| MarkupParser.Parser.ParseSectionHeader | src/parser.rs:185-203 | The level is the number of leading '#'. The title is the trimmed rest. The id is fresh, and the number is the count of earlier headers. |
| MarkupParser.HeaderLevelPositive | src/parser.rs:188-189 | A section header's level is at least 1. |
| LineBlocks.ParseBlockquote | src/parser.rs:205-220 | The run of "> " lines, each with its "> " removed and followed by "\n", is parsed as one inline text. The first other line is not consumed. |
| LineBlocks.CollectQuote | src/parser.rs:207-216 | The loop collects exactly the quote text up to the first line that is not a quote line. |
| LineBlocks.QuoteTextSnoc | src/parser.rs:207-216 | One more quote line adds its body and a newline at the end. |
| MarkupParser.Parser.ParseImageFigure | src/parser.rs:222-252 | "pic URL:CAPTION" gives a figure with the trimmed URL and caption, numbered by the figures before it; anything else gives an empty paragraph. |
| MarkupParser.MarkFigureAnchors | src/parser.rs:229-240 | Every reference anchor is made invisible, the rest is unchanged, and the id is the last anchor's name. |
| MarkupParser.FigureHasNoId | src/parser.rs:229-240 | The caption parser makes no anchors, so a figure never gets an id and its caption is unchanged. |
| MarkupParser.NoAnchorUnmarked | src/parser.rs:229-240 | With no anchors, marking changes nothing and finds no name. |
| MarkupParser.Parser.ParseDisplayMath | src/parser.rs:254-267 | "$ EQ" gives an equation numbered by the equations before it; anything else gives an empty paragraph. |
| LineBlocks.ParseUnorderedList | src/parser.rs:269-292 | The list holds the consecutive item lines, each with its star count as its level. A blank line ends the list and is consumed; any other line ends it unconsumed. |
| LineBlocks.CollectUnorderedItems | src/parser.rs:272-287 | The loop collects exactly the items of the lines up to the first non-item line. |
| LineBlocks.ReadUnorderedItem | src/parser.rs:276-281 | An item's level is its star count, and its text is the rest after the stars and the space. |
| LineBlocks.UnorderedListLevels | src/parser.rs:269-292 | Every item of an unordered list has a level from 1 to 6. |
| LineBlocks.UnorderedEndItems | src/parser.rs:272-287 | Every line before the end of an unordered list is an item line. |
| LineBlocks.ParseOrderedList | src/parser.rs:294-321 | The list holds the consecutive numbered lines, each with its number as its level. A number that does not fit in a `usize` ends the list, and a blank line ending it is consumed. |
| LineBlocks.CollectOrderedItems | src/parser.rs:297-316 | The loop collects exactly the items of the lines up to the first line that gives none. |
| LineBlocks.OrderedTurn | src/parser.rs:297-316 | One turn either appends the line's item or stops at the end of the list. |
| LineBlocks.ReadOrderedItem | src/parser.rs:300-311 | A line gives an item exactly when it is numbered and its number fits in a `usize`; the item is then the number and the text after ". ". |
| LineBlocks.ParseParagraph | src/parser.rs:323-340 | The lines up to the next blank one are joined with "\n", trimmed at the end and parsed as inline text. The blank line is consumed. |
| InlineParser.ParseInlineElements | src/parser.rs:342-456 | The character loop's elements equal the inline parse of the input. |
| InlineParser.ScanPlain | src/parser.rs:444-447 | A character that opens nothing joins the text buffer. |
| InlineParser.ScanOpen | src/parser.rs:349-442 | An opening character flushes the buffer, then its span's elements come, then the rest. |
| InlineParser.ReadSpan | src/parser.rs:349-442 | A span gives the elements of its kind and consumes the characters counted for it, at least one. |
| InlineParser.FlushAndRead | src/parser.rs:349-442 | Buffered text is pushed as one element before a span's elements. |
| InlineParser.CollectEmphasis | src/parser.rs:386-401 | The emphasis text is the characters up to the closing '_', which is consumed, or up to the end. |
| InlineParser.CollectStrong | src/parser.rs:406-436 | The strong text is the characters up to the first "**", which is consumed, or up to the end. A lone '*' is kept. |
| InlineParser.ParseInlineNoEmptyText | src/parser.rs:342-456 | The parser never emits an empty text element, at any depth. |
| InlineParser.ScanNoAnchor | src/parser.rs:342-456 | The parser never emits a reference anchor. |
| InlineParser.SingleStarKept | src/parser.rs:437-442 | A single '*' between plain text stays in the text. |
| InlineParser.SpanDropsNextChar | src/parser.rs:349-368 | A code or math span drops the character after its closing delimiter. |
| InlineParser.LinkSkipsOneChar | src/parser.rs:369-385 | A link forms only when the second character after ']' is '('. The character right after ']' is skipped unread. |
| InlineParser.AdjacentParenIsNoLink | src/parser.rs:369-385 | `[text](url)` gives no link: the text, the '(' and the url's first character vanish. |
| InlineParser.EmphasisSpan | src/parser.rs:386-405 | Emphasis contents are parsed on their own, from a strictly shorter string. |
| InlineParser.StrongSpan | src/parser.rs:406-436 | Strong contents are parsed on their own, from a strictly shorter string. |
| InlineParser.LiteralRun | src/parser.rs:444-447 | A run of literal characters goes into the buffer unchanged. |
| HtmlRenderer.RenderHtml | src/html_renderer.rs:3-17 | The page is the header (when there is one) followed by each block's HTML, in body order, for every article. |
| HtmlRenderer.ArticleHeaderFirst | src/html_renderer.rs:5-8 | The header's HTML comes first, and its title reads back from the page. |
| HtmlRenderer.BodyHtmlAppend | src/html_renderer.rs:10-14 | A body written in two parts is the parts' HTML, one after the other. |
| HtmlRenderer.BodyHtmlSnoc | src/html_renderer.rs:10-14 | One more block adds its HTML at the end. |
| HtmlRenderer.HeaderTitle | src/html_renderer.rs:19-35 | The `<h1>` element reads back, unescaped, as the title. |
| HtmlRenderer.HeaderDate | src/html_renderer.rs:19-35 | A date paragraph follows the title exactly when there is a date, and it reads back as the date. |
| HtmlRenderer.RenderBlock | src/html_renderer.rs:37-58 | Each block is written by its own writer. The lists are written by the stack writer on the corrected levels of `ClampLevels`, so every block is written (see "## Findings"). |
| HtmlRenderer.CodeBlockCode | src/html_renderer.rs:60-70 | The code reads back, unescaped, from inside `<pre><code>`. |
| HtmlRenderer.CodeBlockClass | src/html_renderer.rs:60-70 | The `<code` tag has a class exactly when a language is given. |
| HtmlRenderer.CodeBlockLanguage | src/html_renderer.rs:60-70 | The class value after `language-` reads back as the escaped language. |
| HtmlRenderer.HeadingTagClamped | src/html_renderer.rs:72-79 | The heading tag is `h` followed by the section level, clamped to at most 6. |
| HtmlRenderer.SectionHeaderTitle | src/html_renderer.rs:72-79 | With an id free of `>`, the heading element reads back as the title. |
| HtmlRenderer.FigureAttributes | src/html_renderer.rs:87-97 | The `src` attribute reads back as the URL, and the `alt` attribute as the caption's plain text. |
| HtmlRenderer.MathRoundTrip | src/html_renderer.rs:114-117 | The equation reads back from between the `$$` lines. |
| HtmlRenderer.PlainParagraph | src/html_renderer.rs:168-172 | A paragraph of plain text with nothing to escape is written in `<p>` as it was read. |
| InlineHtml.ExtractTextAppend | src/html_renderer.rs:99-112 | `extract_text` of a concatenation is the texts of the parts, in order. |
| InlineHtml.PlainTextPassesThrough | src/html_renderer.rs:99-112 | Plain text passes through the inline parser and the renderer unchanged, and it is its own alt text. |
| InlineHtml.RenderInlinesAppend | src/html_renderer.rs:174-176 | Rendering a concatenation renders each part, in order. |
| InlineHtml.HiddenAnchorsRenderNothing | src/html_renderer.rs:197-200 | Invisible reference anchors render as the empty string. |
| InlineHtml.TextRoundTrip | src/html_renderer.rs:180 | A text element's HTML unescapes back to the text. |
| RenderList.RenderList | src/html_renderer.rs:127-166 | The list is the outer tags around the nested lists' token text. Its tags are balanced and properly nested, with exactly one `<li>` per item, in input order. |
| RenderList.RenderItems | src/html_renderer.rs:131-149 | After the item loop, the stack writes out the items' token text, with one entry per open list. |
| RenderList.AddItem | src/html_renderer.rs:131-149 | One pass of the loop writes the transition to the item's level and then the item's `<li>`. |
| RenderList.Realign | src/html_renderer.rs:132-142 | Moving the stack to an item's level writes exactly the transition's tags. |
| RenderList.Deepen | src/html_renderer.rs:132-134 | Each level deeper pushes one entry, which writes one opening tag. |
| RenderList.Shallow | src/html_renderer.rs:136-142 | Each level shallower wraps the top entry into the one below, which writes one closing tag and a newline. |
| RenderList.ListTokensBalanced | src/html_renderer.rs:127-166 | A list closes as many lists as it opens, and no prefix closes more than it opened. |
| RenderList.ListTokensItems | src/html_renderer.rs:127-166 | A list holds exactly its items, each once, in input order. |
| RenderList.StepTokensItems | src/html_renderer.rs:131-149 | The items' tokens hold exactly the items, in order. |
| RenderList.FinishList | src/html_renderer.rs:151-164 | The final unwinding of the stack writes the whole list. |
| RenderList.PopAsWritten | src/html_renderer.rs:136-142 | Popping down to a level stops at that level, and aborts exactly when the level is 0: the last pop leaves no entry for `last_mut().unwrap()`. |
| RenderList.ItemDepthAsWritten | src/html_renderer.rs:131-149 | One pass of the item loop as written leaves the stack at the item's level, and aborts exactly when that level is 0. |
| RenderList.ListAbortsIffLevelZero | src/html_renderer.rs:127-149 | The item loop as written aborts if and only if some item has level 0. |
| RenderList.LevelZeroAborts | src/html_renderer.rs:136-148 | Items of levels 1 then 0, which the parser reads from "1. a" then "0. b", abort the loop. |
| RenderList.ClampLevels | src/html_renderer.rs:131-149 | The corrected levels: every item keeps its text, a level-0 item is moved to level 1, and every other level is kept. |
| RenderList.ClampedListComplete | src/html_renderer.rs:127-166 | With the corrected levels nothing aborts, the tags are balanced and properly nested, every item is written once in order, and any list the source writes without aborting is unchanged. |
| RenderList.RenderListClamped | src/html_renderer.rs:127-166 | The stack writer on the corrected levels writes their token text, for any items. |
| RenderList.ListHtmlSplit | src/html_renderer.rs:151-164 | The whole list is the outer tags around the items' text, followed by a closing tag for every list still open. |
| RenderList.TransitionHtml | src/html_renderer.rs:132-142 | A transition writes one opening tag per level deeper, or one closing tag and a newline per level back up. |
| RenderList.StepTokensHtmlSnoc | src/html_renderer.rs:131-149 | One more item adds its transition and its `<li>` to the text. |
| HtmlEscape.UnescapeEscapeHtml | src/html_renderer.rs:210-217 | Decoding the six entities gives back exactly the text that was escaped. |
| HtmlEscape.EscapeCharsHasNoMarkup | src/html_renderer.rs:210-217 | Character-by-character escaping leaves no raw special character except '&'. |
| HtmlEscape.EscapeCharsEntities | src/html_renderer.rs:210-217 | In text escaped character by character, every '&' starts one of the six entities. |
| HtmlEscape.EscapedHasNoMarkup | src/html_renderer.rs:210-217 | Escaped text has no raw `<`, `>`, `"`, `'` or `/`, and every `&` in it starts one of the six entities `escape_html` writes. |
| HtmlEscape.EscapePlainText | src/html_renderer.rs:210-217 | Text without special characters is left as it is. |
| HtmlEscape.EscapeHtmlPerChar | src/html_renderer.rs:210-217 | The chain of six replacements escapes each character on its own. |
| HtmlEscape.AmpEntityKept | src/html_renderer.rs:211-216 | The later replacements leave "&amp;" alone, since '&' is replaced first. |
| HtmlEscape.LtEntityKept | src/html_renderer.rs:212-216 | The replacements after '<' leave "&lt;" alone. |
| HtmlEscape.GtEntityKept | src/html_renderer.rs:213-216 | The replacements after '>' leave "&gt;" alone. |
| HtmlEscape.QuotEntityKept | src/html_renderer.rs:214-216 | The replacements after '"' leave "&quot;" alone. |
| HtmlEscape.AposEntityKept | src/html_renderer.rs:215-216 | The '/' replacement leaves "&#x27;" alone. |
| HtmlEscape.UnescapeEscapedChar | src/html_renderer.rs:210-217 | An escaped character decodes back to itself, followed by the decoding of the rest. |
| HtmlEscape.EntityOfEscaped | src/html_renderer.rs:210-217 | Decoding an escaped character consumes exactly its entity. |
| ImageCache.NewImageProcessor | src/image_processor.rs:94-102 | The cache directory is the configured one, as a path, and the settings and root URL are kept. |
| ImageCache.FileStore.Write | src/image_processor.rs:561 | The file is created or replaced, and every other file is unchanged. |
| ImageCache.TryLoadCachedRemote | src/image_processor.rs:364-381 | The first candidate present in the cache is read and its format detected. Nothing is found when no candidate exists. |
| ImageCache.FirstExisting | src/image_processor.rs:369-370 | The index found is the first existing candidate, and none exists when nothing is found. |
| CacheNames.RemoteCacheCandidates | src/image_processor.rs:383-422 | The paths are the cache directory joined to each collected name, in order (`UniqueNames(RemoteNameCandidates(reference))`): one to three paths, with the canonical name's path first. Each starts with the cache directory's components, followed by those of one name without '/'. That name may be "..", so this is not containment on disk. |
| CacheNames.RemoteCacheNames | src/image_processor.rs:384-416 | The names are the first occurrences of the non-empty names among the canonical name, the base name and the canonical name's stem, in that order. There are one to three of them, distinct and free of '/', with the canonical name first. |
| CacheNames.UniqueNames | src/image_processor.rs:1225-1232 | Pushing the candidates one by one onto an empty list keeps each non-empty name once: the result is distinct, holds no empty name and holds exactly the non-empty candidates. |
| CacheNames.UniqueNamesSnoc | src/image_processor.rs:1225-1232 | One more candidate is appended unless it is empty or already kept. |
| CacheNames.UniqueNamesFirst | src/image_processor.rs:410 | A non-empty first candidate stays first. |
| CacheNames.RemoteCanonicalName | src/image_processor.rs:384-408 | The canonical name is non-empty and free of '/'. |
| CacheNames.NameCandidates | src/image_processor.rs:410-416 | The candidates are the canonical name, the base name and then the stem when there is one, and nothing else. |
| CacheNames.StemOf | src/image_processor.rs:412-414 | A file stem holds no '/'. |
| CacheNames.RemoteNameCandidates | src/image_processor.rs:384-416 | Two or three candidates, the canonical name first, none with a '/'. |
| CacheNames.RemoteNamesPlain | src/image_processor.rs:410-416 | The collected names start with the canonical name and are all free of '/'. |
| CacheNames.JoinedInside | src/image_processor.rs:418-421 | Every name without '/' joined to a directory starts with that directory's components, and the first path is the first name's. |
| VariantPlan.TargetResizeWidths | src/image_processor.rs:500-523 | The widths are strictly increasing. They are exactly the configured sizes, the layout width and the positive display width that lie strictly between 0 and the original width. |
| VariantPlan.ClampWidths | src/image_processor.rs:511-521 | On strictly increasing input, the loop keeps exactly the widths strictly between 0 and the original width. |
| VariantPlan.PlanOfCandidates | src/image_processor.rs:508-521 | After sort and dedup, the loop keeps exactly the candidates strictly between 0 and the original width, in increasing order. |
| VariantPlan.FilterOfIncreasing | src/image_processor.rs:511-521 | On strictly increasing sizes, the clamping and the duplicate test never change a kept width. |
| VariantPlan.KeptMembers | src/image_processor.rs:511-521 | The kept sizes are exactly those strictly between 0 and the original width. |
| VariantPlan.KeptIncreasing | src/image_processor.rs:511-521 | A kept sub-sequence of strictly increasing sizes is strictly increasing. |
| VariantPlan.InsertPermutes | src/image_processor.rs:508 | Inserting adds exactly the new element: the result is a permutation of the input plus it. |
| VariantPlan.InsertSorted | src/image_processor.rs:508 | Inserting into a sorted sequence keeps it sorted. |
| ImageCache.EnsureOriginalCached | src/image_processor.rs:525-563 | A source already in the cache is returned with no write. Otherwise the base name is returned if free or already holding the bytes, else the first numbered name that is. A file with other contents is never overwritten, and the returned file holds the source's bytes. |
| ImageCache.ProbeNumbered | src/image_processor.rs:545-558 | The probe returns the first numbered path from 2 on that is free or holds the bytes. |
| ImageCache.ProbeBound | src/image_processor.rs:545-558 | The probe cannot pass more counters than there are files, so it ends. |
| ImageCache.CandidatesInjective | src/image_processor.rs:545-558 | Numbered paths for different counters are different files. |
| ImageCache.CandidateShape | src/image_processor.rs:547 | A numbered path is the cache directory followed by the numbered name. |
| ImageCache.BaseNameRelative | src/image_processor.rs:537-538 | The base name is non-empty and free of '/'. |
| ImageCache.PublicUrlFor | src/image_processor.rs:565-617 | With an image root URL, the URL starts with that root less its trailing slashes. Otherwise, under a site root URL other than "/", it starts with that root. With no root URL, or "/", it is site-absolute. |
| ImageCache.UrlBelowImgRoot | src/image_processor.rs:578-583 | With an image root URL, a cached file is published as "root/name". |
| ImageCache.UrlSiteAbsolute | src/image_processor.rs:611-615 | With no root URL, a file of a one-directory cache "dir" is published as "/dir/name". |
| ImageCache.SegmentsOfCachedName | src/image_processor.rs:568-576 | The only normal segment of a plain name's path inside the cache is the name. |
| ImageCache.PlainSegment | src/image_processor.rs:572 | A name without backslashes is its own URL segment. |
| ImageFormats.DetectFormat | src/image_processor.rs:620-635 | The result is SVG exactly when the source looks like SVG, and the only failure is an unsupported format. |
| ImageFormats.DetectByExtension | src/image_processor.rs:626-632 | When sniffing fails, a non-SVG source is recognised exactly when its extension names a format, and then as that format. |
| ImageFormats.SvgTagAfterWhitespace | src/image_processor.rs:637-649 | Leading whitespace and letter case do not hide an "<svg" tag. |
| ImageFormats.SvgByName | src/image_processor.rs:638-639 | A reference ending in ".svg", in any case, is SVG whatever its bytes. |
| ImageFormats.SniffHead | src/image_processor.rs:641-646 | The sniffed head is at most 512 bytes. |
| ImageFormats.SkipAsciiWhitespace | src/image_processor.rs:643 | The result is a suffix, what is skipped is whitespace, and what is left does not start with whitespace. |
| ImageFormats.PathExtensionFromStr | src/image_processor.rs:651-658 | An extension, when there is one, is non-empty and holds no '.' or '/'. |
| ImageFormats.ImageFormatFromExtensionIgnoresCase | src/image_processor.rs:660-667 | Format lookup by extension ignores ASCII case. |
| ImageFormats.ExtensionForFormatDomain | src/image_processor.rs:669-676 | A format has a written extension exactly when it is JPEG, PNG or WebP. |
| ImageFormats.FormatExtensionRoundTrip | src/image_processor.rs:660-676 | A format's written extension is recognised as that format again. |
| ImageFormats.RecognisedFormatsAreWritable | src/image_processor.rs:660-688 | Every recognised extension names a format that has an "image/" MIME type and a written extension. |
| ImageFormats.IsRemoteByScheme | src/image_processor.rs:1142-1145 | A reference is remote exactly when it starts with "http://" or "https://" in any ASCII case. |
| JpegExif.EnsureExifHeader | src/image_processor.rs:784-794 | The result starts with "Exif\0\0". It is the input when the header is already there, and the header plus the input otherwise. |
| JpegExif.EnsureExifHeaderIdempotent | src/image_processor.rs:784-794 | Adding the header twice is the same as adding it once. |
| JpegExif.InsertExifSegment | src/image_processor.rs:796-852 | The result is the buffer with its first APP1 segment removed and the new APP1 segment inserted after the leading APPn run. When no splice applies, the buffer is unchanged. |
| JpegExif.DropFirstApp1 | src/image_processor.rs:805-827 | The first loop removes the first APP1 segment met before SOS, cut at the buffer's end. |
| JpegExif.SkipAppSegments | src/image_processor.rs:829-844 | The second loop stops after the run of APP0 to APP15 segments that follows SOI. |
| JpegExif.InsertNoOp | src/image_processor.rs:797-803 | Without SOI, or with data too large for one segment, nothing changes. |
| JpegExif.RemoveApp1Shape | src/image_processor.rs:805-827 | The first pass removes nothing, or one contiguous segment that starts with FF E1 and spans its declared length, cut at the end. |
| JpegExif.InsertedSegmentLayout | src/image_processor.rs:846-851 | The new segment sits at the insertion point with the cleaned buffer's bytes around it. Its length field reads back as the data length plus 2. |
| JpegExif.InsertAfterApp0Example | src/image_processor.rs:796-852 | For SOI, APP0 and SOS, the APP1 segment goes right after APP0. |
| JpegExif.App1Segment | src/image_processor.rs:846-850 | The segment is FF E1, the big-endian length counting itself, then the data. |
| JpegExif.NormalizeExifOrientation | src/image_processor.rs:867-911 | The array afterwards holds the normalised buffer, and its length is unchanged. |
| JpegExif.ResetFirstOrientation | src/image_processor.rs:890-910 | The entry loop writes 1 into the value of the first Orientation entry of IFD0, if there is one. |
| JpegExif.SeekOrientation | src/image_processor.rs:890-898 | The loop finds the first Orientation entry among the declared entries that fit in the buffer. |
| JpegExif.WriteOne | src/image_processor.rs:900-906 | The two value bytes become 1 in the buffer's byte order, and nothing else changes. |
| JpegExif.NormalizeNoOp | src/image_processor.rs:868-880 | A buffer shorter than 14 bytes, or with an unknown byte order, is left unchanged. |
| JpegExif.NormalizeChangesOnlyValue | src/image_processor.rs:867-911 | At most the two value bytes change, and they then read back as 1. |
| JpegExif.NormalizeIdempotent | src/image_processor.rs:867-911 | Resetting the orientation twice is the same as resetting it once. |
| JpegExif.FoundIsOrientationEntry | src/image_processor.rs:894-896 | The slot found is the value field of an entry whose tag is 0x0112. |
| JpegExif.ReadU16OfBytes | src/image_processor.rs:913-919 | Reading back the bytes of a 16-bit value gives the value, in either byte order. |
| JpegExif.ReadU16Swapped | src/image_processor.rs:913-919 | Reading 16 bits in the two byte orders reads the same pair reversed. |
| JpegExif.ReadU32Swapped | src/image_processor.rs:921-927 | Reading 32 bits in the two byte orders reads the same four bytes reversed. |
| ExifSummary.SummarizeExif | src/image_processor.rs:929-961 | One row per label that has a value, in the fixed order. |
| ExifSummary.RowsFromOrdered | src/image_processor.rs:929-961 | The rows follow the fixed label order, each label at most once, and each row carries its label's value. |
| ExifSummary.SummaryComplete | src/image_processor.rs:929-961 | Every label that has a value appears in the summary with it. |
| ExifSummary.RowsFromComplete | src/image_processor.rs:929-961 | Every label from a given position on that has a value has a row with it. |
| ExifSummary.ValuesAtRank | src/image_processor.rs:929-961 | Each label's value sits at its rank. |
| ExifSummary.ExifOrientationOfFirst | src/image_processor.rs:963-968 | The orientation is the converted value of the first Orientation entry; later entries with that tag are ignored. |
| ExifSummary.TagValueToU16AsWritten | src/image_processor.rs:970-992 | As written: unsigned values are taken as they are, a 32-bit one clamped to 65535. Negative signed values give 0, and a 32-bit signed value is cast. |
| ExifSummary.TruncationCounterexample | src/image_processor.rs:982-985 | As written, a 32-bit signed 65542 gives 6, while the 32-bit unsigned 65542 gives 65535. |
| ExifSummary.TagValueToU16Saturates | src/image_processor.rs:970-992 | Corrected: the first value is clamped to 0..65535 for every integer kind. It agrees with the code as written on every value that fits in 16 bits. |
| ExifSummary.ExifValue | src/image_processor.rs:994-1006 | The trimmed text of the first entry with the tag, unless it is empty or "none". |
| ExifSummary.FindEntry | src/image_processor.rs:995-997 | The entry found has the tag, and every entry before it has another tag. None is found only when no entry has the tag. |
| ExifSummary.IsNoneWordIgnoresCase | src/image_processor.rs:1000 | The "none" test ignores ASCII case. |
| ExifSummary.CameraDescription | src/image_processor.rs:1008-1025 | There is a description exactly when the make or the model is shown, and it is non-empty and trimmed. |
| ExifSummary.CameraDescriptionCases | src/image_processor.rs:1008-1025 | A model that repeats the make is not prefixed again; otherwise both appear, make first. |
| ExifSummary.CameraModelNamesMake | src/image_processor.rs:1014-1016 | A model that already names the make is shown alone. |
| ExifSummary.JoinedShown | src/image_processor.rs:1018 | Joining two shown values with a space and trimming changes nothing. |
| ExifSummary.LensDescription | src/image_processor.rs:1027-1039 | There is a description exactly when the lens model, make or specification is shown. The lens model wins when present, and the result is non-empty and trimmed. |
| ExifSummary.FirstOf | src/image_processor.rs:1041-1047 | The first tag's value, else the second's. |
| DisplayLayout.ComputeDisplayDimensions | src/image_processor.rs:1049-1088 | Both sides are at least 1, and the wide flag holds exactly when the ratio is at least 2. |
| DisplayLayout.DisplayCaps | src/image_processor.rs:1067-1081 | A portrait image is capped by the layout height, an image up to twice as wide as high by the layout width, and a wide one by twice the layout width. |
| DisplayLayout.DisplayWithinLayout | src/image_processor.rs:1049-1088 | The height is at most the layout limit and the width at most twice it; a non-wide image is at most the layout limit wide. |
| DisplayLayout.SideOf | src/image_processor.rs:1051-1058 | A positive side is kept, and the side used is always positive. |
| DisplayLayout.Round | src/image_processor.rs:1084-1085 | Rounding is to the nearest whole number, with halves going up. |
| DisplayLayout.ToPixels | src/image_processor.rs:1084-1085 | At least 1, and saturating at the largest `u32`. |
| DisplayLayout.PanoramaExample | src/image_processor.rs:1049-1088 | 4000 x 1000 with a 1200 layout is shown 2400 x 600, wide. |
| DisplayLayout.PortraitExample | src/image_processor.rs:1049-1088 | 800 x 1200 with a 1200 layout keeps its size. |
| DisplayLayout.LandscapeExample | src/image_processor.rs:1049-1088 | 1600 x 900 with a 1200 layout is shown 1200 x 675. |
| DisplayLayout.UnknownSizeExample | src/image_processor.rs:1049-1088 | Unknown (zero) sizes are shown as a layout-limit square. |
| CacheNames.PreferredFilename | src/image_processor.rs:1147-1182 | There is a name exactly when the source has one whose sanitised form is non-empty. It starts with that sanitised form and holds no '/'. |
| CacheNames.NameWithExtension | src/image_processor.rs:1165-1181 | There is a name exactly when the sanitised name is non-empty. It starts with the sanitised name and holds no '/'. |
| CacheNames.NameGetsRequestedExtension | src/image_processor.rs:1170-1179 | A name with no extension of its own comes out with the requested extension, as `Path::extension` reads it back. |
| CacheNames.AppendExtension | src/image_processor.rs:1175-1178 | The name, a single '.', then the extension. It starts with the name, ends with the extension, and adds no '/'. |
| CacheNames.DefaultFilename | src/image_processor.rs:1184-1190 | "image", followed by ".ext" when there is an extension. |
| CacheNames.NumberedFilenameInjective | src/image_processor.rs:1192-1207 | Different counters give different names. |
| CacheNames.NumberedFilenameIsPlain | src/image_processor.rs:1192-1207 | The numbered name of a plain file name is itself a plain file name. |
| CacheNames.NumberedFilenameDiffers | src/image_processor.rs:1192-1207 | A numbered name never equals the name it was made from. |
| CacheNames.SanitizeFilename | src/image_processor.rs:1209-1223 | Only ASCII letters, digits, '.', '-' and '_' appear, with no '_' at either end. |
| CacheNames.SanitizeIdempotent | src/image_processor.rs:1209-1223 | Sanitising twice is the same as sanitising once. |
| CacheNames.SanitizeOfSanitized | src/image_processor.rs:1209-1223 | A safe name with no '_' at either end is left as it is. |
| CacheNames.SanitizeIgnoresQuery | src/image_processor.rs:1210 | Whatever follows the first '?' or '#' has no effect. |
| CacheNames.SanitizeIgnoresDirectory | src/image_processor.rs:1211 | Whatever comes before the last '/' or '\\' has no effect. |
| CacheNames.SafeChars | src/image_processor.rs:1212-1221 | Each character is kept when safe and becomes '_' otherwise. |
| CacheNames.TrimUnderscores | src/image_processor.rs:1222 | The middle of the text, with no '_' left at either end. |
| CacheNames.PushUniqueName | src/image_processor.rs:1225-1232 | The candidate is appended unless it is empty or already listed. |
| CacheNames.PushUniqueKeepsDistinct | src/image_processor.rs:1225-1232 | Pushing keeps the names distinct and free of the empty name. |
| CacheNames.PushUniqueKeepsPlain | src/image_processor.rs:1225-1232 | Pushing a name without '/' keeps all names free of '/'. |
| ImageCache.SidecarBesideOriginal | src/image_processor.rs:1234-1236 | The sidecar sits in the original's directory and is named after the original's stem with ".txt". |
| ImageCache.LoadCachedDimensions | src/image_processor.rs:1238-1245 | Dimensions are loaded only from an existing sidecar, and both numbers fit in a `u32`. |
| ImageCache.SaveCachedDimensions | src/image_processor.rs:1247-1250 | The sidecar holds "{width} {height}\n", and no other file changes. |
| ImageCache.SidecarRoundTrip | src/image_processor.rs:1238-1250 | Saving the dimensions and loading them back gives the same numbers. |
| ImageCache.ParseDimensionsText | src/image_processor.rs:1238-1250 | The sidecar text parses back to the numbers written. |
| ImageCache.DecodeAsciiBytes | src/image_processor.rs:1240 | Reading back the ASCII bytes of a text gives the text. |
| ImageCache.SplitTwoWords | src/image_processor.rs:1241-1243 | Two words with a space between them and a line end split into the two words. |
| Strings.ParseU32OfNatToString | src/image_processor.rs:1242-1243 | A `u32` written in decimal parses back to itself. |

## Left out

- Concurrency: the resize dispatcher, `schedule_resize_generation` and `wait_for_pending_resizes` spawn jobs and wait on a condition variable.
- Network I/O: `fetch_remote` is an HTTP download.
- The file system: the cache is a `FileStore` object whose `files` map stands for the disk. Directory creation and I/O errors are not modelled.
- Foreign libraries: the `image` crate's `guess_format` is a parameter of `DetectFormat` and `TryLoadCachedRemote`. Decoding, resizing, encoding, `apply_orientation`, the rexif parser and serializer, and roxmltree are not modelled.
- SVG handling: `process_svg`, `estimate_svg_dimensions`, `parse_viewbox` and `parse_dimension` parse floating-point text.
- Floating point: `compute_display_dimensions` is modelled over reals, so exact `f64` rounding is not captured.
- The image pipeline's drivers: `process`, `process_raster`, `process_gif`, `load_source`, `read_local`, `try_build_processed_from_cache`, `encode_image` and `generate_variant_file` orchestrate I/O and foreign calls around the modelled logic.
- `Config::load`: a file read and a TOML deserialisation. The `images` settings struct is not among the modelled source files, so `ImagesConfig` holds only the fields the pipeline reads.
- `src/math_engine.rs` and `src/main.rs`: a subprocess bridge and a demo driver.
- Diagnostics: the `eprintln!` of `insert_exif_segment` is not modelled.
- Unicode: `is_alphanumeric` and `to_lowercase` in the id base, and `\d` in the ordered-item pattern, are modelled on ASCII only.
- Paths: paths are modelled on Unix, with '/' as the only separator.
- Tables and big buttons have no arm in the renderer's `match`. They are written as the empty string.
- The renderer does not match the AST it is written against. The model follows the evident intent:
  - link children are rendered and escaped;
  - `extract_text` recurses into links;
  - `extract_text` has no arm for `Reference` or `ReferenceAnchor`; the model gives a reference's name, a visible anchor's name, and "" for an invisible anchor;
  - a reference shows its name;
  - a section header's title is a string, written escaped;
  - the id attribute is written unquoted and unescaped, as in the source;
  - the visible anchor's mismatched `</a>` is kept.
- Ordered lists: an item's number is its level, as in the source.
- The AST: `src/ast.rs` declares a section header with `level`, `id` and `text`, and an image figure with an `alt` field. `src/parser.rs` builds a section header that also has an `id_number`, and a figure without `alt`. The model's `Block` follows the parser.
- RenderList.RenderList: requires every item level to be at least 1. A level-0 item empties the stack, and the source panics at `last_mut().unwrap()`. That abort is modelled by `ListDepthAsWritten` and recorded under "## Findings". The renderer calls `RenderListClamped`, which writes the corrected levels.
- JpegExif.InsertExifSegment: requires that the insertion point lies within the buffer. A declared APPn length that runs past the end makes `Vec::splice` panic.
- ImageCache.LoadCachedDimensions: a sidecar holding any byte outside ASCII loads as None. The source reads it with `read_to_string`, which accepts any UTF-8, and `split_whitespace` also splits at Unicode whitespace, so "640 480 é\n" loads there. `SaveCachedDimensions` writes only ASCII, so the sidecars the program writes load the same in both.

## Findings

| source | as written | input that shows it | evidently intended | confidence | as-written member | corrected member |
|---|---|---|---|---|---|---|
| src/parser.rs:165-183 | The id of a header is its base, numbered by how often that base was used. Ids coming from other bases are not considered. | Headers "A", "A", "A 2" get the ids "a", "a-2", "a-2". | Section ids are unique within a page. | not executed | MarkupParser.GenerateIdAsWrittenCollides | MarkupParser.Parser.GenerateId |
| src/image_processor.rs:982-985 | A non-negative 32-bit signed value is converted with `as u16`, which wraps. | The signed value 65542 gives 6, while the unsigned value 65542 gives 65535. | Saturation at 65535, as for the 32-bit unsigned values. | not executed | ExifSummary.TruncationCounterexample | ExifSummary.TagValueToU16Saturates |
| src/html_renderer.rs:136-148 | The pop loop runs while the stack is deeper than the item's level, and each pop appends to the entry below through `last_mut().unwrap()`. | The ordered list "1. a" then "0. b" gives an item of level 0 (`MarkupParser.ZeroNumberedItem`). Popping down to 0 empties the stack, and `unwrap` panics. | Any parsed list can be rendered. The model writes a level-0 item at the top level. | not executed | RenderList.LevelZeroAborts | RenderList.ClampedListComplete |
