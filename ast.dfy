/**
 * The document tree (src/ast.rs), with the block constructors laid out as the
 * parser builds them: a section header carries its running number and its
 * text as a string, and an image figure has no separate `alt` field.
 */
module Ast {
  import opened Wrappers

  datatype ArticleHeader = ArticleHeader(title: string, date: Option<string>)

  datatype InlineElement =
    | Text(text: string)
    | Code(code: string)
    | InlineMath(math: string)
    | Link(linkText: seq<InlineElement>, url: string)
    | Emphasis(content: seq<InlineElement>)
    | Strong(content: seq<InlineElement>)
    | Reference(name: string)
    | ReferenceAnchor(anchor: string, invisible: bool)

  datatype ListItem = ListItem(level: nat, text: seq<InlineElement>)

  datatype Block =
    | Raw(raw: string)
    | CodeBlock(language: Option<string>, code: string)
    | SectionHeader(level: nat, id: string, idNumber: nat, title: string)
    | BlockQuote(quote: seq<InlineElement>)
    | ImageFigure(url: string, figureId: Option<string>, idNumber: nat, caption: seq<InlineElement>)
    | DisplayMath(mathId: Option<string>, idNumber: nat, content: string)
    | Table(idNumber: nat, header: seq<seq<InlineElement>>, rows: seq<seq<seq<InlineElement>>>,
            tableCaption: seq<InlineElement>)
    | BigButton(buttonText: seq<InlineElement>, buttonUrl: string)
    | UnorderedList(items: seq<ListItem>)
    | OrderedList(items: seq<ListItem>)
    | Paragraph(elements: seq<InlineElement>)

  datatype Article = Article(header: Option<ArticleHeader>, body: seq<Block>)
}
