/**
 * The document model mammoth reads from a .docx file and converts to HTML: paragraphs, runs,
 * text, hyperlinks, bookmarks, note and comment references, images, tables and breaks. Only the
 * properties the HTML conversion and the code-paragraph transform read are kept. A string
 * property that may be absent is an Option; JavaScript reads it as true when it is present and
 * not empty.
 */
module DocModel {
  import opened Wrappers

  datatype VerticalAlignment = Baseline | Superscript | Subscript

  datatype ParagraphProps = ParagraphProps(
    styleId: Option<string>, styleName: Option<string>,
    alignment: Option<string>, indentStart: Option<string>,
    topBorder: Option<string>, rightBorder: Option<string>,
    bottomBorder: Option<string>, leftBorder: Option<string>)

  /** fontSize is a number in points; 0.0 reads as false. */
  datatype RunProps = RunProps(
    styleId: Option<string>, styleName: Option<string>,
    color: Option<string>, highlight: Option<string>, shading: Option<string>,
    font: Option<string>, fontSize: Option<real>,
    isSmallCaps: bool, isAllCaps: bool, isStrikethrough: bool,
    isUnderline: bool, isItalic: bool, isBold: bool,
    verticalAlignment: VerticalAlignment)

  datatype Element =
    | Paragraph(paragraph: ParagraphProps, children: seq<Element>)
    | Run(run: RunProps, children: seq<Element>)
    | Text(value: string)
    | Tab
    | Hyperlink(anchor: Option<string>, href: string, targetFrame: Option<string>, children: seq<Element>)
    | BookmarkStart(name: string)
    | NoteReference(noteType: string, noteId: string)
    | Note(noteType: string, noteId: string, body: seq<Element>)
    | CommentReference(commentId: string)
    | Image(contentType: string)
    | Table(tableStyleId: Option<string>, children: seq<Element>)
    | TableRow(isHeader: bool, children: seq<Element>)
    | TableCell(colSpan: nat, rowSpan: nat, children: seq<Element>)
    | Break(breakType: string)
    /** An element of a type the converter has no handler for. */
    | Unhandled(kind: string)

  datatype Comment = Comment(commentId: string, authorInitials: Option<string>, body: seq<Element>)

  /** The whole document: its body, its footnotes and endnotes, and its comments. */
  datatype Document = Document(children: seq<Element>, notes: seq<Element>, comments: seq<Comment>)

  /** JavaScript truthiness of an optional string. */
  predicate Truthy(o: Option<string>) {
    o.Some? && o.value != ""
  }
}
