/**
 * The conversion of a document to HTML, as functions that thread the conversion's state: the
 * note number, the note references and referenced comments met so far, the messages, the next
 * deferred id, and whether an exception has been thrown. Every element type has a handler;
 * an element of a type without one converts to nothing. Images become deferred nodes, resolved
 * after the walk in the order the walk finds them.
 */
module Conversion {
  import opened Wrappers
  import opened Strings
  import opened DocModel
  import opened HtmlTree
  import opened HtmlStyles

  /** The settings of one conversion, with the document's comments indexed by id. */
  datatype Config = Config(idPrefix: string, ignoreEmptyParagraphs: bool, styleMap: seq<Rule>, comments: map<string, Comment>)

  /** The caller's options; an absent option takes its default. */
  datatype Options = Options(idPrefix: Option<string>, ignoreEmptyParagraphs: Option<bool>, styleMap: Option<seq<Rule>>)

  datatype ReferencedComment = ReferencedComment(labelText: string, comment: Comment)

  /**
   * What the handlers change as they go. nextDeferred is a counter shared by every conversion
   * (it lives at module level and is never reset); failed records a thrown exception.
   */
  datatype State = State(
    noteNumber: int, noteReferences: seq<Element>, referencedComments: seq<ReferencedComment>,
    messages: seq<Message>, nextDeferred: nat, failed: bool)

  datatype Out = Out(nodes: seq<HtmlNode>, state: State)

  /** The last value for each key wins (underscore's indexBy). */
  function IndexBy<K(==), V>(vs: seq<V>, key: V -> K): map<K, V> {
    if vs == [] then map[]
    else IndexBy(vs[..|vs| - 1], key)[key(vs[|vs| - 1]) := vs[|vs| - 1]]
  }

  function CommentKey(c: Comment): string {
    c.commentId
  }

  /** A note and a note reference are identified by their type and id together. */
  function NoteKey(e: Element): (string, string) {
    if e.Note? || e.NoteReference? then (e.noteType, e.noteId) else ("", "")
  }

  /** DocumentConverter and the option defaults of DocumentConversion. */
  function ConfigOf(options: Options, d: Document): (c: Config)
    ensures c.idPrefix == (if options.idPrefix.Some? then options.idPrefix.value else "")
    ensures c.ignoreEmptyParagraphs == (options.ignoreEmptyParagraphs != Some(false))
    ensures c.styleMap == (if options.styleMap.Some? then options.styleMap.value else [])
  {
    Config(
      if options.idPrefix.Some? then options.idPrefix.value else "",
      options.ignoreEmptyParagraphs != Some(false),
      if options.styleMap.Some? then options.styleMap.value else [],
      IndexBy(d.comments, CommentKey))
  }

  /** The state a conversion starts in, given the shared deferred counter. */
  function Initial(nextDeferred: nat): State {
    State(1, [], [], [], nextDeferred, false)
  }

  // ---- the handlers ----

  /** convertElements: the elements' HTML concatenated, each converted in the state the previous one left. */
  function ConvertElements(c: Config, es: seq<Element>, s: State, header: bool): Out
    decreases es, 3
  {
    if es == [] || s.failed then Out([], s)
    else
      var first := ElementToHtml(c, es[0], s, header);
      var rest := ConvertElements(c, es[1..], first.state, header);
      Out(first.nodes + rest.nodes, rest.state)
  }

  /** elementToHtml: dispatch on the element type; header is options.isTableHeader. */
  function ElementToHtml(c: Config, e: Element, s: State, header: bool): Out
    decreases e, 2
  {
    match e
    case Paragraph(_, _) => ParagraphHtml(c, e, s, header)
    case Run(_, _) => RunHtml(c, e, s, header)
    case Text(value) => Out([HText(value)], s)
    case Tab => Out([HText("\t")], s)
    case Hyperlink(_, _, _, _) => HyperlinkHtml(c, e, s, header)
    case BookmarkStart(name) => Out([Fresh("a", map["id" := HtmlId(c.idPrefix, name)], [ForceWrite])], s)
    case NoteReference(_, _) => NoteReferenceHtml(c, e, s)
    case Note(_, _, _) => NoteHtml(c, e, s, header)
    case CommentReference(_) => CommentReferenceHtml(c, e, s)
    case Image(_) => ImageHtml(e, s)
    case Table(_, _) => TableHtml(c, e, s, header)
    case TableRow(_, children) =>
      var inner := ConvertElements(c, children, s, header);
      Out([Fresh("tr", map[], [ForceWrite] + inner.nodes)], inner.state)
    case TableCell(colSpan, rowSpan, children) =>
      var inner := ConvertElements(c, children, s, header);
      Out([Fresh(CellTag(header), CellAttributes(colSpan, rowSpan), [ForceWrite] + inner.nodes)], inner.state)
    case Break(_) => BreakHtml(c, e, s)
    case Unhandled(_) => Out([], s)
  }

  /**
   * convertParagraph: the path is chosen first (pushing its warning), then the children are
   * converted; unless empty paragraphs are ignored, a force-write marker keeps the paragraph.
   */
  function ParagraphHtml(c: Config, e: Element, s: State, header: bool): Out
    requires e.Paragraph?
    decreases e, 1
  {
    match ParagraphPath(c.styleMap, e)
    case Throws => Out([], s.(failed := true))
    case Chosen(elements, warnings) =>
      var inner := ConvertElements(c, e.children, s.(messages := s.messages + warnings), header);
      var content := if c.ignoreEmptyParagraphs then inner.nodes else [ForceWrite] + inner.nodes;
      Out(Nest(elements, content), inner.state)
  }

  /**
   * convertParagraph as evidently intended: a paragraph whose rule maps to `ignore` is dropped
   * with its children, as a run mapped to `ignore` is, instead of failing the conversion. Every
   * other paragraph converts as written.
   */
  function IntendedParagraphHtml(c: Config, e: Element, s: State, header: bool): Out
    requires e.Paragraph?
  {
    if ParagraphPath(c.styleMap, e).Throws? then Out([], s) else ParagraphHtml(c, e, s, header)
  }

  /** The paths a run is wrapped in, outermost first: its style path, sub or sup, then the span. */
  function RunPaths(stylePath: seq<PathElement>, r: RunProps): seq<PathElement> {
    stylePath + VerticalElements(r) + [SpanElement(r)]
  }

  /** convertRun: a style that maps to ignore drops the run without converting its children. */
  function RunHtml(c: Config, e: Element, s: State, header: bool): Out
    requires e.Run?
    decreases e, 1
  {
    var s1 := s.(messages := s.messages + RunWarnings(c.styleMap, e));
    match RunStylePath(c.styleMap, e)
    case Ignore => Out([], s1)
    case Elements(stylePath) =>
      var inner := ConvertElements(c, e.children, s1, header);
      Out(Nest(RunPaths(stylePath, e.run), inner.nodes), inner.state)
  }

  function HyperlinkAttributes(c: Config, e: Element): map<string, string>
    requires e.Hyperlink?
  {
    var href := map["href" := HyperlinkHref(c.idPrefix, e.anchor, e.href)];
    if e.targetFrame.Some? then href["target" := e.targetFrame.value] else href
  }

  function HyperlinkHtml(c: Config, e: Element, s: State, header: bool): Out
    requires e.Hyperlink?
    decreases e, 1
  {
    var inner := ConvertElements(c, e.children, s, header);
    Out([HElement("a", HyperlinkAttributes(c, e), inner.nodes, false)], inner.state)
  }

  /** The label of the n-th note reference. */
  function NoteLabel(n: int): string {
    "[" + IntToString(n) + "]"
  }

  /** A note reference is remembered and gets the current note number, which then goes up by one. */
  function NoteReferenceHtml(c: Config, e: Element, s: State): Out
    requires e.NoteReference?
  {
    var anchor := Fresh("a", map["href" := "#" + ReferentId(c.idPrefix, e.noteType, e.noteId),
                                 "id" := ReferenceId(c.idPrefix, e.noteType, e.noteId)],
                        [HText(NoteLabel(s.noteNumber))]);
    Out([Fresh("sup", map[], [anchor])],
        s.(noteReferences := s.noteReferences + [e], noteNumber := s.noteNumber + 1))
  }

  /** The paragraph at the end of a note or comment that links back to its reference. */
  function BackLink(referenceId: string): HtmlNode {
    HElement("p", map[], [HText(" "), Fresh("a", map["href" := "#" + referenceId], [HText("↑")])], false)
  }

  function NoteHtml(c: Config, e: Element, s: State, header: bool): Out
    requires e.Note?
    decreases e, 1
  {
    var inner := ConvertElements(c, e.body, s, header);
    Out([Fresh("li", map["id" := ReferentId(c.idPrefix, e.noteType, e.noteId)],
               inner.nodes + [BackLink(ReferenceId(c.idPrefix, e.noteType, e.noteId))])],
        inner.state)
  }

  /** The label of the n-th comment reference. */
  function CommentLabel(comment: Comment, n: nat): string {
    "[" + Value(comment.authorInitials) + NatToString(n) + "]"
  }

  /**
   * convertCommentReference: dropped unless a style rule gives it a path. Otherwise the comment
   * is looked up (a missing one throws), labelled with the count of comment references so far
   * and remembered.
   */
  function CommentReferenceHtml(c: Config, e: Element, s: State): Out
    requires e.CommentReference?
  {
    match PathOr(c.styleMap, e, Ignore)
    case Ignore => Out([], s)
    case Elements(elements) =>
      if e.commentId !in c.comments then Out([], s.(failed := true))
      else
        var comment := c.comments[e.commentId];
        var text := CommentLabel(comment, |s.referencedComments| + 1);
        var anchor := Fresh("a", map["href" := "#" + ReferentId(c.idPrefix, "comment", e.commentId),
                                     "id" := ReferenceId(c.idPrefix, "comment", e.commentId)],
                            [HText(text)]);
        Out(Nest(elements, [anchor]),
            s.(referencedComments := s.referencedComments + [ReferencedComment(text, comment)]))
  }

  /** deferredConversion: a deferred node with the next id of the shared counter. */
  function ImageHtml(e: Element, s: State): Out {
    Out([Deferred(s.nextDeferred, e)], s.(nextDeferred := s.nextDeferred + 1))
  }

  const DefaultTablePath: HtmlPath := TopLevelPath("table", map[])

  function TableHtml(c: Config, e: Element, s: State, header: bool): Out
    requires e.Table?
    decreases e, 1
  {
    match PathOr(c.styleMap, e, DefaultTablePath)
    case Ignore => Out([], s)
    case Elements(elements) =>
      var inner := TableChildren(c, e, s);
      Out(Nest(elements, inner.nodes), inner.state)
  }

  /**
   * convertTableChildren: with no leading header row the rows are converted as they are;
   * otherwise the leading header rows go in a thead, converted as header rows, and the rest in
   * a tbody. A force-write marker comes first either way.
   */
  function TableChildren(c: Config, e: Element, s: State): Out
    requires e.Table?
    decreases e, 0
  {
    var bodyIndex := BodyIndex(e.children);
    if bodyIndex == 0 then
      var rows := ConvertElements(c, e.children, s, false);
      Out([ForceWrite] + rows.nodes, rows.state)
    else
      var headRows := e.children[..bodyIndex];
      assert bodyIndex == |e.children| ==> headRows == e.children;
      var head := ConvertElements(c, headRows, s, true);
      var body := ConvertElements(c, e.children[bodyIndex..], head.state, false);
      Out([ForceWrite, Fresh("thead", map[], head.nodes), Fresh("tbody", map[], body.nodes)], body.state)
  }

  /** The path of a break: a style rule's, a br for a line break, else nothing. */
  function BreakPath(c: Config, e: Element): HtmlPath
    requires e.Break?
  {
    PathOr(c.styleMap, e, if e.breakType == "line" then TopLevelPath("br", map[]) else EmptyPath)
  }

  function BreakHtml(c: Config, e: Element, s: State): Out
    requires e.Break?
  {
    match BreakPath(c, e)
    case Ignore => Out([], s)
    case Elements(elements) => Out(Nest(elements, []), s)
  }

  // ---- the document ----

  /** The notes of the references, in reference order; None when one is missing (resolving it throws). */
  function ResolveNotes(index: map<(string, string), Element>, refs: seq<Element>): (r: Option<seq<Element>>)
    ensures r.Some? ==> |r.value| == |refs|
    ensures r.Some? ==> forall k :: 0 <= k < |refs| ==> NoteKey(refs[k]) in index && r.value[k] == index[NoteKey(refs[k])]
    ensures r.None? ==> exists k :: 0 <= k < |refs| && NoteKey(refs[k]) !in index
  {
    if refs == [] then Some([])
    else if NoteKey(refs[0]) !in index then None
    else
      match ResolveNotes(index, refs[1..])
      case None => None
      case Some(rest) => Some([index[NoteKey(refs[0])]] + rest)
  }

  /** The dt of a referenced comment: its label, under the comment's referent id. */
  function CommentTitle(c: Config, rc: ReferencedComment): HtmlNode {
    Fresh("dt", map["id" := ReferentId(c.idPrefix, "comment", rc.comment.commentId)], [HText("Comment " + rc.labelText)])
  }

  /** convertComment: a dt holding the label and a dd holding the comment's body and a link back. */
  function CommentHtml(c: Config, rc: ReferencedComment, s: State): Out {
    var body := ConvertElements(c, rc.comment.body, s, false);
    Out([CommentTitle(c, rc),
         Fresh("dd", map[], body.nodes + [BackLink(ReferenceId(c.idPrefix, "comment", rc.comment.commentId))])],
        body.state)
  }

  function ConvertComments(c: Config, rcs: seq<ReferencedComment>, s: State): Out {
    if rcs == [] || s.failed then Out([], s)
    else
      var first := CommentHtml(c, rcs[0], s);
      var rest := ConvertComments(c, rcs[1..], first.state);
      Out(first.nodes + rest.nodes, rest.state)
  }

  /**
   * The document handler: the body, then an ol with the notes of the note references met in the
   * body, then a dl with the comments referenced in the body and the notes. References met while
   * converting the notes or comments themselves are not listed: both lists are taken before.
   */
  function DocumentHtml(c: Config, d: Document, s: State): Out {
    var body := ConvertElements(c, d.children, s, false);
    if body.state.failed then body
    else
      match ResolveNotes(IndexBy(d.notes, NoteKey), body.state.noteReferences)
      case None => Out(body.nodes, body.state.(failed := true))
      case Some(notes) =>
        var notesOut := ConvertElements(c, notes, body.state, false);
        var comments := ConvertComments(c, notesOut.state.referencedComments, notesOut.state);
        Out(body.nodes + [Fresh("ol", map[], notesOut.nodes), Fresh("dl", map[], comments.nodes)], comments.state)
  }

  // ---- resolving the deferred images ----

  /** The image converter: the HTML of an image, or None when it fails. */
  type ImageConverter = Element -> Option<seq<HtmlNode>>

  /** The HTML an image converts to; a failed conversion is caught and gives none. */
  function ImageValue(convert: ImageConverter, image: Element): seq<HtmlNode> {
    var converted := convert(image);
    if converted.Some? then converted.value else []
  }

  /** The values of the deferred nodes ds, resolved in order, and the message for each image that failed. */
  function Resolved(ds: seq<HtmlNode>, convert: ImageConverter): (r: (map<nat, seq<HtmlNode>>, seq<Message>))
    ensures forall d :: d in ds && d.Deferred? ==> d.id in r.0
    ensures forall id :: id in r.0 ==> exists d :: d in ds && d.Deferred? && d.id == id
  {
    if ds == [] then (map[], [])
    else
      var init := Resolved(ds[..|ds| - 1], convert);
      var d := ds[|ds| - 1];
      if !d.Deferred? then init
      else (init.0[d.id := ImageValue(convert, d.image)],
            init.1 + (if convert(d.image).Some? then [] else [ImageFailed(d.image)]))
  }

  /** The finished conversion: the HTML with its images in place, and the messages. */
  datatype Converted = Converted(html: seq<HtmlNode>, messages: seq<Message>)

  /**
   * convertToHtml from state s: the document's HTML, its deferred nodes collected in walk order
   * and resolved one after the other, then replaced; None when the conversion threw. The state
   * returned holds the messages of the failed images and the shared deferred counter afterwards.
   */
  function ConvertFrom(c: Config, d: Document, s: State, convert: ImageConverter): (Option<Converted>, State)
  {
    var out := DocumentHtml(c, d, s);
    if out.state.failed then (None, out.state)
    else
      var values := Resolved(DeferredIn(out.nodes), convert);
      var after := out.state.(messages := out.state.messages + values.1);
      (Some(Converted(Replace(out.nodes, values.0), after.messages)), after)
  }

  /** DocumentConverter(options).convertToHtml(document), given the shared deferred counter. */
  function ConvertToHtml(options: Options, d: Document, nextDeferred: nat, convert: ImageConverter): (Option<Converted>, nat)
  {
    var r := ConvertFrom(ConfigOf(options, d), d, Initial(nextDeferred), convert);
    (r.0, r.1.nextDeferred)
  }
}
