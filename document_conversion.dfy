/**
 * DocumentConversion as an object: the closure state of one conversion (the note number, the
 * note references and referenced comments met so far, the messages, and whether an exception
 * has been thrown) are fields its handlers update, and the deferred id counter, which the module
 * keeps for every conversion, is a separate object they share. Each handler is proved to leave
 * the state and to return the HTML that the function of the same name in Conversion gives.
 */
module Converter {
  import opened Wrappers
  import opened DocModel
  import opened HtmlTree
  import opened HtmlStyles
  import opened Conversion

  /** The module-level deferredId: the id the next deferred node gets. */
  class DeferredCounter {
    var next: nat

    constructor(start: nat)
      ensures next == start
    {
      next := start;
    }
  }

  class DocumentConversion {
    const config: Config
    const counter: DeferredCounter
    var noteNumber: int
    var noteReferences: seq<Element>
    var referencedComments: seq<ReferencedComment>
    /** The messages array every handler is given and appends to. */
    var messages: seq<Message>
    var failed: bool

    /** The conversion's state, as the functions of Conversion thread it. */
    function Snapshot(): State
      reads this, counter
    {
      State(noteNumber, noteReferences, referencedComments, messages, counter.next, failed)
    }

    /** new DocumentConversion(options, comments), the comments indexed from the document. */
    constructor(options: Options, d: Document, counter: DeferredCounter)
      ensures config == ConfigOf(options, d) && this.counter == counter
      ensures Snapshot() == Initial(counter.next)
    {
      config := ConfigOf(options, d);
      this.counter := counter;
      noteNumber := 1;
      noteReferences := [];
      referencedComments := [];
      messages := [];
      failed := false;
    }

    method ConvertElements(es: seq<Element>, header: bool) returns (nodes: seq<HtmlNode>)
      modifies this, counter
      ensures Out(nodes, Snapshot()) == Conversion.ConvertElements(config, es, old(Snapshot()), header)
      decreases es, 3
    {
      nodes := [];
      var i := 0;
      while i < |es| && !failed
        invariant 0 <= i <= |es|
        invariant Conversion.ConvertElements(config, es, old(Snapshot()), header)
          == Out(nodes + Conversion.ConvertElements(config, es[i..], Snapshot(), header).nodes,
                 Conversion.ConvertElements(config, es[i..], Snapshot(), header).state)
        decreases |es| - i
      {
        assert es[i..][0] == es[i] && es[i..][1..] == es[i + 1..];
        var more := ElementToHtml(es[i], header);
        nodes := nodes + more;
        i := i + 1;
      }
    }

    method ElementToHtml(e: Element, header: bool) returns (nodes: seq<HtmlNode>)
      modifies this, counter
      ensures Out(nodes, Snapshot()) == Conversion.ElementToHtml(config, e, old(Snapshot()), header)
      decreases e, 2
    {
      match e
      case Paragraph(_, _) => nodes := ParagraphHtml(e, header);
      case Run(_, _) => nodes := RunHtml(e, header);
      case Text(value) => nodes := [HText(value)];
      case Tab => nodes := [HText("\t")];
      case Hyperlink(_, _, _, _) => nodes := HyperlinkHtml(e, header);
      case BookmarkStart(name) => nodes := [Fresh("a", map["id" := HtmlId(config.idPrefix, name)], [ForceWrite])];
      case NoteReference(_, _) => nodes := NoteReferenceHtml(e);
      case Note(_, _, _) => nodes := NoteHtml(e, header);
      case CommentReference(_) => nodes := CommentReferenceHtml(e);
      case Image(_) => nodes := ImageHtml(e);
      case Table(_, _) => nodes := TableHtml(e, header);
      case TableRow(_, _) => nodes := RowHtml(e, header);
      case TableCell(_, _, _) => nodes := CellHtml(e, header);
      case Break(_) => nodes := BreakHtml(e);
      case Unhandled(_) => nodes := [];
    }

    method ParagraphHtml(e: Element, header: bool) returns (nodes: seq<HtmlNode>)
      requires e.Paragraph?
      modifies this, counter
      ensures Out(nodes, Snapshot()) == Conversion.ParagraphHtml(config, e, old(Snapshot()), header)
      decreases e, 1
    {
      match ParagraphPath(config.styleMap, e)
      case Throws =>
        failed := true;
        nodes := [];
      case Chosen(elements, warnings) =>
        messages := messages + warnings;
        var content := ConvertElements(e.children, header);
        if !config.ignoreEmptyParagraphs {
          content := [ForceWrite] + content;
        }
        nodes := Nest(elements, content);
    }

    method RunHtml(e: Element, header: bool) returns (nodes: seq<HtmlNode>)
      requires e.Run?
      modifies this, counter
      ensures Out(nodes, Snapshot()) == Conversion.RunHtml(config, e, old(Snapshot()), header)
      decreases e, 1
    {
      var found := FindStyle(config.styleMap, e);
      if found.None? && Truthy(e.run.styleId) {
        messages := messages + [UnrecognisedStyle("run", Value(e.run.styleId), e.run.styleName)];
      }
      var stylePath := if found.Some? then config.styleMap[found.value].to else EmptyPath;
      assert stylePath == RunStylePath(config.styleMap, e);
      assert Snapshot() == old(Snapshot()).(messages := old(messages) + RunWarnings(config.styleMap, e));
      if stylePath.Ignore? {
        nodes := [];
      } else {
        var children := ConvertElements(e.children, header);
        nodes := Nest(RunPaths(stylePath.elements, e.run), children);
      }
    }

    method HyperlinkHtml(e: Element, header: bool) returns (nodes: seq<HtmlNode>)
      requires e.Hyperlink?
      modifies this, counter
      ensures Out(nodes, Snapshot()) == Conversion.HyperlinkHtml(config, e, old(Snapshot()), header)
      decreases e, 1
    {
      var children := ConvertElements(e.children, header);
      nodes := [HElement("a", HyperlinkAttributes(config, e), children, false)];
    }

    method NoteReferenceHtml(e: Element) returns (nodes: seq<HtmlNode>)
      requires e.NoteReference?
      modifies this
      ensures Out(nodes, Snapshot()) == Conversion.NoteReferenceHtml(config, e, old(Snapshot()))
    {
      noteReferences := noteReferences + [e];
      var anchor := Fresh("a", map["href" := "#" + ReferentId(config.idPrefix, e.noteType, e.noteId),
                                   "id" := ReferenceId(config.idPrefix, e.noteType, e.noteId)],
                          [HText(NoteLabel(noteNumber))]);
      noteNumber := noteNumber + 1;
      nodes := [Fresh("sup", map[], [anchor])];
    }

    method NoteHtml(e: Element, header: bool) returns (nodes: seq<HtmlNode>)
      requires e.Note?
      modifies this, counter
      ensures Out(nodes, Snapshot()) == Conversion.NoteHtml(config, e, old(Snapshot()), header)
      decreases e, 1
    {
      var children := ConvertElements(e.body, header);
      var backLink := BackLink(ReferenceId(config.idPrefix, e.noteType, e.noteId));
      nodes := [Fresh("li", map["id" := ReferentId(config.idPrefix, e.noteType, e.noteId)], children + [backLink])];
    }

    method CommentReferenceHtml(e: Element) returns (nodes: seq<HtmlNode>)
      requires e.CommentReference?
      modifies this
      ensures Out(nodes, Snapshot()) == Conversion.CommentReferenceHtml(config, e, old(Snapshot()))
    {
      var path := PathOr(config.styleMap, e, Ignore);
      if path.Ignore? {
        nodes := [];
      } else if e.commentId !in config.comments {
        failed := true;
        nodes := [];
      } else {
        var comment := config.comments[e.commentId];
        var count := |referencedComments| + 1;
        var text := CommentLabel(comment, count);
        referencedComments := referencedComments + [ReferencedComment(text, comment)];
        var anchor := Fresh("a", map["href" := "#" + ReferentId(config.idPrefix, "comment", e.commentId),
                                     "id" := ReferenceId(config.idPrefix, "comment", e.commentId)],
                            [HText(text)]);
        nodes := Nest(path.elements, [anchor]);
      }
    }

    /** deferredConversion: the node takes the counter's id and the counter goes up. */
    method ImageHtml(e: Element) returns (nodes: seq<HtmlNode>)
      modifies counter
      ensures Out(nodes, Snapshot()) == Conversion.ImageHtml(e, old(Snapshot()))
    {
      nodes := [Deferred(counter.next, e)];
      counter.next := counter.next + 1;
    }

    method TableHtml(e: Element, header: bool) returns (nodes: seq<HtmlNode>)
      requires e.Table?
      modifies this, counter
      ensures Out(nodes, Snapshot()) == Conversion.TableHtml(config, e, old(Snapshot()), header)
      decreases e, 1
    {
      var path := PathOr(config.styleMap, e, DefaultTablePath);
      if path.Ignore? {
        nodes := [];
      } else {
        var children := TableChildren(e);
        nodes := Nest(path.elements, children);
      }
    }

    method TableChildren(e: Element) returns (nodes: seq<HtmlNode>)
      requires e.Table?
      modifies this, counter
      ensures Out(nodes, Snapshot()) == Conversion.TableChildren(config, e, old(Snapshot()))
      decreases e, 0
    {
      var bodyIndex := BodyIndex(e.children);
      if bodyIndex == 0 {
        var rows := ConvertElements(e.children, false);
        nodes := [ForceWrite] + rows;
      } else {
        var headRows := e.children[..bodyIndex];
        assert bodyIndex == |e.children| ==> headRows == e.children;
        var head := ConvertElements(headRows, true);
        var body := ConvertElements(e.children[bodyIndex..], false);
        nodes := [ForceWrite, Fresh("thead", map[], head), Fresh("tbody", map[], body)];
      }
    }

    method RowHtml(e: Element, header: bool) returns (nodes: seq<HtmlNode>)
      requires e.TableRow?
      modifies this, counter
      ensures Out(nodes, Snapshot()) == Conversion.ElementToHtml(config, e, old(Snapshot()), header)
      decreases e, 1
    {
      var children := ConvertElements(e.children, header);
      nodes := [Fresh("tr", map[], [ForceWrite] + children)];
    }

    method CellHtml(e: Element, header: bool) returns (nodes: seq<HtmlNode>)
      requires e.TableCell?
      modifies this, counter
      ensures Out(nodes, Snapshot()) == Conversion.ElementToHtml(config, e, old(Snapshot()), header)
      decreases e, 1
    {
      var tag := CellTag(header);
      var children := ConvertElements(e.children, header);
      nodes := [Fresh(tag, CellAttributes(e.colSpan, e.rowSpan), [ForceWrite] + children)];
    }

    method BreakHtml(e: Element) returns (nodes: seq<HtmlNode>)
      requires e.Break?
      ensures Out(nodes, Snapshot()) == Conversion.BreakHtml(config, e, Snapshot())
    {
      var path := BreakPath(config, e);
      nodes := if path.Ignore? then [] else Nest(path.elements, []);
    }

    method CommentHtml(rc: ReferencedComment) returns (nodes: seq<HtmlNode>)
      modifies this, counter
      ensures Out(nodes, Snapshot()) == Conversion.CommentHtml(config, rc, old(Snapshot()))
    {
      var body := ConvertElements(rc.comment.body, false);
      var backLink := BackLink(ReferenceId(config.idPrefix, "comment", rc.comment.commentId));
      nodes := [CommentTitle(config, rc), Fresh("dd", map[], body + [backLink])];
    }

    method ConvertComments(rcs: seq<ReferencedComment>) returns (nodes: seq<HtmlNode>)
      modifies this, counter
      ensures Out(nodes, Snapshot()) == Conversion.ConvertComments(config, rcs, old(Snapshot()))
    {
      nodes := [];
      var i := 0;
      while i < |rcs| && !failed
        invariant 0 <= i <= |rcs|
        invariant Conversion.ConvertComments(config, rcs, old(Snapshot()))
          == Out(nodes + Conversion.ConvertComments(config, rcs[i..], Snapshot()).nodes,
                 Conversion.ConvertComments(config, rcs[i..], Snapshot()).state)
        decreases |rcs| - i
      {
        assert rcs[i..][0] == rcs[i] && rcs[i..][1..] == rcs[i + 1..];
        var more := CommentHtml(rcs[i]);
        nodes := nodes + more;
        i := i + 1;
      }
    }

    /** The document handler: the body, the notes of its note references, the referenced comments. */
    method DocumentHtml(d: Document) returns (nodes: seq<HtmlNode>)
      modifies this, counter
      ensures Out(nodes, Snapshot()) == Conversion.DocumentHtml(config, d, old(Snapshot()))
    {
      nodes := ConvertElements(d.children, false);
      if failed {
        return;
      }
      var notes := ResolveNotes(IndexBy(d.notes, NoteKey), noteReferences);
      if notes.None? {
        failed := true;
        return;
      }
      var notesNodes := ConvertElements(notes.value, false);
      var commentNodes := ConvertComments(referencedComments);
      nodes := nodes + [Fresh("ol", map[], notesNodes), Fresh("dl", map[], commentNodes)];
    }

    /**
     * convertToHtml: the document's HTML, then its deferred nodes found by walkHtml and resolved,
     * then replaced.
     */
    method ConvertToHtml(d: Document, convert: ImageConverter) returns (r: Option<Converted>)
      modifies this, counter
      ensures (r, Snapshot()) == ConvertFrom(config, d, old(Snapshot()), convert)
    {
      var html := DocumentHtml(d);
      if failed {
        return None;
      }
      var found := WalkHtml(html);
      var values, failures := ResolveDeferred(found, convert);
      messages := messages + failures;
      r := Some(Converted(Replace(html, values), messages));
    }
  }

  /**
   * The deferred nodes resolved one after the other: each image's HTML under its id; an image
   * whose conversion fails gives a message and resolves to nothing.
   */
  method ResolveDeferred(found: seq<HtmlNode>, convert: ImageConverter)
    returns (values: map<nat, seq<HtmlNode>>, failures: seq<Message>)
    ensures (values, failures) == Resolved(found, convert)
  {
    values, failures := map[], [];
    for i := 0 to |found|
      invariant (values, failures) == Resolved(found[..i], convert)
    {
      ghost var prefix := found[..i + 1];
      assert prefix[..|prefix| - 1] == found[..i] && prefix[|prefix| - 1] == found[i];
      var node := found[i];
      if node.Deferred? {
        var converted := convert(node.image);
        if converted.Some? {
          assert failures + [] == failures;
          values := values[node.id := converted.value];
        } else {
          failures := failures + [ImageFailed(node.image)];
          values := values[node.id := []];
        }
      }
    }
    assert found[..|found|] == found;
  }

  /** DocumentConverter(options).convertToHtml(document): a new conversion over the shared counter. */
  method Convert(options: Options, d: Document, counter: DeferredCounter, convert: ImageConverter) returns (r: Option<Converted>)
    modifies counter
    ensures (r, counter.next) == ConvertToHtml(options, d, old(counter.next), convert)
  {
    var conversion := new DocumentConversion(options, d, counter);
    r := conversion.ConvertToHtml(d, convert);
  }
}
