/**
 * What the conversion promises, proved over every handler at once: the state only grows (note
 * references, referenced comments and messages are appended to, the note number stays one past
 * the number of note references, a thrown exception is never forgotten), and the deferred ids of
 * the HTML produced are consecutive, in walk order, from the counter's value before to its value
 * after. From these follow the numbering of notes and comments, the listing of notes and comments
 * at the end of the document, and that each image is replaced by its own conversion.
 */
module ConversionProps {
  import opened Wrappers
  import opened Strings
  import opened DocModel
  import opened HtmlTree
  import opened HtmlStyles
  import opened Conversion

  // ---- ids in walk order ----

  /** The integers from lo up to, and not including, hi. */
  function Range(lo: nat, hi: nat): (r: seq<nat>)
    requires lo <= hi
    ensures |r| == hi - lo && forall k :: 0 <= k < |r| ==> r[k] == lo + k
    decreases hi - lo
  {
    if lo == hi then [] else [lo] + Range(lo + 1, hi)
  }

  lemma {:induction false} IdsAppend(a: seq<HtmlNode>, b: seq<HtmlNode>)
    ensures Ids(a + b) == Ids(a) + Ids(b)
    decreases |a|
  {
    if a == [] {
      assert a + b == b;
    } else {
      assert (a + b)[0] == a[0];
      assert (a + b)[1..] == a[1..] + b;
      IdsAppend(a[1..], b);
    }
  }

  /** The deferred ids of a + b are those of a followed by those of b. */
  lemma WalkIdsAppend(a: seq<HtmlNode>, b: seq<HtmlNode>)
    ensures Ids(DeferredIn(a + b)) == Ids(DeferredIn(a)) + Ids(DeferredIn(b))
  {
    DeferredInAppend(a, b);
    IdsAppend(DeferredIn(a), DeferredIn(b));
  }

  lemma WalkIdsElement(tag: string, attributes: map<string, string>, children: seq<HtmlNode>, isFresh: bool)
    ensures DeferredIn([HElement(tag, attributes, children, isFresh)]) == DeferredIn(children)
  {
    var n := [HElement(tag, attributes, children, isFresh)];
    assert DeferredIn(n) == [] + DeferredIn(children) + DeferredIn([]);
  }

  lemma WalkIdsMarked(nodes: seq<HtmlNode>)
    ensures DeferredIn([ForceWrite] + nodes) == DeferredIn(nodes)
  {
    DeferredInAppend([ForceWrite], nodes);
  }

  lemma WalkIdsBackLink(id: string)
    ensures DeferredIn([BackLink(id)]) == []
  {
    var a := Fresh("a", map["href" := "#" + id], [HText("↑")]);
    WalkIdsElement("a", map["href" := "#" + id], [HText("↑")], true);
    assert DeferredIn([HText(" "), a]) == [] + [] + DeferredIn([a]);
    WalkIdsElement("p", map[], [HText(" "), a], false);
  }

  // ---- the state only grows ----

  /** t is a state the conversion can reach from s. */
  predicate Follows(s: State, t: State) {
    s.noteReferences <= t.noteReferences && s.referencedComments <= t.referencedComments &&
    s.messages <= t.messages && s.nextDeferred <= t.nextDeferred &&
    t.noteNumber - |t.noteReferences| == s.noteNumber - |s.noteReferences| &&
    (s.failed ==> t.failed)
  }

  /** o was produced from s: its state follows s and its deferred ids are the ones it drew, in order. */
  predicate Emits(s: State, o: Out) {
    Follows(s, o.state) && Ids(DeferredIn(o.nodes)) == Range(s.nextDeferred, o.state.nextDeferred)
  }

  lemma PrefixTrans<T>(a: seq<T>, b: seq<T>, c: seq<T>)
    requires a <= b && b <= c
    ensures a <= c
  {
    assert c[..|a|] == c[..|b|][..|a|];
  }

  lemma FollowsTrans(a: State, b: State, c: State)
    requires Follows(a, b) && Follows(b, c)
    ensures Follows(a, c)
  {
    PrefixTrans(a.noteReferences, b.noteReferences, c.noteReferences);
    PrefixTrans(a.referencedComments, b.referencedComments, c.referencedComments);
    PrefixTrans(a.messages, b.messages, c.messages);
  }

  lemma Chain(s: State, first: Out, rest: Out)
    requires Emits(s, first) && Emits(first.state, rest)
    ensures Emits(s, Out(first.nodes + rest.nodes, rest.state))
  {
    FollowsTrans(s, first.state, rest.state);
    WalkIdsAppend(first.nodes, rest.nodes);
    assert Range(s.nextDeferred, first.state.nextDeferred) + Range(first.state.nextDeferred, rest.state.nextDeferred)
      == Range(s.nextDeferred, rest.state.nextDeferred);
  }

  lemma Wrapped(s: State, inner: Out, es: seq<PathElement>)
    requires Emits(s, inner)
    ensures Emits(s, Out(Nest(es, inner.nodes), inner.state))
  {
    NestDeferred(es, inner.nodes);
  }

  lemma InFresh(s: State, inner: Out, tag: string, attributes: map<string, string>)
    requires Emits(s, inner)
    ensures Emits(s, Out([Fresh(tag, attributes, [ForceWrite] + inner.nodes)], inner.state))
  {
    WalkIdsElement(tag, attributes, [ForceWrite] + inner.nodes, true);
    WalkIdsMarked(inner.nodes);
  }

  lemma Appended(s: State, warnings: seq<Message>)
    ensures Follows(s, s.(messages := s.messages + warnings))
  {
  }

  lemma {:induction false} ElementsEmit(c: Config, es: seq<Element>, s: State, header: bool)
    ensures Emits(s, ConvertElements(c, es, s, header))
    decreases es, 3
  {
    if es != [] && !s.failed {
      var first := ElementToHtml(c, es[0], s, header);
      ElementEmits(c, es[0], s, header);
      ElementsEmit(c, es[1..], first.state, header);
      Chain(s, first, ConvertElements(c, es[1..], first.state, header));
    }
  }

  lemma {:induction false} ElementEmits(c: Config, e: Element, s: State, header: bool)
    ensures Emits(s, ElementToHtml(c, e, s, header))
    decreases e, 2
  {
    match e
    case Paragraph(_, _) => ParagraphEmits(c, e, s, header);
    case Run(_, _) => RunEmits(c, e, s, header);
    case Text(_) => LeafEmits(c, e, s, header);
    case Tab => LeafEmits(c, e, s, header);
    case Hyperlink(_, _, _, _) => HyperlinkEmits(c, e, s, header);
    case BookmarkStart(_) => LeafEmits(c, e, s, header);
    case NoteReference(_, _) => NoteReferenceEmits(c, e, s);
    case Note(_, _, _) => NoteEmits(c, e, s, header);
    case CommentReference(_) => CommentReferenceEmits(c, e, s);
    case Image(_) => LeafEmits(c, e, s, header);
    case Table(_, _) => TableEmits(c, e, s, header);
    case TableRow(_, _) => RowOrCellEmits(c, e, s, header);
    case TableCell(_, _, _) => RowOrCellEmits(c, e, s, header);
    case Break(_) => BreakEmits(c, e, s);
    case Unhandled(_) => LeafEmits(c, e, s, header);
  }

  /** Elements without children: text, a tab, a bookmark, an image, an element without a handler. */
  lemma LeafEmits(c: Config, e: Element, s: State, header: bool)
    requires e.Text? || e.Tab? || e.BookmarkStart? || e.Image? || e.Unhandled?
    ensures Emits(s, ElementToHtml(c, e, s, header))
  {
    if e.BookmarkStart? {
      WalkIdsElement("a", map["id" := HtmlId(c.idPrefix, e.name)], [ForceWrite], true);
    }
  }

  lemma {:induction false} HyperlinkEmits(c: Config, e: Element, s: State, header: bool)
    requires e.Hyperlink?
    ensures Emits(s, HyperlinkHtml(c, e, s, header))
    decreases e, 1
  {
    var inner := ConvertElements(c, e.children, s, header);
    ElementsEmit(c, e.children, s, header);
    WalkIdsElement("a", HyperlinkAttributes(c, e), inner.nodes, false);
  }

  lemma NoteReferenceEmits(c: Config, e: Element, s: State)
    requires e.NoteReference?
    ensures Emits(s, NoteReferenceHtml(c, e, s))
  {
    var anchor := Fresh("a", map["href" := "#" + ReferentId(c.idPrefix, e.noteType, e.noteId),
                                 "id" := ReferenceId(c.idPrefix, e.noteType, e.noteId)],
                        [HText(NoteLabel(s.noteNumber))]);
    WalkIdsElement("sup", map[], [anchor], true);
    WalkIdsElement(anchor.tag, anchor.attributes, anchor.children, true);
  }

  lemma {:induction false} RowOrCellEmits(c: Config, e: Element, s: State, header: bool)
    requires e.TableRow? || e.TableCell?
    ensures Emits(s, ElementToHtml(c, e, s, header))
    decreases e, 1
  {
    ElementsEmit(c, e.children, s, header);
    var inner := ConvertElements(c, e.children, s, header);
    if e.TableRow? {
      InFresh(s, inner, "tr", map[]);
    } else {
      InFresh(s, inner, CellTag(header), CellAttributes(e.colSpan, e.rowSpan));
    }
  }

  lemma BreakEmits(c: Config, e: Element, s: State)
    requires e.Break?
    ensures Emits(s, BreakHtml(c, e, s))
  {
    if BreakPath(c, e).Elements? {
      Wrapped(s, Out([], s), BreakPath(c, e).elements);
    }
  }

  lemma {:induction false} ParagraphEmits(c: Config, e: Element, s: State, header: bool)
    requires e.Paragraph?
    ensures Emits(s, ParagraphHtml(c, e, s, header))
    decreases e, 1
  {
    match ParagraphPath(c.styleMap, e)
    case Throws =>
    case Chosen(elements, warnings) =>
      var s1 := s.(messages := s.messages + warnings);
      var inner := ConvertElements(c, e.children, s1, header);
      ElementsEmit(c, e.children, s1, header);
      FollowsTrans(s, s1, inner.state);
      var content := if c.ignoreEmptyParagraphs then inner.nodes else [ForceWrite] + inner.nodes;
      WalkIdsMarked(inner.nodes);
      Wrapped(s, Out(content, inner.state), elements);
  }

  lemma {:induction false} RunEmits(c: Config, e: Element, s: State, header: bool)
    requires e.Run?
    ensures Emits(s, RunHtml(c, e, s, header))
    decreases e, 1
  {
    var s1 := s.(messages := s.messages + RunWarnings(c.styleMap, e));
    match RunStylePath(c.styleMap, e)
    case Ignore =>
    case Elements(stylePath) =>
      ElementsEmit(c, e.children, s1, header);
      var inner := ConvertElements(c, e.children, s1, header);
      FollowsTrans(s, s1, inner.state);
      Wrapped(s, inner, RunPaths(stylePath, e.run));
  }

  lemma {:induction false} NoteEmits(c: Config, e: Element, s: State, header: bool)
    requires e.Note?
    ensures Emits(s, NoteHtml(c, e, s, header))
    decreases e, 1
  {
    var inner := ConvertElements(c, e.body, s, header);
    ElementsEmit(c, e.body, s, header);
    var back := BackLink(ReferenceId(c.idPrefix, e.noteType, e.noteId));
    WalkIdsBackLink(ReferenceId(c.idPrefix, e.noteType, e.noteId));
    WalkIdsAppend(inner.nodes, [back]);
    WalkIdsElement("li", map["id" := ReferentId(c.idPrefix, e.noteType, e.noteId)], inner.nodes + [back], true);
  }

  lemma CommentReferenceEmits(c: Config, e: Element, s: State)
    requires e.CommentReference?
    ensures Emits(s, CommentReferenceHtml(c, e, s))
  {
    match PathOr(c.styleMap, e, Ignore)
    case Ignore =>
    case Elements(elements) =>
      if e.commentId in c.comments {
        var comment := c.comments[e.commentId];
        var text := CommentLabel(comment, |s.referencedComments| + 1);
        var attributes := map["href" := "#" + ReferentId(c.idPrefix, "comment", e.commentId),
                              "id" := ReferenceId(c.idPrefix, "comment", e.commentId)];
        WalkIdsElement("a", attributes, [HText(text)], true);
        var s1 := s.(referencedComments := s.referencedComments + [ReferencedComment(text, comment)]);
        Wrapped(s, Out([Fresh("a", attributes, [HText(text)])], s1), elements);
      }
  }

  lemma {:induction false} TableEmits(c: Config, e: Element, s: State, header: bool)
    requires e.Table?
    ensures Emits(s, TableHtml(c, e, s, header))
    decreases e, 1
  {
    match PathOr(c.styleMap, e, DefaultTablePath)
    case Ignore =>
    case Elements(elements) =>
      TableChildrenEmit(c, e, s);
      Wrapped(s, TableChildren(c, e, s), elements);
  }

  lemma {:induction false} TableChildrenEmit(c: Config, e: Element, s: State)
    requires e.Table?
    ensures Emits(s, TableChildren(c, e, s))
    decreases e, 0
  {
    var bodyIndex := BodyIndex(e.children);
    if bodyIndex == 0 {
      ElementsEmit(c, e.children, s, false);
      WalkIdsMarked(ConvertElements(c, e.children, s, false).nodes);
    } else {
      var headRows := e.children[..bodyIndex];
      assert bodyIndex == |e.children| ==> headRows == e.children;
      var head := ConvertElements(c, headRows, s, true);
      var body := ConvertElements(c, e.children[bodyIndex..], head.state, false);
      ElementsEmit(c, headRows, s, true);
      ElementsEmit(c, e.children[bodyIndex..], head.state, false);
      var thead := Fresh("thead", map[], head.nodes);
      var tbody := Fresh("tbody", map[], body.nodes);
      WalkIdsElement("thead", map[], head.nodes, true);
      WalkIdsElement("tbody", map[], body.nodes, true);
      Chain(s, Out([thead], head.state), Out([tbody], body.state));
      WalkIdsMarked([thead] + [tbody]);
      assert [ForceWrite] + ([thead] + [tbody]) == [ForceWrite, thead, tbody];
    }
  }

  lemma CommentEmits(c: Config, rc: ReferencedComment, s: State)
    ensures Emits(s, CommentHtml(c, rc, s))
  {
    var body := ConvertElements(c, rc.comment.body, s, false);
    ElementsEmit(c, rc.comment.body, s, false);
    var id := rc.comment.commentId;
    var back := BackLink(ReferenceId(c.idPrefix, "comment", id));
    var dt := CommentTitle(c, rc);
    WalkIdsElement("dt", dt.attributes, dt.children, true);
    WalkIdsBackLink(ReferenceId(c.idPrefix, "comment", id));
    WalkIdsAppend(body.nodes, [back]);
    WalkIdsElement("dd", map[], body.nodes + [back], true);
    WalkIdsAppend([dt], [Fresh("dd", map[], body.nodes + [back])]);
  }

  lemma {:induction false} CommentsEmit(c: Config, rcs: seq<ReferencedComment>, s: State)
    ensures Emits(s, ConvertComments(c, rcs, s))
    decreases |rcs|
  {
    if rcs != [] && !s.failed {
      var first := CommentHtml(c, rcs[0], s);
      CommentEmits(c, rcs[0], s);
      CommentsEmit(c, rcs[1..], first.state);
      Chain(s, first, ConvertComments(c, rcs[1..], first.state));
    }
  }

  /** The whole document: its state follows the initial one and its images are numbered in walk order. */
  lemma DocumentEmits(c: Config, d: Document, s: State)
    ensures Emits(s, DocumentHtml(c, d, s))
  {
    var body := ConvertElements(c, d.children, s, false);
    ElementsEmit(c, d.children, s, false);
    if !body.state.failed {
      match ResolveNotes(IndexBy(d.notes, NoteKey), body.state.noteReferences)
      case None =>
      case Some(notes) =>
        var notesOut := ConvertElements(c, notes, body.state, false);
        var comments := ConvertComments(c, notesOut.state.referencedComments, notesOut.state);
        ElementsEmit(c, notes, body.state, false);
        CommentsEmit(c, notesOut.state.referencedComments, notesOut.state);
        var ol := Fresh("ol", map[], notesOut.nodes);
        var dl := Fresh("dl", map[], comments.nodes);
        WalkIdsElement("ol", map[], notesOut.nodes, true);
        WalkIdsElement("dl", map[], comments.nodes, true);
        Chain(body.state, Out([ol], notesOut.state), Out([dl], comments.state));
        Chain(s, body, Out([ol] + [dl], comments.state));
        assert body.nodes + ([ol] + [dl]) == body.nodes + [ol, dl];
    }
  }

  // ---- note and comment numbering ----

  /** The note number is one past the number of note references met. */
  predicate Numbered(s: State) {
    s.noteNumber == |s.noteReferences| + 1
  }

  /** It is so when a conversion starts, and stays so through the whole document. */
  lemma DocumentNumbered(c: Config, d: Document, nextDeferred: nat)
    ensures Numbered(Initial(nextDeferred))
    ensures Numbered(DocumentHtml(c, d, Initial(nextDeferred)).state)
  {
    DocumentEmits(c, d, Initial(nextDeferred));
  }

  /** The label inside a one-element sup > a > text. */
  function SupLabel(ns: seq<HtmlNode>): Option<string> {
    if |ns| == 1 && ns[0].HElement? && ns[0].tag == "sup" && |ns[0].children| == 1
       && ns[0].children[0].HElement? && ns[0].children[0].tag == "a"
       && ns[0].children[0].children != [] && ns[0].children[0].children[0].HText?
    then Some(ns[0].children[0].children[0].value)
    else None
  }

  /** The k-th note reference met becomes the k-th remembered one and is labelled "[k]". */
  lemma NoteReferenceNumbered(c: Config, e: Element, s: State, header: bool)
    requires e.NoteReference? && Numbered(s)
    ensures var o := ElementToHtml(c, e, s, header);
      o.state.noteReferences == s.noteReferences + [e] && Numbered(o.state) &&
      SupLabel(o.nodes) == Some(NoteLabel(|o.state.noteReferences|))
  {
  }

  /** Every comment of the index is filed under its own id. */
  predicate CommentsById(c: Config) {
    forall id :: id in c.comments ==> c.comments[id].commentId == id
  }

  lemma {:induction false} IndexByKeys<K, V>(vs: seq<V>, key: V -> K)
    ensures forall k :: k in IndexBy(vs, key) <==> exists i :: 0 <= i < |vs| && key(vs[i]) == k
    ensures forall k :: k in IndexBy(vs, key) ==> key(IndexBy(vs, key)[k]) == k
    ensures forall k :: k in IndexBy(vs, key) ==> IndexBy(vs, key)[k] in vs
    decreases |vs|
  {
    if vs != [] {
      var init := vs[..|vs| - 1];
      IndexByKeys(init, key);
      forall k ensures k in IndexBy(vs, key) <==> exists i :: 0 <= i < |vs| && key(vs[i]) == k {
        if k in IndexBy(init, key) {
          var i :| 0 <= i < |init| && key(init[i]) == k;
          assert vs[i] == init[i];
        }
        if exists i :: 0 <= i < |vs| && key(vs[i]) == k {
          var i :| 0 <= i < |vs| && key(vs[i]) == k;
          if i < |init| {
            assert init[i] == vs[i];
          }
        }
      }
    }
  }

  /** indexBy keeps the last value for each key. */
  lemma {:induction false} IndexByLast<K, V>(vs: seq<V>, key: V -> K, i: nat)
    requires i < |vs|
    requires forall j :: i < j < |vs| ==> key(vs[j]) != key(vs[i])
    ensures key(vs[i]) in IndexBy(vs, key) && IndexBy(vs, key)[key(vs[i])] == vs[i]
    decreases |vs|
  {
    if i < |vs| - 1 {
      var init := vs[..|vs| - 1];
      assert init[i] == vs[i];
      forall j | i < j < |init| ensures key(init[j]) != key(init[i]) {
        assert init[j] == vs[j];
      }
      IndexByLast(init, key, i);
    }
  }

  /** The comments a conversion looks up are the document's, by id. */
  lemma ConfigComments(options: Options, d: Document)
    ensures CommentsById(ConfigOf(options, d))
    ensures forall id :: id in ConfigOf(options, d).comments <==> exists i :: 0 <= i < |d.comments| && d.comments[i].commentId == id
  {
    IndexByKeys(d.comments, CommentKey);
  }

  /**
   * A comment reference without a style rule is dropped and changes nothing; with one, a missing
   * comment throws, and otherwise the k-th referenced comment is remembered with the label
   * "[" + initials + k + "]".
   */
  lemma CommentReferenceNumbered(c: Config, e: Element, s: State)
    requires e.CommentReference? && CommentsById(c)
    ensures var o := CommentReferenceHtml(c, e, s);
      PathOr(c.styleMap, e, Ignore).Ignore? ==> o == Out([], s)
    ensures var o := CommentReferenceHtml(c, e, s);
      PathOr(c.styleMap, e, Ignore).Elements? && e.commentId !in c.comments ==> o.state.failed
    ensures var o := CommentReferenceHtml(c, e, s); var n := |o.state.referencedComments|;
      PathOr(c.styleMap, e, Ignore).Elements? && e.commentId in c.comments ==>
        n == |s.referencedComments| + 1 && o.state.referencedComments[..n - 1] == s.referencedComments &&
        o.state.referencedComments[n - 1].comment.commentId == e.commentId &&
        o.state.referencedComments[n - 1].labelText == CommentLabel(o.state.referencedComments[n - 1].comment, n)
  {
  }

  // ---- tables ----

  /**
   * convertTableChildren: thead and tbody appear exactly when the first row is a header row; the
   * thead holds the leading header rows, converted as header rows, and the tbody the rest, which
   * is empty when every row is a header row. The output always starts with a force-write marker.
   */
  lemma TableSplit(c: Config, e: Element, s: State)
    requires e.Table?
    ensures BodyIndex(e.children) > 0 <==> |e.children| > 0 && IsHeaderRow(e.children[0])
    ensures var o := TableChildren(c, e, s); |o.nodes| >= 1 && o.nodes[0] == ForceWrite
    ensures var o := TableChildren(c, e, s); var rows := ConvertElements(c, e.children, s, false);
      BodyIndex(e.children) == 0 ==> o.nodes == [ForceWrite] + rows.nodes
    ensures var o := TableChildren(c, e, s); var b := BodyIndex(e.children);
      b > 0 ==>
        |o.nodes| == 3 &&
        o.nodes[1] == Fresh("thead", map[], ConvertElements(c, e.children[..b], s, true).nodes) &&
        o.nodes[2].HElement? && o.nodes[2].tag == "tbody" &&
        (forall j :: 0 <= j < b ==> IsHeaderRow(e.children[j])) &&
        (b < |e.children| ==> !IsHeaderRow(e.children[b])) &&
        (b == |e.children| ==> o.nodes[2].children == [])
  {
  }

  /** A cell is a th exactly in a header row, with colspan and rowspan exactly when they are not 1. */
  lemma CellShape(c: Config, e: Element, s: State, header: bool)
    requires e.TableCell?
    ensures var o := ElementToHtml(c, e, s, header);
      |o.nodes| == 1 && o.nodes[0].HElement? && o.nodes[0].isFresh &&
      (o.nodes[0].tag == "th" <==> header) && (o.nodes[0].tag == "td" <==> !header) &&
      ("colspan" in o.nodes[0].attributes <==> e.colSpan != 1) &&
      ("rowspan" in o.nodes[0].attributes <==> e.rowSpan != 1) &&
      o.nodes[0].children[0] == ForceWrite
  {
  }

  // ---- the lists of notes and comments ----

  /** An ol with one li per reference, in order, each under the referent id of the referred note. */
  predicate NotesBlock(c: Config, ol: HtmlNode, refs: seq<Element>) {
    ol.HElement? && ol.tag == "ol" && |ol.children| == |refs| &&
    forall k :: 0 <= k < |refs| ==>
      ol.children[k].HElement? && ol.children[k].tag == "li" &&
      ol.children[k].attributes == map["id" := ReferentId(c.idPrefix, NoteKey(refs[k]).0, NoteKey(refs[k]).1)]
  }

  /** Nodes giving a dt and a dd for each referenced comment, in order. */
  predicate CommentEntries(c: Config, ns: seq<HtmlNode>, rcs: seq<ReferencedComment>) {
    |ns| == 2 * |rcs| &&
    forall k :: 0 <= k < |rcs| ==>
      ns[2 * k] == CommentTitle(c, rcs[k]) && ns[2 * k + 1].HElement? && ns[2 * k + 1].tag == "dd"
  }

  /** Converting notes gives one li per note, in order, each under the note's referent id. */
  lemma {:induction false} NotesListed(c: Config, notes: seq<Element>, s: State)
    requires forall k :: 0 <= k < |notes| ==> notes[k].Note?
    ensures !ConvertElements(c, notes, s, false).state.failed ==>
      NotesBlock(c, Fresh("ol", map[], ConvertElements(c, notes, s, false).nodes), notes)
    decreases |notes|
  {
    if notes != [] && !s.failed {
      var first := ElementToHtml(c, notes[0], s, false);
      assert first == NoteHtml(c, notes[0], s, false);
      var rest := ConvertElements(c, notes[1..], first.state, false);
      var o := ConvertElements(c, notes, s, false);
      assert o == Out(first.nodes + rest.nodes, rest.state);
      ElementsEmit(c, notes[1..], first.state, false);
      NotesListed(c, notes[1..], first.state);
      if !rest.state.failed {
        forall k | 1 <= k < |notes|
          ensures o.nodes[k] == rest.nodes[k - 1] && notes[1..][k - 1] == notes[k]
        {
        }
      }
    }
  }

  /** Converting referenced comments gives a dt and a dd for each, in order. */
  lemma {:induction false} CommentsListed(c: Config, rcs: seq<ReferencedComment>, s: State)
    ensures !ConvertComments(c, rcs, s).state.failed ==> CommentEntries(c, ConvertComments(c, rcs, s).nodes, rcs)
    decreases |rcs|
  {
    if rcs != [] && !s.failed {
      var first := CommentHtml(c, rcs[0], s);
      var rest := ConvertComments(c, rcs[1..], first.state);
      CommentsListed(c, rcs[1..], first.state);
      if !rest.state.failed {
        assert ConvertComments(c, rcs, s).nodes == first.nodes + rest.nodes;
        EntriesCons(c, first.nodes, rest.nodes, rcs);
      }
    }
  }

  /** A dt and dd for the first comment, followed by the entries of the others, are the entries of all. */
  lemma EntriesCons(c: Config, first: seq<HtmlNode>, rest: seq<HtmlNode>, rcs: seq<ReferencedComment>)
    requires rcs != [] && |first| == 2 && first[0] == CommentTitle(c, rcs[0])
    requires first[1].HElement? && first[1].tag == "dd"
    requires CommentEntries(c, rest, rcs[1..])
    ensures CommentEntries(c, first + rest, rcs)
  {
    var ns := first + rest;
    forall k | 0 <= k < |rcs|
      ensures ns[2 * k] == CommentTitle(c, rcs[k])
      ensures ns[2 * k + 1].HElement? && ns[2 * k + 1].tag == "dd"
    {
      if k > 0 {
        assert rcs[1..][k - 1] == rcs[k];
        assert ns[2 * k] == rest[2 * (k - 1)];
        assert ns[2 * k + 1] == rest[2 * (k - 1) + 1];
      }
    }
  }

  /** The notes the document resolves are Note elements with the keys of the references, in order. */
  lemma ResolvedNotes(d: Document, refs: seq<Element>)
    requires forall k :: 0 <= k < |d.notes| ==> d.notes[k].Note?
    requires ResolveNotes(IndexBy(d.notes, NoteKey), refs).Some?
    ensures var notes := ResolveNotes(IndexBy(d.notes, NoteKey), refs).value;
      forall k :: 0 <= k < |notes| ==> notes[k].Note? && NoteKey(notes[k]) == NoteKey(refs[k])
  {
    IndexByKeys(d.notes, NoteKey);
  }

  /**
   * After the body comes an ol with one li per note reference of the body, in reference order,
   * each under the referent id of the note referred to.
   */
  lemma DocumentNotes(c: Config, d: Document, s: State)
    requires forall k :: 0 <= k < |d.notes| ==> d.notes[k].Note?
    ensures var body := ConvertElements(c, d.children, s, false); var o := DocumentHtml(c, d, s);
      !o.state.failed ==>
        |o.nodes| == |body.nodes| + 2 && o.nodes[..|body.nodes|] == body.nodes &&
        NotesBlock(c, o.nodes[|body.nodes|], body.state.noteReferences)
  {
    var body := ConvertElements(c, d.children, s, false);
    var o := DocumentHtml(c, d, s);
    if !o.state.failed {
      var refs := body.state.noteReferences;
      var notes := ResolveNotes(IndexBy(d.notes, NoteKey), refs).value;
      ResolvedNotes(d, refs);
      NotesListed(c, notes, body.state);
      var notesOut := ConvertElements(c, notes, body.state, false);
      CommentsEmit(c, notesOut.state.referencedComments, notesOut.state);
    }
  }

  /** The document ends with a dl listing, in order, the comments referenced so far, at least all those of the body. */
  lemma DocumentComments(c: Config, d: Document, s: State)
    ensures var body := ConvertElements(c, d.children, s, false); var o := DocumentHtml(c, d, s);
      !o.state.failed ==>
        |o.nodes| >= 1 && o.nodes[|o.nodes| - 1].HElement? && o.nodes[|o.nodes| - 1].tag == "dl" &&
        |body.state.referencedComments| * 2 <= |o.nodes[|o.nodes| - 1].children| <= |o.state.referencedComments| * 2 &&
        CommentEntries(c, o.nodes[|o.nodes| - 1].children, o.state.referencedComments[..|o.nodes[|o.nodes| - 1].children| / 2])
  {
    var body := ConvertElements(c, d.children, s, false);
    var o := DocumentHtml(c, d, s);
    if !o.state.failed {
      var notes := ResolveNotes(IndexBy(d.notes, NoteKey), body.state.noteReferences).value;
      var notesOut := ConvertElements(c, notes, body.state, false);
      var listed := notesOut.state.referencedComments;
      var comments := ConvertComments(c, listed, notesOut.state);
      ElementsEmit(c, notes, body.state, false);
      CommentsEmit(c, listed, notesOut.state);
      CommentsListed(c, listed, notesOut.state);
      assert o.state.referencedComments[..|listed|] == listed;
    }
  }

  // ---- images ----

  lemma {:induction false} WalkFindsDeferred(ns: seq<HtmlNode>)
    ensures forall k :: 0 <= k < |DeferredIn(ns)| ==> DeferredIn(ns)[k].Deferred?
    decreases ns
  {
    if ns != [] {
      WalkFindsDeferred(ns[1..]);
      if ns[0].HElement? {
        WalkFindsDeferred(ns[0].children);
      }
    }
  }

  lemma {:induction false} IdsAt(ds: seq<HtmlNode>, k: nat)
    requires k < |ds| && ds[k].Deferred?
    ensures Ids(ds)[k] == ds[k].id
    decreases k
  {
    if k > 0 {
      IdsAt(ds[1..], k - 1);
    }
  }

  /** A deferred node whose id no later node shares gets its own image's value. */
  lemma {:induction false} ResolvedOwn(ds: seq<HtmlNode>, convert: ImageConverter, i: nat)
    requires i < |ds| && ds[i].Deferred?
    requires forall j :: i < j < |ds| && ds[j].Deferred? ==> ds[j].id != ds[i].id
    ensures ds[i].id in Resolved(ds, convert).0
    ensures Resolved(ds, convert).0[ds[i].id] == ImageValue(convert, ds[i].image)
    decreases |ds|
  {
    if i < |ds| - 1 {
      var init := ds[..|ds| - 1];
      assert init[i] == ds[i];
      forall j | i < j < |init| && init[j].Deferred? ensures init[j].id != init[i].id {
        assert init[j] == ds[j];
      }
      ResolvedOwn(init, convert, i);
    }
  }

  /**
   * The deferred nodes of a document's HTML carry distinct ids, so each is replaced by the
   * conversion of its own image.
   */
  lemma ImagesResolvedToOwn(c: Config, d: Document, s: State, convert: ImageConverter)
    ensures var ds := DeferredIn(DocumentHtml(c, d, s).nodes); var values := Resolved(ds, convert).0;
      forall k :: 0 <= k < |ds| ==>
        ds[k].Deferred? && ds[k].id in values && values[ds[k].id] == ImageValue(convert, ds[k].image)
  {
    var out := DocumentHtml(c, d, s);
    var ds := DeferredIn(out.nodes);
    DocumentEmits(c, d, s);
    WalkFindsDeferred(out.nodes);
    forall k | 0 <= k < |ds|
      ensures ds[k].id in Resolved(ds, convert).0 && Resolved(ds, convert).0[ds[k].id] == ImageValue(convert, ds[k].image)
    {
      forall j | k < j < |ds| && ds[j].Deferred? ensures ds[j].id != ds[k].id {
        IdsAt(ds, j);
        IdsAt(ds, k);
      }
      ResolvedOwn(ds, convert, k);
    }
  }

  // ---- a paragraph mapped to ignore ----

  /** The style map's first rule for e maps it to `ignore`. */
  predicate IgnoredBy(c: Config, e: Element) {
    FirstMatch(c.styleMap, e).Some? && c.styleMap[FirstMatch(c.styleMap, e).value].to.Ignore?
  }

  /**
   * As written, a style map that sends every paragraph to `ignore` fails the conversion of a
   * plain paragraph, and with it the conversion of the document body it is in.
   */
  lemma IgnoredParagraphFails()
    ensures var e := Paragraph(ParagraphProps(Some("Quote"), None, None, None, None, None, None, None), [Text("x")]);
            var c := Config("", true, [Rule((x: Element) => x.Paragraph?, Ignore)], map[]);
            IgnoredBy(c, e) && ParagraphHtml(c, e, Initial(1), false).state.failed &&
            ConvertElements(c, [e, Text("y")], Initial(1), false) == Out([], Initial(1).(failed := true))
  {
    var e := Paragraph(ParagraphProps(Some("Quote"), None, None, None, None, None, None, None), [Text("x")]);
    var c := Config("", true, [Rule((x: Element) => x.Paragraph?, Ignore)], map[]);
    assert FirstMatch(c.styleMap, e) == Some(0);
    assert ParagraphPath(c.styleMap, e) == Throws;
  }

  /**
   * The intended conversion drops a paragraph mapped to `ignore` and leaves the state exactly as
   * it was; any other paragraph converts as written. Either way the state only grows and the
   * deferred ids stay consecutive.
   */
  lemma IntendedParagraph(c: Config, e: Element, s: State, header: bool)
    requires e.Paragraph?
    ensures IgnoredBy(c, e) ==> IntendedParagraphHtml(c, e, s, header) == Out([], s)
    ensures !IgnoredBy(c, e) ==> IntendedParagraphHtml(c, e, s, header) == ParagraphHtml(c, e, s, header)
    ensures IgnoredBy(c, e) ==> ParagraphHtml(c, e, s, header).state.failed
    ensures Emits(s, IntendedParagraphHtml(c, e, s, header))
  {
    if !IgnoredBy(c, e) {
      ParagraphEmits(c, e, s, header);
    } else {
      assert Ids(DeferredIn([])) == [];
    }
  }
}
