/**
 * The parts of the HTML conversion that compute values without converting children: the
 * first-match style lookup, the CSS written for paragraphs and runs, colour formatting, the
 * anchor ids, the split of a table's rows into header and body, and the attributes of a cell.
 */
module HtmlStyles {
  import opened Wrappers
  import opened Strings
  import opened Units
  import opened DocModel
  import opened HtmlTree

  /** One entry of the style map: a matcher on document elements and the HTML path it maps to. */
  datatype Rule = Rule(from: Element -> bool, to: HtmlPath)

  /** A message of the conversion. */
  datatype Message =
    | UnrecognisedStyle(kind: string, styleId: string, styleName: Option<string>)
    /** The image converter failed on this image. */
    | ImageFailed(image: Element)

  // ---- findStyle ----

  /** The index of the first rule from index i on whose matcher accepts e. */
  function FirstMatchFrom(rules: seq<Rule>, e: Element, i: nat): (r: Option<nat>)
    requires i <= |rules|
    ensures r.Some? ==> i <= r.value < |rules| && rules[r.value].from(e)
    ensures r.Some? ==> forall j :: i <= j < r.value ==> !rules[j].from(e)
    ensures r.None? ==> forall j :: i <= j < |rules| ==> !rules[j].from(e)
    decreases |rules| - i
  {
    if i == |rules| then None
    else if rules[i].from(e) then Some(i)
    else FirstMatchFrom(rules, e, i + 1)
  }

  /** The index of the first rule that matches e, in style-map order; None when no rule does. */
  function FirstMatch(rules: seq<Rule>, e: Element): (r: Option<nat>)
    ensures r.Some? ==> r.value < |rules| && rules[r.value].from(e) && forall j :: 0 <= j < r.value ==> !rules[j].from(e)
    ensures r.None? ==> forall j :: 0 <= j < |rules| ==> !rules[j].from(e)
  {
    FirstMatchFrom(rules, e, 0)
  }

  /** findStyle: the index loop that returns the first matching rule (here, its index). */
  method FindStyle(rules: seq<Rule>, e: Element) returns (r: Option<nat>)
    ensures r == FirstMatch(rules, e)
  {
    for i := 0 to |rules|
      invariant FirstMatch(rules, e) == FirstMatchFrom(rules, e, i)
    {
      if rules[i].from(e) {
        return Some(i);
      }
    }
    return None;
  }

  /** The path of the first matching rule, or the given default. */
  function PathOr(rules: seq<Rule>, e: Element, default: HtmlPath): (r: HtmlPath)
    ensures FirstMatch(rules, e).None? ==> r == default
  {
    match FirstMatch(rules, e)
    case Some(i) => rules[i].to
    case None => default
  }

  // ---- formatColor ----

  /** formatColor: a '#' is put before 3 to 8 hexadecimal digits; anything else is returned as it is. */
  function FormatColor(c: string): (r: string)
    ensures r == c || r == "#" + c
    ensures r != c <==> 3 <= |c| <= 8 && IsHexText(c)
  {
    if 3 <= |c| <= 8 && IsHexText(c) then "#" + c else c
  }

  /** Formatting a colour twice is formatting it once: '#' is not a hexadecimal digit. */
  lemma FormatColorIdempotent(c: string)
    ensures FormatColor(FormatColor(c)) == FormatColor(c)
  {
    if 3 <= |c| <= 8 && IsHexText(c) {
      var r := "#" + c;
      assert !IsHexDigit(r[0]);
    }
  }

  // ---- paragraph CSS ----

  /** The value of an optional string, "" when absent. */
  function Value(o: Option<string>): string {
    if o.Some? then o.value else ""
  }

  function Declared(on: bool, text: string): seq<string> {
    if on then [text] else []
  }

  /** The padding-left entry: whole points, indent.start twips divided by 20 and floored, when it parses as an integer. */
  function PaddingEntry(indentStart: Option<string>): seq<string> {
    match ParseInt(Value(indentStart))
    case Some(n) => ["padding-left:" + IntToString(n / 20) + "pt"]
    case None => []
  }

  /** The CSS entries of a paragraph, in the order htmlPathForParagraph pushes them. */
  function ParagraphCss(p: ParagraphProps): seq<string> {
    Declared(Truthy(p.alignment), "text-align:" + Value(p.alignment)) +
    PaddingEntry(p.indentStart) +
    Declared(Truthy(p.topBorder), "border-top:" + Value(p.topBorder)) +
    Declared(Truthy(p.rightBorder), "border-right:" + Value(p.rightBorder)) +
    Declared(Truthy(p.bottomBorder), "border-bottom:" + Value(p.bottomBorder)) +
    Declared(Truthy(p.leftBorder), "border-left:" + Value(p.leftBorder))
  }

  predicate HasEntry(css: seq<string>, name: string) {
    exists k :: 0 <= k < |css| && StartsWith(css[k], name)
  }

  lemma HasEntryAppend(a: seq<string>, b: seq<string>, name: string)
    ensures HasEntry(a + b, name) <==> HasEntry(a, name) || HasEntry(b, name)
  {
    if HasEntry(a + b, name) {
      var k :| 0 <= k < |a + b| && StartsWith((a + b)[k], name);
      if k >= |a| {
        assert b[k - |a|] == (a + b)[k];
      }
    }
    if HasEntry(a, name) {
      var k :| 0 <= k < |a| && StartsWith(a[k], name);
      assert (a + b)[k] == a[k];
    }
    if HasEntry(b, name) {
      var k :| 0 <= k < |b| && StartsWith(b[k], name);
      assert (a + b)[|a| + k] == b[k];
    }
  }

  lemma StartsWithDiffers(s: string, name: string, other: string, rest: string)
    requires s == other + rest && |other| > 0 && |name| > 0 && other[0] != name[0]
    ensures !StartsWith(s, name)
  {
    assert s[0] == other[0];
  }

  /**
   * padding-left is written exactly when indent.start parses as an integer, and then as that
   * number of twips divided by 20 and floored, in points.
   */
  lemma PaddingLeftIff(p: ParagraphProps)
    ensures HasEntry(ParagraphCss(p), "padding-left:") <==> ParseInt(Value(p.indentStart)).Some?
    ensures ParseInt(Value(p.indentStart)).Some? ==>
      "padding-left:" + IntToString(ParseInt(Value(p.indentStart)).value / 20) + "pt" in ParagraphCss(p)
  {
    var name := "padding-left:";
    var align := Declared(Truthy(p.alignment), "text-align:" + Value(p.alignment));
    var pad := PaddingEntry(p.indentStart);
    var top := Declared(Truthy(p.topBorder), "border-top:" + Value(p.topBorder));
    var right := Declared(Truthy(p.rightBorder), "border-right:" + Value(p.rightBorder));
    var bottom := Declared(Truthy(p.bottomBorder), "border-bottom:" + Value(p.bottomBorder));
    var left := Declared(Truthy(p.leftBorder), "border-left:" + Value(p.leftBorder));
    assert ParagraphCss(p) == align + pad + top + right + bottom + left;
    assert HasEntry(ParagraphCss(p), name) <==> HasEntry(pad, name) by {
      DeclaredNotNamed(Truthy(p.alignment), "text-align:", Value(p.alignment), name);
      DeclaredNotNamed(Truthy(p.topBorder), "border-top:", Value(p.topBorder), name);
      DeclaredNotNamed(Truthy(p.rightBorder), "border-right:", Value(p.rightBorder), name);
      DeclaredNotNamed(Truthy(p.bottomBorder), "border-bottom:", Value(p.bottomBorder), name);
      DeclaredNotNamed(Truthy(p.leftBorder), "border-left:", Value(p.leftBorder), name);
      HasEntryAppend(align, pad, name);
      HasEntryAppend(align + pad, top, name);
      HasEntryAppend(align + pad + top, right, name);
      HasEntryAppend(align + pad + top + right, bottom, name);
      HasEntryAppend(align + pad + top + right + bottom, left, name);
    }
    PaddingEntryNamed(p.indentStart);
    if ParseInt(Value(p.indentStart)).Some? {
      assert ParagraphCss(p)[|align|] == pad[0];
    }
  }

  /** An entry whose prefix starts differently from name is not an entry of that name. */
  lemma DeclaredNotNamed(on: bool, prefix: string, value: string, name: string)
    requires |prefix| > 0 && |name| > 0 && prefix[0] != name[0]
    ensures !HasEntry(Declared(on, prefix + value), name)
  {
    if on {
      StartsWithDiffers(prefix + value, name, prefix, value);
    }
  }

  /** The padding entry is present exactly when the indent parses. */
  lemma PaddingEntryNamed(indentStart: Option<string>)
    ensures HasEntry(PaddingEntry(indentStart), "padding-left:") <==> ParseInt(Value(indentStart)).Some?
  {
    var pad := PaddingEntry(indentStart);
    if |pad| == 1 {
      assert pad[0] == "padding-left:" + (IntToString(ParseInt(Value(indentStart)).value / 20) + "pt");
      assert pad[0][..|"padding-left:"|] == "padding-left:";
    }
  }

  /** A paragraph without a parsable indent, alignment or borders gets an empty style attribute. */
  lemma PlainParagraphCss(p: ParagraphProps)
    requires !Truthy(p.alignment) && ParseInt(Value(p.indentStart)).None?
    requires !Truthy(p.topBorder) && !Truthy(p.rightBorder) && !Truthy(p.bottomBorder) && !Truthy(p.leftBorder)
    ensures Join(ParagraphCss(p), ";") == ""
  {
  }

  // ---- run CSS ----

  /** Math.floor(parseInt(n)) of a number: its decimal text read back as an integer, truncated toward zero. */
  function Truncate(r: real): int {
    if r >= 0.0 then r.Floor else -((-r).Floor)
  }

  function FontSizeEntry(size: Option<real>): seq<string> {
    if size.Some? && size.value != 0.0 then ["font-size: " + IntToString(Truncate(size.value)) + "pt"] else []
  }

  /** The CSS entries of a run's span, in the order convertRun pushes them. */
  function RunCss(r: RunProps): seq<string> {
    Declared(Truthy(r.color), "color: " + FormatColor(Value(r.color))) +
    Declared(Truthy(r.highlight), "background-color: " + FormatColor(Value(r.highlight))) +
    Declared(Truthy(r.shading), "background-color: " + FormatColor(Value(r.shading))) +
    Declared(Truthy(r.font), "font-family: " + Value(r.font)) +
    FontSizeEntry(r.fontSize) +
    Declared(r.isSmallCaps, "text-transform: capitalize") +
    Declared(r.isAllCaps, "text-transform: uppercase") +
    Declared(r.isStrikethrough, "text-decoration: line-through") +
    Declared(r.isUnderline, "text-decoration: underline") +
    Declared(r.isItalic, "font-style: italic") +
    Declared(r.isBold, "font-weight: bold")
  }

  /** The span every run is wrapped in; its style attribute is present even when empty. */
  function SpanElement(r: RunProps): PathElement {
    PathElement("span", map["style" := Join(RunCss(r), "; ")], false)
  }

  /** sub or sup for a subscript or superscript run. */
  function VerticalElements(r: RunProps): (es: seq<PathElement>)
    ensures |es| <= 1
  {
    if r.verticalAlignment == Subscript then [PathElement("sub", map[], false)]
    else if r.verticalAlignment == Superscript then [PathElement("sup", map[], false)]
    else []
  }

  /** Bold, italics and a hexadecimal colour are written as CSS, the colour with a '#'. */
  lemma RunCssBoldColor(r: RunProps, hex: string)
    requires r.color == Some(hex) && 3 <= |hex| <= 8 && IsHexText(hex)
    ensures "color: #" + hex in RunCss(r)
    ensures r.isBold ==> "font-weight: bold" in RunCss(r)
    ensures r.isItalic ==> "font-style: italic" in RunCss(r)
  {
    var color := Declared(Truthy(r.color), "color: " + FormatColor(Value(r.color)));
    var front := color +
      Declared(Truthy(r.highlight), "background-color: " + FormatColor(Value(r.highlight))) +
      Declared(Truthy(r.shading), "background-color: " + FormatColor(Value(r.shading))) +
      Declared(Truthy(r.font), "font-family: " + Value(r.font)) +
      FontSizeEntry(r.fontSize) +
      Declared(r.isSmallCaps, "text-transform: capitalize") +
      Declared(r.isAllCaps, "text-transform: uppercase") +
      Declared(r.isStrikethrough, "text-decoration: line-through") +
      Declared(r.isUnderline, "text-decoration: underline");
    var italic := Declared(r.isItalic, "font-style: italic");
    var bold := Declared(r.isBold, "font-weight: bold");
    assert RunCss(r) == front + italic + bold;
    assert color[0] == "color: " + FormatColor(hex);
    assert "color: " + ("#" + hex) == "color: #" + hex;
    assert (front + italic + bold)[0] == color[0];
    if r.isItalic {
      assert (front + italic + bold)[|front|] == "font-style: italic";
    }
    if r.isBold {
      assert (front + italic + bold)[|front + italic|] == "font-weight: bold";
    }
  }

  // ---- the warning and the paths of paragraphs and runs ----

  const HeadingTags: set<string> := {"h1", "h2", "h3", "h4", "h5", "h6"}

  /** The paragraph path: a mapped path, the default p with the paragraph's CSS, or an exception. */
  datatype PathChoice = Chosen(elements: seq<PathElement>, warnings: seq<Message>) | Throws

  function UnrecognisedParagraph(p: ParagraphProps): Message {
    UnrecognisedStyle("paragraph", Value(p.styleId), p.styleName)
  }

  /**
   * htmlPathForParagraph. A rule that maps to `ignore` has no `_elements`, so reading its first
   * element throws. A mapped path whose first element is a heading gets the paragraph's CSS as its
   * style attribute. Without a rule, a paragraph with a style id is warned about and becomes a p
   * carrying its CSS.
   */
  function ParagraphPath(rules: seq<Rule>, e: Element): (r: PathChoice)
    requires e.Paragraph?
    ensures r.Throws? <==> FirstMatch(rules, e).Some? && rules[FirstMatch(rules, e).value].to.Ignore?
    ensures r.Chosen? ==> |r.warnings| == (if FirstMatch(rules, e).None? && Truthy(e.paragraph.styleId) then 1 else 0)
    ensures r.Chosen? && FirstMatch(rules, e).None? ==>
      r.elements == [PathElement("p", map["style" := Join(ParagraphCss(e.paragraph), ";")], true)]
  {
    var css := Join(ParagraphCss(e.paragraph), ";");
    match FirstMatch(rules, e)
    case Some(i) =>
      var to := rules[i].to;
      if to.Ignore? then Throws
      else if |to.elements| > 0 && to.elements[0].tag in HeadingTags then
        var first := to.elements[0];
        Chosen([first.(attributes := first.attributes["style" := css])] + to.elements[1..], [])
      else Chosen(to.elements, [])
    case None =>
      Chosen([PathElement("p", map["style" := css], true)],
             if Truthy(e.paragraph.styleId) then [UnrecognisedParagraph(e.paragraph)] else [])
  }

  /** The style path of a run (empty without a rule) and the warning for an unmatched style id. */
  function RunStylePath(rules: seq<Rule>, e: Element): HtmlPath {
    PathOr(rules, e, EmptyPath)
  }

  function RunWarnings(rules: seq<Rule>, e: Element): (w: seq<Message>)
    requires e.Run?
    ensures |w| == (if FirstMatch(rules, e).None? && Truthy(e.run.styleId) then 1 else 0)
  {
    if FirstMatch(rules, e).None? && Truthy(e.run.styleId) then
      [UnrecognisedStyle("run", Value(e.run.styleId), e.run.styleName)]
    else []
  }

  // ---- ids ----

  function HtmlId(prefix: string, suffix: string): string {
    prefix + suffix
  }

  /** The id of the thing referred to: "type-id". */
  function ReferentId(prefix: string, kind: string, id: string): string {
    HtmlId(prefix, kind + "-" + id)
  }

  /** The id of a reference to it: "type-ref-id". */
  function ReferenceId(prefix: string, kind: string, id: string): string {
    HtmlId(prefix, kind + "-ref-" + id)
  }

  /** The href of a hyperlink: an anchor within the document when there is one, else the href. */
  function HyperlinkHref(prefix: string, anchor: Option<string>, href: string): (r: string)
    ensures Truthy(anchor) ==> |r| > 0 && r[0] == '#' && r[1..] == HtmlId(prefix, anchor.value)
    ensures !Truthy(anchor) ==> r == href
  {
    if Truthy(anchor) then "#" + HtmlId(prefix, anchor.value) else href
  }

  /** Different ids of one kind have different referent ids, and different reference ids. */
  lemma IdsInjective(prefix: string, kind: string, a: string, b: string)
    ensures ReferentId(prefix, kind, a) == ReferentId(prefix, kind, b) ==> a == b
    ensures ReferenceId(prefix, kind, a) == ReferenceId(prefix, kind, b) ==> a == b
  {
    var n := |prefix + kind + "-"|;
    assert ReferentId(prefix, kind, a)[n..] == a && ReferentId(prefix, kind, b)[n..] == b;
    var m := |prefix + kind + "-ref-"|;
    assert ReferenceId(prefix, kind, a)[m..] == a && ReferenceId(prefix, kind, b)[m..] == b;
  }

  /** A referent id equals a reference id exactly when the referent's id is "ref-" and the other's id. */
  lemma ReferentMeetsReference(prefix: string, kind: string, a: string, b: string)
    ensures ReferentId(prefix, kind, a) == ReferenceId(prefix, kind, b) <==> a == "ref-" + b
  {
    var n := |prefix + kind + "-"|;
    if ReferentId(prefix, kind, a) == ReferenceId(prefix, kind, b) {
      assert ReferentId(prefix, kind, a)[n..] == a;
      assert ReferenceId(prefix, kind, b)[n..] == "ref-" + b;
    }
    if a == "ref-" + b {
      assert prefix + (kind + "-" + ("ref-" + b)) == prefix + (kind + "-ref-" + b);
    }
  }

  // ---- tables ----

  predicate IsHeaderRow(e: Element) {
    e.TableRow? && e.isHeader
  }

  /** The index of the first child that is not a header row, or the number of children. */
  function BodyIndex(children: seq<Element>): (r: nat)
    ensures r <= |children|
    ensures forall j :: 0 <= j < r ==> IsHeaderRow(children[j])
    ensures r < |children| ==> !IsHeaderRow(children[r])
  {
    if children == [] || !IsHeaderRow(children[0]) then 0
    else 1 + BodyIndex(children[1..])
  }

  /** th in a header row, td elsewhere. */
  function CellTag(isTableHeader: bool): string {
    if isTableHeader then "th" else "td"
  }

  /** A cell's attributes: colspan and rowspan only when the span is not 1. */
  function CellAttributes(colSpan: nat, rowSpan: nat): (r: map<string, string>)
    ensures "colspan" in r <==> colSpan != 1
    ensures "rowspan" in r <==> rowSpan != 1
    ensures r.Keys <= {"colspan", "rowspan"}
  {
    var cols := if colSpan != 1 then map["colspan" := NatToString(colSpan)] else map[];
    if rowSpan != 1 then cols["rowspan" := NatToString(rowSpan)] else cols
  }

  /** The span attributes read back as the spans. */
  lemma CellSpansRead(colSpan: nat, rowSpan: nat)
    ensures colSpan != 1 ==> ParseInt(CellAttributes(colSpan, rowSpan)["colspan"]) == Some(colSpan)
    ensures rowSpan != 1 ==> ParseInt(CellAttributes(colSpan, rowSpan)["rowspan"]) == Some(rowSpan)
  {
    assert NatToString(colSpan) + [] == NatToString(colSpan);
    assert NatToString(rowSpan) + [] == NatToString(rowSpan);
    ParseIntNatToString(colSpan, []);
    ParseIntNatToString(rowSpan, []);
  }
}
