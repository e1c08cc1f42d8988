/**
 * build_child_nodes: the runs of a paragraph, list item or table cell. Text becomes a text run
 * carrying the inherited properties; a link with an href becomes a hyperlink whose runs inherit
 * only the Hyperlink character style; images and canvases become image runs; any other child is
 * descended into with its own style attribute and tag merged over the inherited properties,
 * except that nothing but text, links, images and canvases is taken from a `ul` or `ol`.
 *
 * The image data, the element's width/height properties and the natural size of its source come
 * from the browser and are parameters here.
 */
module RunBuilder {
  import opened Wrappers
  import opened Dom
  import opened Declarations
  import opened InlineStyle
  import opened Placement
  import opened ImageSizing

  /** What the browser reports: an image's width/height properties and natural size, and the same for a canvas snapshot. */
  datatype Browser = Browser(
    imageSize: Node -> Size, imageNatural: Node -> Size,
    snapshotSize: Node -> Size, snapshotNatural: Node -> Size)

  datatype Run =
    | TextRun(text: string, props: Style, underline: bool)
    | Hyperlink(link: string, children: seq<Run>)
    /** The transformation is None when the size inference divides by a zero natural dimension. */
    | ImageRun(transformation: Option<Size>, floating: Option<Floating>)

  /** The inherited properties a text run is built with (underline is passed separately). */
  const RunKeys: set<Key> :=
    {Prop(Bold), Prop(Italics), Other("subScript"), Other("superScript"), Prop(Strike), Prop(Color),
     Prop(Shading), Prop(Property.Size), Prop(AllCaps), Prop(Font), Other("style")}

  function RunProps(inherit: Style): (r: Style)
    ensures r.Keys == inherit.Keys * RunKeys
    ensures forall k :: k in r ==> r[k] == inherit[k]
  {
    map k | k in inherit && k in RunKeys :: inherit[k]
  }

  /** JavaScript truthiness of a dictionary value: null, "" and 0 are false, objects are true. */
  predicate Truthy(v: StyleValue) {
    match v
    case Null => false
    case Text(s) => s != ""
    case HalfPoints(n) => n != 0
    case _ => true
  }

  function TextRunOf(t: string, inherit: Style): Run {
    TextRun(t, RunProps(inherit), Truthy(Get(inherit, Prop(Underline))))
  }

  /** The only property the runs of a hyperlink start from. */
  const HyperlinkStyle: Style := map[Other("style") := StyleValue.Text("Hyperlink")]

  /** The parents whose element children (other than links, images and canvases) are skipped. */
  predicate ListParent(ptag: string) {
    ptag == "ul" || ptag == "ol"
  }

  /** An a element whose href is present and not empty. */
  predicate IsLink(c: Node) {
    IsTag(c, "a") && Attr(c, "href").Some? && Attr(c, "href").value != ""
  }

  /** The properties written for a tag over the merged style. */
  function FlagKeys(tag: string): set<Key> {
    if tag == "strong" then {Prop(Bold)}
    else if tag == "em" then {Prop(Italics)}
    else if tag == "sub" then {Other("subScript")}
    else if tag == "sup" then {Other("superScript")}
    else if tag == "s" then {Prop(Strike)}
    else if tag == "u" then {Prop(Underline)}
    else if tag == "a" then {Other("anchor"), Prop(Underline)}
    else {}
  }

  /** An a element's href as a dictionary value: the attribute's text, or null when it is absent. */
  function HrefValue(c: Node): StyleValue {
    match Attr(c, "href")
    case Some(h) => StyleValue.Text(h)
    case None => Null
  }

  /**
   * The style passed down to the children of c: its own parsed style spread over the inherited
   * one, then the property its tag implies.
   */
  function PassedDown(inherit: Style, own: Style, c: Node): (r: Style)
    requires c.Element?
    ensures r.Keys == inherit.Keys + own.Keys + FlagKeys(c.tag)
    ensures forall k :: k in own && k !in FlagKeys(c.tag) ==> r[k] == own[k]
    ensures forall k :: k in inherit && k !in own && k !in FlagKeys(c.tag) ==> r[k] == inherit[k]
    ensures c.tag == "a" ==> r[Other("anchor")] == HrefValue(c) && r[Prop(Underline)] == On
    ensures c.tag != "a" ==> forall k :: k in FlagKeys(c.tag) ==> r[k] == On
  {
    var merged := inherit + own;
    if c.tag == "strong" then merged[Prop(Bold) := On]
    else if c.tag == "em" then merged[Prop(Italics) := On]
    else if c.tag == "sub" then merged[Other("subScript") := On]
    else if c.tag == "sup" then merged[Other("superScript") := On]
    else if c.tag == "s" then merged[Prop(Strike) := On]
    else if c.tag == "u" then merged[Prop(Underline) := On]
    else if c.tag == "a" then merged[Other("anchor") := HrefValue(c)][Prop(Underline) := On]
    else merged
  }

  /** The run of an IMG: its size inferred and scaled down, and its floating from its own style. */
  function ImageRunOf(c: Node, env: Browser): Run {
    ImageRun(ImageTransformation(env.imageSize(c), env.imageNatural(c)), FloatingOf(DeclarationsOf(Attr(c, "style"))))
  }

  /**
   * The run of a CANVAS: its snapshot's size, or the natural size when the width is 0, scaled down.
   * The snapshot is a new image without a style attribute, so its floating is read from no declarations.
   */
  function SnapshotRunOf(c: Node, env: Browser): Run {
    var size := env.snapshotSize(c);
    ImageRun(Some(CanvasTransformation(Some(size.width), size.height, env.snapshotNatural(c))), FloatingOf(DeclarationsOf(None)))
  }

  /** v followed by the runs of o, or the exception o stands for. */
  function After(v: seq<Run>, o: Option<seq<Run>>): Option<seq<Run>> {
    if o.Some? then Some(v + o.value) else None
  }

  /**
   * The runs of the children cs of a parent tagged ptag, as written: None when the conversion
   * throws, which it does when parse_style is applied to a comment (a node without getAttribute).
   */
  function RunsAsWritten(ptag: string, cs: seq<Node>, inherit: Style, env: Browser): Option<seq<Run>>
    decreases cs, 1
  {
    if cs == [] then Some([])
    else
      match ChildAsWritten(ptag, cs[0], inherit, env)
      case None => None
      case Some(a) => After(a, RunsAsWritten(ptag, cs[1..], inherit, env))
  }

  /** One round of the loop of build_child_nodes, as written. */
  function ChildAsWritten(ptag: string, c: Node, inherit: Style, env: Browser): Option<seq<Run>>
    decreases c, 0
  {
    match c
    case Text(t) => Some([TextRunOf(t, inherit)])
    case Comment(_) => if ListParent(ptag) then Some([]) else None
    case Element(tag, _, _, children) =>
      if IsLink(c) then
        var inner := RunsAsWritten("a", children, HyperlinkStyle, env);
        if inner.Some? then Some([Hyperlink(Attr(c, "href").value, inner.value)]) else None
      else if tag == "img" then Some([ImageRunOf(c, env)])
      else if tag == "canvas" then Some([SnapshotRunOf(c, env)])
      else if ListParent(ptag) then Some([])
      else RunsAsWritten(tag, children, PassedDown(inherit, StyleOf(DeclarationsOf(Attr(c, "style"))), c), env)
  }

  /** The runs of the children cs of a parent tagged ptag, with comments skipped. */
  function Runs(ptag: string, cs: seq<Node>, inherit: Style, env: Browser): seq<Run>
    decreases cs, 1
  {
    if cs == [] then []
    else ChildRuns(ptag, cs[0], inherit, env) + Runs(ptag, cs[1..], inherit, env)
  }

  /** One round of the loop of build_child_nodes, with comments skipped. */
  function ChildRuns(ptag: string, c: Node, inherit: Style, env: Browser): seq<Run>
    decreases c, 0
  {
    match c
    case Text(t) => [TextRunOf(t, inherit)]
    case Comment(_) => []
    case Element(tag, _, _, children) =>
      if IsLink(c) then [Hyperlink(Attr(c, "href").value, Runs("a", children, HyperlinkStyle, env))]
      else if tag == "img" then [ImageRunOf(c, env)]
      else if tag == "canvas" then [SnapshotRunOf(c, env)]
      else if ListParent(ptag) then []
      else Runs(tag, children, PassedDown(inherit, StyleOf(DeclarationsOf(Attr(c, "style"))), c), env)
  }

  /** build_child_nodes over the children cs of a parent tagged ptag. */
  method BuildChildNodes(ptag: string, cs: seq<Node>, inherit: Style, env: Browser) returns (r: Option<seq<Run>>)
    ensures r == RunsAsWritten(ptag, cs, inherit, env)
    decreases cs, 1
  {
    var values: seq<Run> := [];
    assert cs[0..] == cs;
    assert RunsAsWritten(ptag, cs, inherit, env).Some? ==> [] + RunsAsWritten(ptag, cs, inherit, env).value == RunsAsWritten(ptag, cs, inherit, env).value;
    for i := 0 to |cs|
      invariant RunsAsWritten(ptag, cs, inherit, env) == After(values, RunsAsWritten(ptag, cs[i..], inherit, env))
    {
      var one := ConvertChild(ptag, cs[i], inherit, env);
      RunsStep(ptag, cs, i, inherit, env, values);
      if one.None? {
        return None;
      }
      values := values + one.value;
    }
    assert cs[|cs|..] == [];
    assert values + [] == values;
    r := Some(values);
  }

  lemma RunsStep(ptag: string, cs: seq<Node>, i: nat, inherit: Style, env: Browser, values: seq<Run>)
    requires i < |cs|
    ensures ChildAsWritten(ptag, cs[i], inherit, env).None? ==>
      After(values, RunsAsWritten(ptag, cs[i..], inherit, env)) == None
    ensures ChildAsWritten(ptag, cs[i], inherit, env).Some? ==>
      After(values, RunsAsWritten(ptag, cs[i..], inherit, env)) ==
      After(values + ChildAsWritten(ptag, cs[i], inherit, env).value, RunsAsWritten(ptag, cs[i + 1..], inherit, env))
  {
    assert cs[i..][0] == cs[i];
    assert cs[i..][1..] == cs[i + 1..];
    match ChildAsWritten(ptag, cs[i], inherit, env)
    case None =>
    case Some(a) =>
      var rest := RunsAsWritten(ptag, cs[i + 1..], inherit, env);
      if rest.Some? {
        assert values + (a + rest.value) == (values + a) + rest.value;
      }
  }

  /** One child of build_child_nodes. */
  method ConvertChild(ptag: string, c: Node, inherit: Style, env: Browser) returns (r: Option<seq<Run>>)
    ensures r == ChildAsWritten(ptag, c, inherit, env)
    decreases c, 0
  {
    match c {
      case Text(t) =>
        r := Some([TextRunOf(t, inherit)]);
      case Comment(_) =>
        r := if ListParent(ptag) then Some([]) else None;
      case Element(tag, _, _, children) =>
        if IsLink(c) {
          var inner := BuildChildNodes("a", children, HyperlinkStyle, env);
          r := if inner.Some? then Some([Hyperlink(Attr(c, "href").value, inner.value)]) else None;
        } else if tag == "img" {
          var floating := ParseImageFloating(Attr(c, "style"));
          r := Some([ImageRun(ImageTransformation(env.imageSize(c), env.imageNatural(c)), floating)]);
        } else if tag == "canvas" {
          var floating := ParseImageFloating(None);
          var size := env.snapshotSize(c);
          r := Some([ImageRun(Some(CanvasTransformation(Some(size.width), size.height, env.snapshotNatural(c))), floating)]);
        } else if ListParent(ptag) {
          r := Some([]);
        } else {
          var own := ParseStyle(Attr(c, "style"));
          r := BuildChildNodes(tag, children, PassedDown(inherit, own, c), env);
        }
    }
  }

  /** A tree without comments never makes the conversion throw. */
  predicate NoComments(cs: seq<Node>)
    decreases cs
  {
    forall k :: 0 <= k < |cs| ==> !cs[k].Comment? && (cs[k].Element? ==> NoComments(cs[k].children))
  }

  /** Whenever the conversion as written does not throw, it gives the runs with comments skipped. */
  lemma {:induction false} AsWrittenAgrees(ptag: string, cs: seq<Node>, inherit: Style, env: Browser)
    ensures RunsAsWritten(ptag, cs, inherit, env).Some? ==> RunsAsWritten(ptag, cs, inherit, env) == Some(Runs(ptag, cs, inherit, env))
    ensures NoComments(cs) ==> RunsAsWritten(ptag, cs, inherit, env).Some?
    decreases cs, 1
  {
    if cs != [] {
      ChildAgrees(ptag, cs[0], inherit, env);
      AsWrittenAgrees(ptag, cs[1..], inherit, env);
      if NoComments(cs) {
        assert NoComments(cs[1..]) by {
          forall k | 0 <= k < |cs[1..]| ensures !cs[1..][k].Comment? && (cs[1..][k].Element? ==> NoComments(cs[1..][k].children)) {
            assert cs[1..][k] == cs[k + 1];
          }
        }
      }
    }
  }

  lemma {:induction false} ChildAgrees(ptag: string, c: Node, inherit: Style, env: Browser)
    ensures ChildAsWritten(ptag, c, inherit, env).Some? ==> ChildAsWritten(ptag, c, inherit, env) == Some(ChildRuns(ptag, c, inherit, env))
    ensures (!c.Comment? && (c.Element? ==> NoComments(c.children))) ==> ChildAsWritten(ptag, c, inherit, env).Some?
    decreases c, 0
  {
    match c
    case Text(_) =>
    case Comment(_) =>
    case Element(tag, _, _, children) =>
      if IsLink(c) {
        AsWrittenAgrees("a", children, HyperlinkStyle, env);
      } else if tag != "img" && tag != "canvas" && !ListParent(ptag) {
        AsWrittenAgrees(tag, children, PassedDown(inherit, StyleOf(DeclarationsOf(Attr(c, "style"))), c), env);
      }
  }

  /** A comment inside a paragraph makes the conversion throw, where skipping it gives no runs. */
  lemma CommentInParagraphThrows(env: Browser)
    ensures RunsAsWritten("p", [Comment(" note ")], map[], env) == None
    ensures Runs("p", [Comment(" note ")], map[], env) == []
  {
  }

  /** The text of runs, hyperlinks flattened. */
  function RunsText(rs: seq<Run>): string
    decreases rs, 1
  {
    if rs == [] then "" else RunText(rs[0]) + RunsText(rs[1..])
  }

  function RunText(r: Run): string
    decreases r, 0
  {
    match r
    case TextRun(t, _, _) => t
    case Hyperlink(_, children) => RunsText(children)
    case ImageRun(_, _) => ""
  }

  /** The text content of nodes, comments contributing nothing. */
  function TextContent(cs: seq<Node>): string
    decreases cs, 1
  {
    if cs == [] then "" else NodeText(cs[0]) + TextContent(cs[1..])
  }

  function NodeText(c: Node): string
    decreases c, 0
  {
    match c
    case Text(t) => t
    case Element(_, _, _, children) => TextContent(children)
    case Comment(_) => ""
  }

  /** No list, image or canvas anywhere among the nodes. */
  predicate NoListsOrMedia(cs: seq<Node>)
    decreases cs
  {
    forall k :: 0 <= k < |cs| ==> cs[k].Element? ==>
      cs[k].tag !in {"ul", "ol", "img", "canvas"} && NoListsOrMedia(cs[k].children)
  }

  lemma {:induction false} RunsTextAppend(a: seq<Run>, b: seq<Run>)
    ensures RunsText(a + b) == RunsText(a) + RunsText(b)
    decreases |a|
  {
    if a == [] {
      assert a + b == b;
    } else {
      assert (a + b)[0] == a[0];
      assert (a + b)[1..] == a[1..] + b;
      RunsTextAppend(a[1..], b);
    }
  }

  /**
   * Outside lists, the runs carry exactly the text of the nodes, in document order: every text
   * node becomes one run, however deep, and nothing else contributes text.
   */
  lemma {:induction false} TextPreserved(ptag: string, cs: seq<Node>, inherit: Style, env: Browser)
    requires !ListParent(ptag) && NoListsOrMedia(cs)
    ensures RunsText(Runs(ptag, cs, inherit, env)) == TextContent(cs)
    decreases cs, 2
  {
    if cs != [] {
      assert NoListsOrMedia(cs[1..]) by {
        forall k | 0 <= k < |cs[1..]| ensures cs[1..][k] == cs[k + 1] { }
      }
      ChildTextPreserved(ptag, cs[0], inherit, env);
      TextPreserved(ptag, cs[1..], inherit, env);
      RunsTextAppend(ChildRuns(ptag, cs[0], inherit, env), Runs(ptag, cs[1..], inherit, env));
    }
  }

  lemma {:induction false} ChildTextPreserved(ptag: string, c: Node, inherit: Style, env: Browser)
    requires !ListParent(ptag) && NoListsOrMedia([c])
    ensures RunsText(ChildRuns(ptag, c, inherit, env)) == NodeText(c)
    decreases c, 1
  {
    assert [c][0] == c;
    match c
    case Text(t) =>
      assert RunsText([TextRunOf(t, inherit)]) == t + RunsText([]);
    case Comment(_) =>
    case Element(_, _, _, _) =>
      ElementTextPreserved(ptag, c, inherit, env);
  }

  lemma {:induction false} ElementTextPreserved(ptag: string, c: Node, inherit: Style, env: Browser)
    requires c.Element? && !ListParent(ptag)
    requires c.tag !in {"ul", "ol", "img", "canvas"} && NoListsOrMedia(c.children)
    ensures RunsText(ChildRuns(ptag, c, inherit, env)) == NodeText(c)
    decreases c, 0
  {
    if IsLink(c) {
      TextPreserved("a", c.children, HyperlinkStyle, env);
      var h := Hyperlink(Attr(c, "href").value, Runs("a", c.children, HyperlinkStyle, env));
      assert ChildRuns(ptag, c, inherit, env) == [h];
      assert RunsText([h]) == RunText(h) + RunsText([]);
    } else {
      var inner := PassedDown(inherit, StyleOf(DeclarationsOf(Attr(c, "style"))), c);
      assert ChildRuns(ptag, c, inherit, env) == Runs(c.tag, c.children, inner, env);
      TextPreserved(c.tag, c.children, inner, env);
    }
  }

  /** Under a ul or ol every child gives at most one run, and elements other than links and images give none. */
  lemma {:induction false} ListParentFlat(ptag: string, cs: seq<Node>, inherit: Style, env: Browser)
    requires ListParent(ptag)
    ensures |Runs(ptag, cs, inherit, env)| <= |cs|
    ensures (forall k :: 0 <= k < |cs| ==> cs[k].Element? && !IsLink(cs[k]) && cs[k].tag != "img" && cs[k].tag != "canvas") ==>
      Runs(ptag, cs, inherit, env) == []
    decreases |cs|
  {
    if cs != [] {
      ListParentFlat(ptag, cs[1..], inherit, env);
      if forall k :: 0 <= k < |cs| ==> cs[k].Element? && !IsLink(cs[k]) && cs[k].tag != "img" && cs[k].tag != "canvas" {
        assert forall k :: 0 <= k < |cs[1..]| ==> cs[1..][k] == cs[k + 1];
      }
    }
  }

  /** The runs of a link with an href do not depend on the properties inherited from outside it. */
  lemma HyperlinkIgnoresInheritance(ptag: string, c: Node, inherit: Style, other: Style, env: Browser)
    requires IsLink(c)
    ensures ChildRuns(ptag, c, inherit, env) == ChildRuns(ptag, c, other, env)
    ensures ChildRuns(ptag, c, inherit, env) == [Hyperlink(Attr(c, "href").value, Runs("a", c.children, HyperlinkStyle, env))]
  {
  }

  /** A canvas snapshot never floats and is at most MaxWidth wide. */
  lemma SnapshotInline(c: Node, env: Browser)
    ensures SnapshotRunOf(c, env).floating == None
    ensures SnapshotRunOf(c, env).transformation.Some? && SnapshotRunOf(c, env).transformation.value.width <= MaxWidth
  {
    assert DeclarationsOf(None) == map[];
  }
}
