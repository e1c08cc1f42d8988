/**
 * The paragraph transform of the conversion script: a paragraph all of whose runs are set in a
 * monospace font becomes a paragraph of the "code" style. The runs of a paragraph are all its
 * descendant runs, found through the children of paragraphs, runs, hyperlinks and tables; the
 * order they are found in does not matter here, as every one of them is tested.
 */
module CodeParagraphs {
  import opened Wrappers
  import opened Strings
  import opened DocModel

  /** The monospace fonts, lower-case. */
  const MonospaceFonts: seq<string> := ["consolas", "courier", "courier new"]

  /** The element types whose children getDescendantsOfType walks into. */
  predicate HasChildren(e: Element) {
    e.Paragraph? || e.Run? || e.Hyperlink? || e.Table? || e.TableRow? || e.TableCell?
  }

  /** The properties of every run among es and below them. */
  function RunsIn(es: seq<Element>): seq<RunProps>
    decreases es
  {
    if es == [] then []
    else
      (if es[0].Run? then [es[0].run] else []) +
      (if HasChildren(es[0]) then RunsIn(es[0].children) else []) +
      RunsIn(es[1..])
  }

  /**
   * A run is monospace when it has a non-empty font whose lower-case form is in the list. The
   * lower-casing here is ASCII only; for the three names in the list this is exact, as no other
   * character lower-cases to a single ASCII letter of them.
   */
  predicate IsMonospace(r: RunProps) {
    Truthy(r.font) && ToLower(r.font.value) in MonospaceFonts
  }

  /** The runs.every(...) test, on a non-empty list. */
  predicate AllMonospace(runs: seq<RunProps>) {
    |runs| > 0 && forall k :: 0 <= k < |runs| ==> IsMonospace(runs[k])
  }

  /** transformParagraph: the paragraph with the code style when its runs all match, else as it is. */
  function TransformParagraph(p: Element): (r: Element)
    requires p.Paragraph?
    ensures r.Paragraph? && r.children == p.children
    ensures r == p.(paragraph := p.paragraph.(styleId := r.paragraph.styleId, styleName := r.paragraph.styleName))
    ensures AllMonospace(RunsIn(p.children)) ==> r.paragraph.styleId == Some("code") && r.paragraph.styleName == Some("Code")
    ensures !AllMonospace(RunsIn(p.children)) ==> r == p
  {
    if AllMonospace(RunsIn(p.children)) then
      p.(paragraph := p.paragraph.(styleId := Some("code"), styleName := Some("Code")))
    else p
  }

  /** A run anywhere among es, directly or inside an element with children, is one of the runs tested. */
  lemma {:induction false} RunFound(es: seq<Element>, k: nat)
    requires k < |es| && es[k].Run?
    ensures es[k].run in RunsIn(es)
    decreases k
  {
    if k > 0 {
      RunFound(es[1..], k - 1);
    }
  }

  lemma {:induction false} NestedRunFound(es: seq<Element>, k: nat, j: nat)
    requires k < |es| && HasChildren(es[k]) && j < |es[k].children| && es[k].children[j].Run?
    ensures es[k].children[j].run in RunsIn(es)
    decreases k
  {
    if k > 0 {
      NestedRunFound(es[1..], k - 1, j);
    } else {
      RunFound(es[0].children, j);
    }
  }

  /**
   * A run is reachable from es: it is one of them, or it is reachable from the children of one
   * of them that has children, at any depth.
   */
  predicate Reaches(es: seq<Element>, r: RunProps)
    decreases es
  {
    exists k :: 0 <= k < |es| &&
      ((es[k].Run? && es[k].run == r) || (HasChildren(es[k]) && Reaches(es[k].children, r)))
  }

  /** The runs tested are exactly the runs reachable through elements with children. */
  lemma {:induction false} RunsInReachable(es: seq<Element>, r: RunProps)
    ensures r in RunsIn(es) <==> Reaches(es, r)
    decreases es
  {
    if es != [] {
      var here := if es[0].Run? then [es[0].run] else [];
      var below := if HasChildren(es[0]) then RunsIn(es[0].children) else [];
      assert RunsIn(es) == here + below + RunsIn(es[1..]);
      if HasChildren(es[0]) {
        RunsInReachable(es[0].children, r);
      }
      RunsInReachable(es[1..], r);
      if Reaches(es[1..], r) {
        var k :| 0 <= k < |es[1..]| &&
          ((es[1..][k].Run? && es[1..][k].run == r) || (HasChildren(es[1..][k]) && Reaches(es[1..][k].children, r)));
        assert es[1..][k] == es[k + 1];
      }
      if Reaches(es, r) {
        var k :| 0 <= k < |es| &&
          ((es[k].Run? && es[k].run == r) || (HasChildren(es[k]) && Reaches(es[k].children, r)));
        if k > 0 {
          assert es[1..][k - 1] == es[k];
        }
      }
    }
  }

  /** A run without a font anywhere below the paragraph leaves it as it is. */
  lemma DeepFontlessRunUnchanged(p: Element, r: RunProps)
    requires p.Paragraph? && Reaches(p.children, r) && !Truthy(r.font)
    ensures TransformParagraph(p) == p
  {
    RunsInReachable(p.children, r);
  }

  /** A paragraph without runs is returned as it is. */
  lemma NoRunsUnchanged(p: Element)
    requires p.Paragraph? && RunsIn(p.children) == []
    ensures TransformParagraph(p) == p
  {
  }

  /** One run without a font, directly in the paragraph, is enough to leave it as it is. */
  lemma FontlessRunUnchanged(p: Element, k: nat)
    requires p.Paragraph? && k < |p.children| && p.children[k].Run? && !Truthy(p.children[k].run.font)
    ensures TransformParagraph(p) == p
  {
    RunFound(p.children, k);
  }

  /** The same holds for a run inside a hyperlink or another element of the paragraph. */
  lemma NestedFontlessRunUnchanged(p: Element, k: nat, j: nat)
    requires p.Paragraph? && k < |p.children| && HasChildren(p.children[k])
    requires j < |p.children[k].children| && p.children[k].children[j].Run?
    requires !Truthy(p.children[k].children[j].run.font)
    ensures TransformParagraph(p) == p
  {
    NestedRunFound(p.children, k, j);
  }

  lemma {:induction false} ToLowerIdempotent(s: string)
    ensures ToLower(ToLower(s)) == ToLower(s)
    decreases |s|
  {
    if s != [] {
      ToLowerIdempotent(s[1..]);
      assert ToLower(s)[1..] == ToLower(s[1..]);
    }
  }

  /** The font comparison ignores case: a font matches exactly when its lower-case form does. */
  lemma CaseInsensitive(r: RunProps, font: string)
    requires r.font == Some(font)
    ensures IsMonospace(r) <==> IsMonospace(r.(font := Some(ToLower(font))))
  {
    ToLowerIdempotent(font);
  }

  /** "Courier New", as Word names the font, is monospace. */
  lemma CourierNew(r: RunProps)
    requires r.font == Some("Courier New")
    ensures IsMonospace(r)
  {
    assert ToLower("Courier New") == "courier new";
  }
}
