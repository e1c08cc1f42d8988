/**
 * The HTML document as a tree of values. Tag names are lower case (what `tagName.toLowerCase()`
 * gives); `display` is the value `window.getComputedStyle(element).display` would report for the
 * element, supplied with the tree instead of computed from CSS and layout.
 */
module Dom {
  import opened Wrappers
  import opened Strings

  datatype Node =
    | Text(text: string)
    | Element(tag: string, display: string, attrs: map<string, string>, children: seq<Node>)
    /** Any other node kind (a comment, say): neither text nor element. */
    | Comment(data: string)

  /** getAttribute: None when the attribute is absent. */
  function Attr(n: Node, name: string): (r: Option<string>)
    ensures r.Some? <==> n.Element? && name in n.attrs
  {
    if n.Element? && name in n.attrs then Some(n.attrs[name]) else None
  }

  predicate IsTag(n: Node, tag: string) {
    n.Element? && n.tag == tag
  }

  /** The block elements under which no node is orphaned, and which the top level selects. */
  const ValidParents: set<string> :=
    {"p", "pre", "div", "table", "h1", "h2", "h3", "h4", "h5", "h6", "ul", "ol", "figure", "figcaption"}

  /** The tags that are inline whatever their computed display. */
  const InlineTags: set<string> :=
    {"a", "abbr", "acronym", "b", "bdo", "big", "br", "button", "cite", "code",
     "dfn", "em", "i", "img", "input", "kbd", "label", "map", "object", "q",
     "samp", "script", "select", "small", "span", "strong", "sub", "sup",
     "textarea", "time", "tt", "var"}

  /** isInlineElement: text is inline, other non-elements are not, an element by tag or by display. */
  predicate IsInline(n: Node) {
    match n
    case Text(_) => true
    case Comment(_) => false
    case Element(tag, display, _, _) => tag in InlineTags || Contains(display, "inline")
  }

  /** An element that is not inline: the pass descends into these. */
  predicate IsBlock(n: Node) {
    n.Element? && !IsInline(n)
  }

  /** isWhitespaceOnly: the text matches /^\s*$/. */
  predicate WhitespaceOnly(text: string) {
    forall k :: 0 <= k < |text| ==> IsSpace(text[k])
  }

  /** What makes a group worth wrapping: an element, or text with something other than whitespace. */
  predicate Significant(n: Node) {
    n.Element? || (n.Text? && !WhitespaceOnly(n.text))
  }

  predicate HasSignificant(group: seq<Node>) {
    exists k :: 0 <= k < |group| && Significant(group[k])
  }

  /** The `<p>` created by `document.createElement('p')` to hold nodes; its computed display is block. */
  function NewParagraph(children: seq<Node>): (p: Node)
    ensures p.Element? && p.tag == "p" && p.children == children && !IsInline(p)
  {
    assert !Contains("block", "inline") by {
      NotContainsFirst("block", "inline");
    }
    Element("p", "block", map[], children)
  }
}
