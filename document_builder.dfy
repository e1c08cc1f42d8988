/**
 * html2docx: the orphan pass (unless strict), the choice of top-level blocks with its fallback,
 * and the dispatch of every chosen node to the builder for its tag. A list's paragraphs all carry
 * the list's index among the chosen nodes as their numbering instance.
 *
 * Serialising the body (innerHTML) and parsing the fallback markup (DOMParser) are browser
 * services and are parameters here; so are the contents of the blocks, which the paragraph,
 * heading and table builders make from the chosen node and its runs.
 */
module DocumentBuilder {
  import opened Wrappers
  import opened Dom
  import opened OrphanRepair
  import opened TopLevel
  import opened Lists

  /** The browser's serialiser and parser: innerHTML of a body, and the p elements of a parsed document. */
  datatype Parser = Parser(innerHtml: Node -> string, paragraphs: string -> seq<Node>)

  /** One block of the document body, built from a chosen node. */
  datatype Block =
    | Paragraph(node: Node)
    | Table(node: Node)
    | Heading(node: Node, level: nat)
    | ListParagraph(item: ListItem)

  /** The heading level of h1 to h6, 0 for any other tag. */
  function HeadingLevel(tag: string): (level: nat)
    ensures level <= 6
    ensures level != 0 <==> tag in {"h1", "h2", "h3", "h4", "h5", "h6"}
  {
    if tag == "h1" then 1
    else if tag == "h2" then 2
    else if tag == "h3" then 3
    else if tag == "h4" then 4
    else if tag == "h5" then 5
    else if tag == "h6" then 6
    else 0
  }

  /** The blocks built for the chosen node at index instance: nothing for a tag no builder handles. */
  function BlocksOf(node: Node, instance: nat): seq<Block> {
    if !node.Element? then []
    else if node.tag in {"p", "pre", "div", "figure", "figcaption"} then [Paragraph(node)]
    else if node.tag == "table" then [Table(node)]
    else if HeadingLevel(node.tag) != 0 then [Heading(node, HeadingLevel(node.tag))]
    else if node.tag == "ul" then ItemBlocks(ListItems(node, Bullet, instance))
    else if node.tag == "ol" then ItemBlocks(ListItems(node, Numbered, instance))
    else []
  }

  function ItemBlocks(items: seq<ListItem>): (r: seq<Block>)
    ensures |r| == |items| && forall k :: 0 <= k < |r| ==> r[k] == ListParagraph(items[k])
  {
    seq(|items|, k requires 0 <= k < |items| => ListParagraph(items[k]))
  }

  /** The blocks of the chosen nodes, in order; each node's instance is its index. */
  function Blocks(nodes: seq<Node>): seq<Block> {
    if nodes == [] then []
    else Blocks(nodes[..|nodes| - 1]) + BlocksOf(nodes[|nodes| - 1], |nodes| - 1)
  }

  /** The loop over the chosen nodes; `nodes.indexOf(node)` is the loop index, the nodes being distinct elements. */
  method ConvertNodes(nodes: seq<Node>) returns (blocks: seq<Block>)
    ensures blocks == Blocks(nodes)
  {
    blocks := [];
    for i := 0 to |nodes|
      invariant blocks == Blocks(nodes[..i])
    {
      assert nodes[..i + 1][..i] == nodes[..i];
      var node := nodes[i];
      var instance := i;
      if node.Element? && node.tag in {"p", "pre", "div", "figure", "figcaption"} {
        blocks := blocks + [Paragraph(node)];
      } else if node.Element? && node.tag == "table" {
        blocks := blocks + [Table(node)];
      } else if node.Element? && HeadingLevel(node.tag) != 0 {
        blocks := blocks + [Heading(node, HeadingLevel(node.tag))];
      } else if node.Element? && node.tag == "ul" {
        var items := BuildList(node, Bullet, instance);
        blocks := blocks + ItemBlocks(items);
      } else if node.Element? && node.tag == "ol" {
        var items := BuildList(node, Numbered, instance);
        blocks := blocks + ItemBlocks(items);
      }
    }
    assert nodes[..|nodes|] == nodes;
  }

  /** The body after the orphan pass, which strict mode skips. */
  function Prepared(body: Node, strict: bool): Node
    requires body.Element?
  {
    if strict then body else body.(children := Repaired(body.children, true))
  }

  /** The top-level nodes, or the p elements of the line-wrapped body when there are none. */
  function Chosen(body: Node, parser: Parser): seq<Node> {
    var nodes := Selected(body);
    if |nodes| == 0 then parser.paragraphs(WrapLinesInP(parser.innerHtml(body))) else nodes
  }

  /** html2docx: the blocks of the document's single section. */
  method Html2Docx(body: Node, strict: bool, parser: Parser) returns (blocks: seq<Block>)
    requires body.Element?
    ensures blocks == Blocks(Chosen(Prepared(body, strict), parser))
  {
    var prepared := body;
    if !strict {
      prepared := GroupOrphanedElements(body);
    }
    var nodes := Selected(prepared);
    if |nodes| == 0 {
      nodes := parser.paragraphs(WrapLinesInP(parser.innerHtml(prepared)));
    }
    blocks := ConvertNodes(nodes);
  }

  /** A list paragraph's instance is the index of a list among the nodes, of its kind, and its level is 0 or 1. */
  predicate InstanceOf(nodes: seq<Node>, b: Block) {
    b.ListParagraph? ==>
      b.item.instance < |nodes| && b.item.level <= 1 &&
      (b.item.kind == Bullet ==> IsTag(nodes[b.item.instance], "ul")) &&
      (b.item.kind == Numbered ==> IsTag(nodes[b.item.instance], "ol"))
  }

  lemma BlocksOfInstances(nodes: seq<Node>, i: nat)
    requires i < |nodes|
    ensures forall b :: b in BlocksOf(nodes[i], i) ==> InstanceOf(nodes, b)
  {
    var node := nodes[i];
    if node.Element? && node.tag == "ul" {
      ItemsUniform(DirectItems(Kids(node)), Bullet, i);
    } else if node.Element? && node.tag == "ol" {
      ItemsUniform(DirectItems(Kids(node)), Numbered, i);
    }
  }

  /**
   * Every list paragraph of the document belongs to the list at the index its instance names, has
   * that list's kind (bullet for ul, numbered for ol) and a level of 0 or 1.
   */
  lemma {:induction false} ListInstances(nodes: seq<Node>)
    ensures forall b :: b in Blocks(nodes) ==> InstanceOf(nodes, b)
    decreases |nodes|
  {
    if nodes != [] {
      var init := nodes[..|nodes| - 1];
      ListInstances(init);
      BlocksOfInstances(nodes, |nodes| - 1);
      forall b | b in Blocks(init) ensures InstanceOf(nodes, b) {
        assert InstanceOf(init, b);
        if b.ListParagraph? {
          assert init[b.item.instance] == nodes[b.item.instance];
        }
      }
    }
  }

  /** Paragraph-like, table and heading nodes each give exactly one block; unknown tags give none. */
  lemma SingleBlocks(node: Node, instance: nat)
    requires node.Element? && node.tag != "ul" && node.tag != "ol"
    ensures |BlocksOf(node, instance)| == (if node.tag in ValidParents then 1 else 0)
  {
  }

  /** Strict mode converts the body as it is; otherwise the orphan pass comes first. */
  lemma StrictSkipsRepair(body: Node)
    requires body.Element?
    ensures Prepared(body, true) == body
    ensures Prepared(body, false).children == Repaired(body.children, true)
  {
  }
}
