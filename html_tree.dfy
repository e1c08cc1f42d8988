/**
 * The HTML tree the converter builds before writing it out: elements (fresh or not), text, the
 * force-write marker and deferred nodes, which stand for an image's HTML until it is resolved.
 * An HTML path is a list of elements to wrap generated nodes in, or `ignore`, which drops them
 * without generating them.
 */
module HtmlTree {
  import opened DocModel

  datatype HtmlNode =
    | HElement(tag: string, attributes: map<string, string>, children: seq<HtmlNode>, isFresh: bool)
    | HText(value: string)
    | ForceWrite
    | Deferred(id: nat, image: Element)

  datatype PathElement = PathElement(tag: string, attributes: map<string, string>, isFresh: bool)

  datatype HtmlPath = Elements(elements: seq<PathElement>) | Ignore

  /** `htmlPaths.empty`: wraps nothing around the nodes. */
  const EmptyPath: HtmlPath := Elements([])

  /** `htmlPaths.topLevelElement(tag, attributes)`: a single fresh element. */
  function TopLevelPath(tag: string, attributes: map<string, string>): HtmlPath {
    Elements([PathElement(tag, attributes, true)])
  }

  /** `Html.freshElement`. */
  function Fresh(tag: string, attributes: map<string, string>, children: seq<HtmlNode>): HtmlNode {
    HElement(tag, attributes, children, true)
  }

  /** The content wrapped in the path's elements, the first one outermost. */
  function Nest(es: seq<PathElement>, content: seq<HtmlNode>): (r: seq<HtmlNode>)
    ensures es != [] ==> |r| == 1 && r[0].HElement? && r[0].tag == es[0].tag
    ensures es == [] ==> r == content
  {
    if es == [] then content
    else [HElement(es[0].tag, es[0].attributes, Nest(es[1..], content), es[0].isFresh)]
  }

  /** The deferred nodes among ns and below them, in pre-order (walkHtml). */
  function DeferredIn(ns: seq<HtmlNode>): seq<HtmlNode>
    decreases ns
  {
    if ns == [] then []
    else
      (if ns[0].Deferred? then [ns[0]] else []) +
      (if ns[0].HElement? then DeferredIn(ns[0].children) else []) +
      DeferredIn(ns[1..])
  }

  /** The ids of deferred nodes, in order. */
  function Ids(ds: seq<HtmlNode>): (r: seq<nat>)
    ensures |r| == |ds|
  {
    if ds == [] then [] else (if ds[0].Deferred? then [ds[0].id] else [0]) + Ids(ds[1..])
  }

  /** replaceDeferred: each deferred node replaced by its value, elements rebuilt with their children replaced. */
  function Replace(ns: seq<HtmlNode>, values: map<nat, seq<HtmlNode>>): seq<HtmlNode>
    decreases ns
  {
    if ns == [] then []
    else
      (match ns[0]
       case Deferred(id, _) => if id in values then values[id] else []
       case HElement(tag, attributes, children, isFresh) => [HElement(tag, attributes, Replace(children, values), isFresh)]
       case _ => [ns[0]]) +
      Replace(ns[1..], values)
  }

  /** The tree with every deferred node removed. */
  function Strip(ns: seq<HtmlNode>): seq<HtmlNode>
    decreases ns
  {
    if ns == [] then []
    else
      (match ns[0]
       case Deferred(_, _) => []
       case HElement(tag, attributes, children, isFresh) => [HElement(tag, attributes, Strip(children), isFresh)]
       case _ => [ns[0]]) +
      Strip(ns[1..])
  }

  /** walkHtml with the callback that collects deferred nodes. */
  method WalkHtml(nodes: seq<HtmlNode>) returns (found: seq<HtmlNode>)
    ensures found == DeferredIn(nodes)
    decreases nodes
  {
    found := [];
    for i := 0 to |nodes|
      invariant DeferredIn(nodes) == found + DeferredIn(nodes[i..])
    {
      var node := nodes[i];
      var here: seq<HtmlNode> := [];
      if node.Deferred? {
        here := [node];
      }
      if node.HElement? {
        var below := WalkHtml(node.children);
        here := here + below;
      }
      DeferredInFirst(nodes[i..]);
      assert nodes[i..][0] == node && nodes[i..][1..] == nodes[i + 1..];
      found := found + here;
    }
  }

  /** The deferred nodes of a non-empty sequence: those of its first node, then those of the rest. */
  lemma DeferredInFirst(ns: seq<HtmlNode>)
    requires ns != []
    ensures DeferredIn(ns) ==
      (if ns[0].Deferred? then [ns[0]] else []) + (if ns[0].HElement? then DeferredIn(ns[0].children) else []) + DeferredIn(ns[1..])
  {
  }

  lemma {:induction false} DeferredInAppend(a: seq<HtmlNode>, b: seq<HtmlNode>)
    ensures DeferredIn(a + b) == DeferredIn(a) + DeferredIn(b)
    decreases |a|
  {
    if a == [] {
      assert a + b == b;
    } else {
      assert (a + b)[0] == a[0];
      assert (a + b)[1..] == a[1..] + b;
      DeferredInAppend(a[1..], b);
    }
  }

  lemma {:induction false} ReplaceAppend(a: seq<HtmlNode>, b: seq<HtmlNode>, values: map<nat, seq<HtmlNode>>)
    ensures Replace(a + b, values) == Replace(a, values) + Replace(b, values)
    decreases |a|
  {
    if a == [] {
      assert a + b == b;
    } else {
      assert (a + b)[0] == a[0];
      assert (a + b)[1..] == a[1..] + b;
      ReplaceAppend(a[1..], b, values);
    }
  }

  /** Wrapping nodes in a path adds no deferred node and keeps theirs in order. */
  lemma {:induction false} NestDeferred(es: seq<PathElement>, content: seq<HtmlNode>)
    ensures DeferredIn(Nest(es, content)) == DeferredIn(content)
    decreases |es|
  {
    if es != [] {
      NestDeferred(es[1..], content);
      var n := Nest(es, content);
      assert DeferredIn(n) == [] + DeferredIn(n[0].children) + DeferredIn([]);
    }
  }

  /** A tree without deferred nodes comes out of replaceDeferred unchanged. */
  lemma {:induction false} ReplaceWithoutDeferred(ns: seq<HtmlNode>, values: map<nat, seq<HtmlNode>>)
    requires DeferredIn(ns) == []
    ensures Replace(ns, values) == ns
    decreases ns
  {
    if ns != [] {
      ReplaceWithoutDeferred(ns[1..], values);
      if ns[0].HElement? {
        ReplaceWithoutDeferred(ns[0].children, values);
      }
      assert [ns[0]] + ns[1..] == ns;
    }
  }

  /**
   * Apart from the substituted values, replaceDeferred keeps every node and the order of all of
   * them: with every value empty it is exactly the tree without its deferred nodes.
   */
  lemma {:induction false} ReplaceKeepsOthers(ns: seq<HtmlNode>, values: map<nat, seq<HtmlNode>>)
    requires forall id :: id in values ==> values[id] == []
    ensures Replace(ns, values) == Strip(ns)
    decreases ns
  {
    if ns != [] {
      ReplaceKeepsOthers(ns[1..], values);
      if ns[0].HElement? {
        ReplaceKeepsOthers(ns[0].children, values);
      }
    }
  }

  /** Each deferred node is replaced by its own value, in its place among its siblings. */
  lemma ReplaceInPlace(before: seq<HtmlNode>, d: HtmlNode, after: seq<HtmlNode>, values: map<nat, seq<HtmlNode>>)
    requires d.Deferred? && d.id in values
    ensures Replace(before + [d] + after, values) == Replace(before, values) + values[d.id] + Replace(after, values)
  {
    ReplaceAppend(before + [d], after, values);
    ReplaceAppend(before, [d], values);
    assert Replace([d], values) == values[d.id] + Replace([], values);
  }

  /** After replacement no deferred node is left, as long as no value holds one. */
  lemma {:induction false} ReplaceResolvesAll(ns: seq<HtmlNode>, values: map<nat, seq<HtmlNode>>)
    requires forall id :: id in values ==> DeferredIn(values[id]) == []
    ensures DeferredIn(Replace(ns, values)) == []
    decreases ns
  {
    if ns != [] {
      ReplaceResolvesAll(ns[1..], values);
      var head := match ns[0]
        case Deferred(id, _) => if id in values then values[id] else []
        case HElement(tag, attributes, children, isFresh) => [HElement(tag, attributes, Replace(children, values), isFresh)]
        case _ => [ns[0]];
      if ns[0].HElement? {
        ReplaceResolvesAll(ns[0].children, values);
        assert DeferredIn(head) == [] + DeferredIn(Replace(ns[0].children, values)) + DeferredIn([]);
      }
      DeferredInAppend(head, Replace(ns[1..], values));
    }
  }
}
