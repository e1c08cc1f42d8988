/**
 * build_ul / build_ol: a top-level list becomes a flat run of list paragraphs. Every direct `li`
 * gives a level-0 item, followed by a level-1 item for every `li` found below it by
 * `li.querySelectorAll('ul li')` (or `'ol li'`). That selector is matched against the whole
 * document, where the list itself is an ancestor of everything below it, so it finds every `li`
 * nested below the item, at any depth and in any kind of list: no level above 1 is ever produced.
 */
module Lists {
  import opened Dom

  /** A bullet list paragraph (`bullet: {level, instance}`) or a numbered one (`numbering: {reference: 'arabic', instance, level}`). */
  datatype ListKind = Bullet | Numbered

  /** One list paragraph; its runs are built from the child nodes of `content`. */
  datatype ListItem = ListItem(content: Node, kind: ListKind, level: nat, instance: nat)

  function Kids(n: Node): seq<Node> {
    if n.Element? then n.children else []
  }

  /** `node.querySelectorAll(':scope > li')`: the li children, in order. */
  function DirectItems(cs: seq<Node>): (r: seq<Node>)
    ensures forall k :: 0 <= k < |r| ==> IsTag(r[k], "li")
  {
    if cs == [] then []
    else (if IsTag(cs[0], "li") then [cs[0]] else []) + DirectItems(cs[1..])
  }

  /** Every li below the given nodes, in document order. */
  function NestedItems(cs: seq<Node>): (r: seq<Node>)
    ensures forall k :: 0 <= k < |r| ==> IsTag(r[k], "li")
    decreases cs
  {
    if cs == [] then []
    else
      (if IsTag(cs[0], "li") then [cs[0]] else []) +
      (if cs[0].Element? then NestedItems(cs[0].children) else []) +
      NestedItems(cs[1..])
  }

  /** The level-1 paragraphs for the nested items of one direct item. */
  function SubItems(subs: seq<Node>, kind: ListKind, instance: nat): (r: seq<ListItem>)
    ensures |r| == |subs|
  {
    if subs == [] then []
    else SubItems(subs[..|subs| - 1], kind, instance) + [ListItem(subs[|subs| - 1], kind, 1, instance)]
  }

  /** The paragraphs of one direct item: itself at level 0, then its nested items at level 1. */
  function ItemGroup(li: Node, kind: ListKind, instance: nat): seq<ListItem> {
    [ListItem(li, kind, 0, instance)] + SubItems(NestedItems(Kids(li)), kind, instance)
  }

  /** The paragraphs of a list whose direct items are lis. */
  function ItemsFrom(lis: seq<Node>, kind: ListKind, instance: nat): seq<ListItem> {
    if lis == [] then []
    else ItemsFrom(lis[..|lis| - 1], kind, instance) + ItemGroup(lis[|lis| - 1], kind, instance)
  }

  /** The paragraphs of a list element. */
  function ListItems(list: Node, kind: ListKind, instance: nat): seq<ListItem> {
    ItemsFrom(DirectItems(Kids(list)), kind, instance)
  }

  /** build_ul (kind Bullet) and build_ol (kind Numbered): the nested loops that push the paragraphs. */
  method BuildList(list: Node, kind: ListKind, instance: nat) returns (items: seq<ListItem>)
    ensures items == ListItems(list, kind, instance)
  {
    items := [];
    var lis := DirectItems(Kids(list));
    for i := 0 to |lis|
      invariant items == ItemsFrom(lis[..i], kind, instance)
    {
      ItemsFromStep(lis, i, kind, instance);
      items := PushGroup(items, lis[i], kind, instance);
    }
    assert lis[..|lis|] == lis;
  }

  lemma ItemsFromStep(lis: seq<Node>, i: nat, kind: ListKind, instance: nat)
    requires i < |lis|
    ensures ItemsFrom(lis[..i + 1], kind, instance) == ItemsFrom(lis[..i], kind, instance) + ItemGroup(lis[i], kind, instance)
  {
    assert lis[..i + 1][..i] == lis[..i];
  }

  /** One round of the outer loop: the direct item at level 0, then its nested items. */
  method PushGroup(before: seq<ListItem>, li: Node, kind: ListKind, instance: nat) returns (items: seq<ListItem>)
    ensures items == before + ItemGroup(li, kind, instance)
  {
    items := before + [ListItem(li, kind, 0, instance)];
    items := PushNested(items, NestedItems(Kids(li)), kind, instance);
  }

  /** The inner loop: one level-1 paragraph per nested item. */
  method PushNested(before: seq<ListItem>, subs: seq<Node>, kind: ListKind, instance: nat) returns (items: seq<ListItem>)
    ensures items == before + SubItems(subs, kind, instance)
  {
    items := before;
    for k := 0 to |subs|
      invariant items == before + SubItems(subs[..k], kind, instance)
    {
      assert subs[..k + 1][..k] == subs[..k];
      items := items + [ListItem(subs[k], kind, 1, instance)];
    }
    assert subs[..|subs|] == subs;
  }

  /** The contents of the level-0 paragraphs, in order. */
  function TopContents(items: seq<ListItem>): seq<Node> {
    if items == [] then []
    else (if items[0].level == 0 then [items[0].content] else []) + TopContents(items[1..])
  }

  /** The contents of the level-1 paragraphs, in order. */
  function NestedContents(items: seq<ListItem>): seq<Node> {
    if items == [] then []
    else (if items[0].level == 1 then [items[0].content] else []) + NestedContents(items[1..])
  }

  /** Both content lists distribute over concatenation. */
  lemma TopContentsAppend(a: seq<ListItem>, b: seq<ListItem>)
    ensures TopContents(a + b) == TopContents(a) + TopContents(b)
    ensures NestedContents(a + b) == NestedContents(a) + NestedContents(b)
  {
    TopAppend(a, b);
    NestedAppend(a, b);
  }

  lemma {:induction false} TopAppend(a: seq<ListItem>, b: seq<ListItem>)
    ensures TopContents(a + b) == TopContents(a) + TopContents(b)
    decreases |a|
  {
    if a == [] {
      assert a + b == b;
    } else {
      assert (a + b)[0] == a[0];
      assert (a + b)[1..] == a[1..] + b;
      TopAppend(a[1..], b);
      var h := if a[0].level == 0 then [a[0].content] else [];
      assert TopContents(a + b) == h + TopContents(a[1..] + b);
      assert TopContents(a) == h + TopContents(a[1..]);
    }
  }

  lemma {:induction false} NestedAppend(a: seq<ListItem>, b: seq<ListItem>)
    ensures NestedContents(a + b) == NestedContents(a) + NestedContents(b)
    decreases |a|
  {
    if a == [] {
      assert a + b == b;
    } else {
      assert (a + b)[0] == a[0];
      assert (a + b)[1..] == a[1..] + b;
      NestedAppend(a[1..], b);
      var h := if a[0].level == 1 then [a[0].content] else [];
      assert NestedContents(a + b) == h + NestedContents(a[1..] + b);
      assert NestedContents(a) == h + NestedContents(a[1..]);
    }
  }

  lemma {:induction false} SubItemsContents(subs: seq<Node>, kind: ListKind, instance: nat)
    ensures TopContents(SubItems(subs, kind, instance)) == []
    ensures NestedContents(SubItems(subs, kind, instance)) == subs
    decreases |subs|
  {
    if subs != [] {
      var init := subs[..|subs| - 1];
      SubItemsContents(init, kind, instance);
      TopContentsAppend(SubItems(init, kind, instance), [ListItem(subs[|subs| - 1], kind, 1, instance)]);
      assert init + [subs[|subs| - 1]] == subs;
    }
  }

  /** One group holds its direct item at level 0 and its nested items at level 1. */
  lemma ItemGroupContents(li: Node, kind: ListKind, instance: nat)
    ensures TopContents(ItemGroup(li, kind, instance)) == [li]
    ensures NestedContents(ItemGroup(li, kind, instance)) == NestedItems(Kids(li))
  {
    var subs := SubItems(NestedItems(Kids(li)), kind, instance);
    SubItemsContents(NestedItems(Kids(li)), kind, instance);
    TopContentsAppend([ListItem(li, kind, 0, instance)], subs);
  }

  /** Each direct li yields exactly one level-0 paragraph, in order, and nothing else is at level 0. */
  lemma {:induction false} OneTopItemPerDirectItem(lis: seq<Node>, kind: ListKind, instance: nat)
    ensures TopContents(ItemsFrom(lis, kind, instance)) == lis
    decreases |lis|
  {
    if lis != [] {
      var init := lis[..|lis| - 1];
      var li := lis[|lis| - 1];
      OneTopItemPerDirectItem(init, kind, instance);
      ItemGroupContents(li, kind, instance);
      TopContentsAppend(ItemsFrom(init, kind, instance), ItemGroup(li, kind, instance));
      assert init + [li] == lis;
    }
  }

  /** The level-1 paragraphs are the li nested below each direct item, item after item. */
  function AllNested(lis: seq<Node>): seq<Node> {
    if lis == [] then [] else AllNested(lis[..|lis| - 1]) + NestedItems(Kids(lis[|lis| - 1]))
  }

  lemma {:induction false} NestedItemsAtLevelOne(lis: seq<Node>, kind: ListKind, instance: nat)
    ensures NestedContents(ItemsFrom(lis, kind, instance)) == AllNested(lis)
    decreases |lis|
  {
    if lis != [] {
      var init := lis[..|lis| - 1];
      var li := lis[|lis| - 1];
      NestedItemsAtLevelOne(init, kind, instance);
      ItemGroupContents(li, kind, instance);
      TopContentsAppend(ItemsFrom(init, kind, instance), ItemGroup(li, kind, instance));
    }
  }

  /** Every paragraph of a list has its kind and its instance, and level 0 or 1. */
  predicate Uniform(items: seq<ListItem>, kind: ListKind, instance: nat) {
    forall k :: 0 <= k < |items| ==> items[k].kind == kind && items[k].instance == instance && items[k].level <= 1
  }

  lemma {:induction false} SubItemsUniform(subs: seq<Node>, kind: ListKind, instance: nat)
    ensures Uniform(SubItems(subs, kind, instance), kind, instance)
    decreases |subs|
  {
    if subs != [] {
      SubItemsUniform(subs[..|subs| - 1], kind, instance);
    }
  }

  lemma {:induction false} ItemsUniform(lis: seq<Node>, kind: ListKind, instance: nat)
    ensures Uniform(ItemsFrom(lis, kind, instance), kind, instance)
    decreases |lis|
  {
    if lis != [] {
      var li := lis[|lis| - 1];
      ItemsUniform(lis[..|lis| - 1], kind, instance);
      SubItemsUniform(NestedItems(Kids(li)), kind, instance);
    }
  }

  /** An li two lists deep, inside an ordered list within a bullet item, is still a level-1 bullet. */
  lemma DeepItemFlattened(inner: Node)
    requires IsTag(inner, "li")
    ensures var ol := Element("ol", "block", map[], [inner]);
      var li := Element("li", "list-item", map[], [ol]);
      var ul := Element("ul", "block", map[], [li]);
      ListItems(ul, Bullet, 3) == [ListItem(li, Bullet, 0, 3), ListItem(inner, Bullet, 1, 3)] + SubItems(NestedItems(Kids(inner)), Bullet, 3)
  {
    var ol := Element("ol", "block", map[], [inner]);
    var li := Element("li", "list-item", map[], [ol]);
    var ul := Element("ul", "block", map[], [li]);
    assert DirectItems(Kids(ul)) == [li];
    var nested := NestedItems(Kids(inner));
    assert NestedItems([inner]) == [inner] + nested + NestedItems([]);
    assert NestedItems([ol]) == [] + NestedItems([inner]) + NestedItems([]);
    assert NestedItems(Kids(li)) == [inner] + nested;
    SubItemsPrepend(inner, nested, Bullet, 3);
    assert ItemsFrom([li], Bullet, 3) == ItemsFrom([], Bullet, 3) + ItemGroup(li, Bullet, 3);
  }

  lemma {:induction false} SubItemsPrepend(x: Node, subs: seq<Node>, kind: ListKind, instance: nat)
    ensures SubItems([x] + subs, kind, instance) == [ListItem(x, kind, 1, instance)] + SubItems(subs, kind, instance)
    decreases |subs|
  {
    if subs == [] {
      assert [x] + subs == [x];
      assert [x][..0] == [];
    } else {
      var init := subs[..|subs| - 1];
      SubItemsPrepend(x, init, kind, instance);
      assert ([x] + subs)[..|[x] + subs| - 1] == [x] + init;
    }
  }
}
