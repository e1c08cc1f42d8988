/**
 * group_orphaned_elements: every run of consecutive inline or text children that has no block
 * ancestor from the ValidParents set (up to the container) is moved into a new `<p>` inserted where
 * the run began. Whether a child is orphaned depends only on its parent chain, so all children of
 * one parent share it: the pass carries it down as `orphaned`, true for the container's children
 * and cleared below any valid parent.
 */
module OrphanRepair {
  import opened Dom

  /** An image whose computed display is 'block' or 'block-inline' gets a paragraph of its own. */
  predicate BlockImage(n: Node) {
    IsTag(n, "img") && (n.display == "block" || n.display == "block-inline")
  }

  /** A node that continues a group without ending it. */
  predicate Plain(n: Node) {
    IsInline(n) && !IsTag(n, "br") && !BlockImage(n)
  }

  /** Why the collection of a group stopped. */
  datatype StopKind =
    | AfterBreak        // an orphaned <br> was taken into the group and ends it
    | BeforeBlockImage  // a block image with nothing significant before it
    | Ended             // the children ran out, or a node that cannot join the group

  datatype GroupStop = GroupStop(end: nat, kind: StopKind)

  /**
   * The collection loop of one group starting at s[0], having taken s[..k] so far: the group is
   * s[..end], and with BeforeBlockImage the image at s[end] is wrapped on its own.
   */
  function GroupEnd(s: seq<Node>, k: nat): (r: GroupStop)
    requires k <= |s|
    ensures k <= r.end <= |s|
    ensures r.kind == BeforeBlockImage ==> r.end < |s|
    decreases |s| - k
  {
    if k == |s| then GroupStop(k, Ended)
    else if IsTag(s[k], "br") then GroupStop(k + 1, AfterBreak)
    else if BlockImage(s[k]) then
      if HasSignificant(s[..k]) then GroupStop(k, Ended) else GroupStop(k, BeforeBlockImage)
    else if IsInline(s[k]) then GroupEnd(s, k + 1)
    else GroupStop(k, Ended)
  }

  /** One child of the repaired list: an original child, or a new paragraph holding a group. */
  datatype Piece = Kept(node: Node) | Wrapped(group: seq<Node>)

  /**
   * The repair of a list of siblings, as pieces. A block child is kept with its own children
   * repaired; a child that is not inline, or any child of a parent that is not orphaned, is kept;
   * an orphaned inline child starts a group.
   */
  function Pieces(cs: seq<Node>, orphaned: bool): seq<Piece>
    decreases cs, 1
  {
    if cs == [] then []
    else if IsBlock(cs[0]) then [Kept(Descend(cs[0], orphaned))] + Pieces(cs[1..], orphaned)
    else if !orphaned || !IsInline(cs[0]) then [Kept(cs[0])] + Pieces(cs[1..], orphaned)
    else GroupPieces(cs, orphaned)
  }

  /**
   * The pieces from a group that starts at cs[0]: a lone block image is wrapped on its own and the
   * whitespace before it stays; otherwise the group is wrapped when it holds something significant
   * and left in place when it does not.
   */
  function GroupPieces(cs: seq<Node>, orphaned: bool): seq<Piece>
    requires cs != [] && IsInline(cs[0])
    decreases cs, 0
  {
    var stop := GroupEnd(cs, 0);
    GroupEndLeaves(cs);
    if stop.kind == BeforeBlockImage then
      KeptEach(cs[..stop.end]) + [Wrapped([cs[stop.end]])] + Pieces(cs[stop.end + 1..], orphaned)
    else if HasSignificant(cs[..stop.end]) then
      [Wrapped(cs[..stop.end])] + Pieces(cs[stop.end..], orphaned)
    else
      KeptEach(cs[..stop.end]) + Pieces(cs[stop.end..], orphaned)
  }

  /** A block child with its children repaired; they are orphaned when it is and it is no valid parent. */
  function Descend(c: Node, orphaned: bool): Node
    decreases c
  {
    if IsBlock(c) then c.(children := Render(Pieces(c.children, orphaned && c.tag !in ValidParents)))
    else c
  }

  function KeptEach(xs: seq<Node>): seq<Piece> {
    if xs == [] then [] else [Kept(xs[0])] + KeptEach(xs[1..])
  }

  /** What a piece becomes in the repaired list. */
  function Shown(p: Piece): seq<Node> {
    match p
    case Kept(n) => [n]
    case Wrapped(g) => [NewParagraph(g)]
  }

  /** The nodes a piece holds. */
  function Held(p: Piece): seq<Node> {
    match p
    case Kept(n) => [n]
    case Wrapped(g) => g
  }

  /** The children after the repair: every group becomes one new paragraph. */
  function Render(ps: seq<Piece>): seq<Node> {
    if ps == [] then [] else Shown(ps[0]) + Render(ps[1..])
  }

  /** The nodes the pieces hold, with the new paragraphs taken away. */
  function Contents(ps: seq<Piece>): seq<Node> {
    if ps == [] then [] else Held(ps[0]) + Contents(ps[1..])
  }

  function Repaired(cs: seq<Node>, orphaned: bool): seq<Node> {
    Render(Pieces(cs, orphaned))
  }

  function DescendAll(cs: seq<Node>, orphaned: bool): seq<Node> {
    if cs == [] then [] else [Descend(cs[0], orphaned)] + DescendAll(cs[1..], orphaned)
  }

  /** A group started by an inline node that is no lone block image takes at least that node. */
  lemma GroupEndLeaves(s: seq<Node>)
    requires s != [] && IsInline(s[0])
    ensures GroupEnd(s, 0).kind != BeforeBlockImage ==> GroupEnd(s, 0).end > 0
  {
  }

  /**
   * The shape of a group: every member is inline; a <br> can only be the last member; a block image
   * is never a member; the collection stops at a node that cannot continue the group.
   */
  lemma {:induction false} GroupEndShape(s: seq<Node>, k: nat)
    requires k <= |s|
    requires forall m :: 0 <= m < k ==> Plain(s[m])
    ensures var r := GroupEnd(s, k);
      (forall m :: 0 <= m < r.end ==> IsInline(s[m])) &&
      (r.kind == AfterBreak ==> r.end > 0 && IsTag(s[r.end - 1], "br") && forall m :: 0 <= m < r.end - 1 ==> Plain(s[m])) &&
      (r.kind != AfterBreak ==> forall m :: 0 <= m < r.end ==> Plain(s[m])) &&
      (r.kind == BeforeBlockImage ==> BlockImage(s[r.end]) && !HasSignificant(s[..r.end])) &&
      (r.kind == Ended && r.end < |s| ==> !IsInline(s[r.end]) || (BlockImage(s[r.end]) && HasSignificant(s[..r.end])))
    decreases |s| - k
  {
    if k < |s| && !IsTag(s[k], "br") && !BlockImage(s[k]) && IsInline(s[k]) {
      GroupEndShape(s, k + 1);
    }
  }

  lemma {:induction false} RenderAppend(a: seq<Piece>, b: seq<Piece>)
    ensures Render(a + b) == Render(a) + Render(b)
    decreases |a|
  {
    if a != [] {
      assert (a + b)[0] == a[0];
      assert (a + b)[1..] == a[1..] + b;
      RenderAppend(a[1..], b);
      assert Render(a + b) == Shown(a[0]) + Render(a[1..] + b);
      assert Shown(a[0]) + (Render(a[1..]) + Render(b)) == (Shown(a[0]) + Render(a[1..])) + Render(b);
    } else {
      assert a + b == b;
    }
  }

  lemma {:induction false} ContentsAppend(a: seq<Piece>, b: seq<Piece>)
    ensures Contents(a + b) == Contents(a) + Contents(b)
    decreases |a|
  {
    if a != [] {
      assert (a + b)[0] == a[0];
      assert (a + b)[1..] == a[1..] + b;
      ContentsAppend(a[1..], b);
      assert Contents(a + b) == Held(a[0]) + Contents(a[1..] + b);
      assert Held(a[0]) + (Contents(a[1..]) + Contents(b)) == (Held(a[0]) + Contents(a[1..])) + Contents(b);
    } else {
      assert a + b == b;
    }
  }

  lemma {:induction false} RenderKeptEach(xs: seq<Node>)
    ensures Render(KeptEach(xs)) == xs && Contents(KeptEach(xs)) == xs
    decreases |xs|
  {
    if xs != [] {
      RenderKeptEach(xs[1..]);
      assert xs == [xs[0]] + xs[1..];
    }
  }

  lemma {:induction false} DescendAllAppend(a: seq<Node>, b: seq<Node>, orphaned: bool)
    ensures DescendAll(a + b, orphaned) == DescendAll(a, orphaned) + DescendAll(b, orphaned)
    decreases |a|
  {
    if a != [] {
      assert (a + b)[0] == a[0];
      assert (a + b)[1..] == a[1..] + b;
      DescendAllAppend(a[1..], b, orphaned);
      assert DescendAll(a + b, orphaned) == [Descend(a[0], orphaned)] + DescendAll(a[1..] + b, orphaned);
    } else {
      assert a + b == b;
    }
  }

  /** Inline nodes are not descended into. */
  lemma {:induction false} DescendAllInline(xs: seq<Node>, orphaned: bool)
    requires forall m :: 0 <= m < |xs| ==> IsInline(xs[m])
    ensures DescendAll(xs, orphaned) == xs
    decreases |xs|
  {
    if xs != [] {
      DescendAllInline(xs[1..], orphaned);
      assert xs == [xs[0]] + xs[1..];
    }
  }

  /**
   * Nothing is lost, duplicated or reordered: taking the new paragraphs away gives back the
   * original children, each block child with its own children repaired.
   */
  lemma {:induction false} OrderPreserved(cs: seq<Node>, orphaned: bool)
    ensures Contents(Pieces(cs, orphaned)) == DescendAll(cs, orphaned)
    decreases |cs|, 3
  {
    if cs == [] {
    } else if IsBlock(cs[0]) || !orphaned || !IsInline(cs[0]) {
      OrderPreserved(cs[1..], orphaned);
      ContentsAppend([Kept(Descend(cs[0], orphaned))], Pieces(cs[1..], orphaned));
    } else {
      GroupOrderPreserved(cs, orphaned);
    }
  }

  lemma {:induction false} GroupOrderPreserved(cs: seq<Node>, orphaned: bool)
    requires cs != [] && IsInline(cs[0])
    ensures Contents(GroupPieces(cs, orphaned)) == DescendAll(cs, orphaned)
    decreases |cs|, 2
  {
    var stop := GroupEnd(cs, 0);
    var n := stop.end;
    GroupEndShape(cs, 0);
    assert DescendAll(cs, orphaned) == cs[..n] + DescendAll(cs[n..], orphaned) by {
      assert cs == cs[..n] + cs[n..];
      DescendAllInline(cs[..n], orphaned);
      DescendAllAppend(cs[..n], cs[n..], orphaned);
    }
    GroupPartsOrder(cs, orphaned, stop);
  }

  /** The pieces of a group hold the group's nodes, then the repair of what follows it. */
  lemma {:induction false} GroupPartsOrder(cs: seq<Node>, orphaned: bool, stop: GroupStop)
    requires cs != [] && IsInline(cs[0]) && stop == GroupEnd(cs, 0)
    requires stop.kind == BeforeBlockImage ==> BlockImage(cs[stop.end])
    ensures Contents(GroupPieces(cs, orphaned)) == cs[..stop.end] + DescendAll(cs[stop.end..], orphaned)
    decreases |cs|, 1
  {
    GroupEndLeaves(cs);
    if stop.kind == BeforeBlockImage {
      ImagePartsOrder(cs, orphaned, stop.end);
    } else {
      var n := stop.end;
      OrderPreserved(cs[n..], orphaned);
      if HasSignificant(cs[..n]) {
        ContentsAppend([Wrapped(cs[..n])], Pieces(cs[n..], orphaned));
      } else {
        ContentsAppend(KeptEach(cs[..n]), Pieces(cs[n..], orphaned));
        RenderKeptEach(cs[..n]);
      }
    }
  }

  /** Whitespace kept before a lone block image, the image wrapped, then the repair of the rest. */
  lemma {:induction false} ImagePartsOrder(cs: seq<Node>, orphaned: bool, n: nat)
    requires cs != [] && IsInline(cs[0]) && GroupEnd(cs, 0) == GroupStop(n, BeforeBlockImage)
    requires n < |cs| && BlockImage(cs[n])
    ensures Contents(GroupPieces(cs, orphaned)) == cs[..n] + DescendAll(cs[n..], orphaned)
    decreases |cs|, 0
  {
    var rest := Pieces(cs[n + 1..], orphaned);
    assert GroupPieces(cs, orphaned) == KeptEach(cs[..n]) + [Wrapped([cs[n]])] + rest;
    KeptThenImage(cs[..n], cs[n], rest);
    assert cs[n..] == [cs[n]] + cs[n + 1..];
    DescendImage(cs[n], cs[n + 1..], orphaned);
    OrderPreserved(cs[n + 1..], orphaned);
    assert cs[..n] + [cs[n]] + Contents(rest) == cs[..n] + ([cs[n]] + Contents(rest));
  }

  lemma KeptThenImage(xs: seq<Node>, image: Node, rest: seq<Piece>)
    ensures Contents(KeptEach(xs) + [Wrapped([image])] + rest) == xs + [image] + Contents(rest)
  {
    var kept, wrapped := KeptEach(xs), [Wrapped([image])];
    ContentsAppend(kept + wrapped, rest);
    ContentsAppend(kept, wrapped);
    assert Contents(wrapped) == [image];
    RenderKeptEach(xs);
  }

  lemma DescendImage(image: Node, tail: seq<Node>, orphaned: bool)
    requires BlockImage(image)
    ensures DescendAll([image] + tail, orphaned) == [image] + DescendAll(tail, orphaned)
  {
    DescendAllAppend([image], tail, orphaned);
    assert DescendAll([image], orphaned) == [image];
  }

  /** A group that is wrapped: non-empty, all inline, something significant, a <br> only at its end, a block image only alone. */
  predicate WellFormedGroup(g: seq<Node>) {
    g != [] && HasSignificant(g) &&
    (forall m :: 0 <= m < |g| ==> IsInline(g[m])) &&
    (forall m :: 0 <= m < |g| - 1 ==> !IsTag(g[m], "br")) &&
    (forall m :: 0 <= m < |g| ==> BlockImage(g[m]) ==> g == [g[m]])
  }

  predicate AllWellFormed(ps: seq<Piece>, orphaned: bool) {
    forall k :: 0 <= k < |ps| ==> ps[k].Wrapped? ==> orphaned && WellFormedGroup(ps[k].group)
  }

  /** Only orphaned siblings are wrapped, and every wrapped group has the shape of WellFormedGroup. */
  lemma {:induction false} GroupsWellFormed(cs: seq<Node>, orphaned: bool)
    ensures AllWellFormed(Pieces(cs, orphaned), orphaned)
    decreases |cs|, 1
  {
    if cs == [] {
    } else if IsBlock(cs[0]) || !orphaned || !IsInline(cs[0]) {
      GroupsWellFormed(cs[1..], orphaned);
      KeptThenWellFormed([Kept(Descend(cs[0], orphaned))], Pieces(cs[1..], orphaned), orphaned);
    } else {
      GroupPiecesWellFormed(cs, orphaned);
    }
  }

  lemma {:induction false} GroupPiecesWellFormed(cs: seq<Node>, orphaned: bool)
    requires orphaned && cs != [] && IsInline(cs[0])
    ensures AllWellFormed(GroupPieces(cs, orphaned), orphaned)
    decreases |cs|, 0
  {
    var stop := GroupEnd(cs, 0);
    GroupEndShape(cs, 0);
    GroupEndLeaves(cs);
    var n := stop.end;
    if stop.kind == BeforeBlockImage {
      GroupsWellFormed(cs[n + 1..], orphaned);
      var g := [cs[n]];
      assert Significant(g[0]);
      assert WellFormedGroup(g);
      KeptThenWellFormed([Wrapped(g)], Pieces(cs[n + 1..], orphaned), orphaned);
      KeptEachThen(cs[..n], [Wrapped(g)] + Pieces(cs[n + 1..], orphaned), orphaned);
      assert KeptEach(cs[..n]) + [Wrapped(g)] + Pieces(cs[n + 1..], orphaned)
          == KeptEach(cs[..n]) + ([Wrapped(g)] + Pieces(cs[n + 1..], orphaned));
    } else if HasSignificant(cs[..n]) {
      GroupsWellFormed(cs[n..], orphaned);
      var g := cs[..n];
      forall m | 0 <= m < |g| ensures !BlockImage(g[m]) {
        assert g[m] == cs[m];
      }
      assert WellFormedGroup(g);
      KeptThenWellFormed([Wrapped(g)], Pieces(cs[n..], orphaned), orphaned);
    } else {
      GroupsWellFormed(cs[n..], orphaned);
      KeptEachThen(cs[..n], Pieces(cs[n..], orphaned), orphaned);
    }
  }

  lemma KeptThenWellFormed(a: seq<Piece>, b: seq<Piece>, orphaned: bool)
    requires AllWellFormed(a, orphaned) && AllWellFormed(b, orphaned)
    ensures AllWellFormed(a + b, orphaned)
  {
    forall k | 0 <= k < |a + b| && (a + b)[k].Wrapped?
      ensures orphaned && WellFormedGroup((a + b)[k].group)
    {
      if k < |a| {
        assert (a + b)[k] == a[k];
      } else {
        assert (a + b)[k] == b[k - |a|];
      }
    }
  }

  lemma {:induction false} KeptEachThen(xs: seq<Node>, b: seq<Piece>, orphaned: bool)
    requires AllWellFormed(b, orphaned)
    ensures AllWellFormed(KeptEach(xs) + b, orphaned)
    decreases |xs|
  {
    if xs != [] {
      KeptEachThen(xs[1..], b, orphaned);
      assert KeptEach(xs) + b == [Kept(xs[0])] + (KeptEach(xs[1..]) + b);
      KeptThenWellFormed([Kept(xs[0])], KeptEach(xs[1..]) + b, orphaned);
    }
  }

  /** One round of the pass on a block child: it is replaced by itself with its children repaired. */
  lemma StepBlock(s: seq<Node>, orphaned: bool)
    requires s != [] && IsBlock(s[0])
    ensures Repaired(s, orphaned) == [Descend(s[0], orphaned)] + Repaired(s[1..], orphaned)
  {
    RenderAppend([Kept(Descend(s[0], orphaned))], Pieces(s[1..], orphaned));
  }

  /** One round of the pass on a child that neither is a block nor starts a group: it is passed over. */
  lemma StepSkip(s: seq<Node>, orphaned: bool)
    requires s != [] && !IsBlock(s[0]) && !(orphaned && IsInline(s[0]))
    ensures Repaired(s, orphaned) == [s[0]] + Repaired(s[1..], orphaned)
  {
    RenderAppend([Kept(s[0])], Pieces(s[1..], orphaned));
  }

  /** A round that meets a lone block image: what precedes it stays, the image gets its own paragraph. */
  lemma StepImage(s: seq<Node>, orphaned: bool)
    requires orphaned && s != [] && !IsBlock(s[0]) && IsInline(s[0])
    requires GroupEnd(s, 0).kind == BeforeBlockImage
    ensures var n := GroupEnd(s, 0).end;
      Repaired(s, orphaned) == s[..n] + [NewParagraph([s[n]])] + Repaired(s[n + 1..], orphaned)
  {
    var n := GroupEnd(s, 0).end;
    var rest := Pieces(s[n + 1..], orphaned);
    assert Pieces(s, orphaned) == KeptEach(s[..n]) + [Wrapped([s[n]])] + rest;
    RenderAppend(KeptEach(s[..n]) + [Wrapped([s[n]])], rest);
    RenderAppend(KeptEach(s[..n]), [Wrapped([s[n]])]);
    RenderKeptEach(s[..n]);
  }

  /** A round that collects a group with something significant: the group becomes one new paragraph. */
  lemma StepWrap(s: seq<Node>, orphaned: bool)
    requires orphaned && s != [] && !IsBlock(s[0]) && IsInline(s[0])
    requires GroupEnd(s, 0).kind != BeforeBlockImage && HasSignificant(s[..GroupEnd(s, 0).end])
    ensures var n := GroupEnd(s, 0).end;
      Repaired(s, orphaned) == [NewParagraph(s[..n])] + Repaired(s[n..], orphaned)
  {
    var n := GroupEnd(s, 0).end;
    GroupEndLeaves(s);
    assert Pieces(s, orphaned) == [Wrapped(s[..n])] + Pieces(s[n..], orphaned);
    RenderAppend([Wrapped(s[..n])], Pieces(s[n..], orphaned));
  }

  /** A round that collects only whitespace: the group stays where it is. */
  lemma StepLeave(s: seq<Node>, orphaned: bool)
    requires orphaned && s != [] && !IsBlock(s[0]) && IsInline(s[0])
    requires GroupEnd(s, 0).kind != BeforeBlockImage && !HasSignificant(s[..GroupEnd(s, 0).end])
    ensures var n := GroupEnd(s, 0).end;
      Repaired(s, orphaned) == s[..n] + Repaired(s[n..], orphaned)
  {
    var n := GroupEnd(s, 0).end;
    GroupEndLeaves(s);
    assert Pieces(s, orphaned) == KeptEach(s[..n]) + Pieces(s[n..], orphaned);
    RenderAppend(KeptEach(s[..n]), Pieces(s[n..], orphaned));
    RenderKeptEach(s[..n]);
  }

  /** Below a valid parent nothing is orphaned, and the pass changes nothing. */
  lemma {:induction false} NotOrphanedUnchanged(cs: seq<Node>)
    ensures Repaired(cs, false) == cs
    decreases cs
  {
    if cs != [] {
      NotOrphanedUnchanged(cs[1..]);
      if IsBlock(cs[0]) {
        NotOrphanedUnchanged(cs[0].children);
        StepBlock(cs, false);
        assert Descend(cs[0], false) == cs[0];
      } else {
        StepSkip(cs, false);
      }
      assert cs == [cs[0]] + cs[1..];
    }
  }

  /** Whitespace-only text before a node that is not inline is left in place, unwrapped. */
  lemma {:induction false} WhitespaceLeftInPlace(ws: seq<Node>, rest: seq<Node>, orphaned: bool)
    requires forall m :: 0 <= m < |ws| ==> ws[m].Text? && WhitespaceOnly(ws[m].text)
    requires rest == [] || !IsInline(rest[0])
    ensures Repaired(ws + rest, orphaned) == ws + Repaired(rest, orphaned)
    decreases |ws|
  {
    if ws == [] {
      assert ws + rest == rest;
    } else {
      var cs := ws + rest;
      assert cs[0] == ws[0];
      if orphaned {
        WhitespaceGroup(cs, 0, |ws|);
        assert GroupEnd(cs, 0).end == |ws|;
        assert cs[..|ws|] == ws && cs[|ws|..] == rest;
        StepLeave(cs, orphaned);
        assert Repaired(cs, orphaned) == cs[..|ws|] + Repaired(cs[|ws|..], orphaned);
      } else {
        assert cs[1..] == ws[1..] + rest;
        WhitespaceLeftInPlace(ws[1..], rest, orphaned);
        StepSkip(cs, orphaned);
        assert [ws[0]] + (ws[1..] + Repaired(rest, orphaned)) == ws + Repaired(rest, orphaned);
      }
    }
  }

  /** A group of whitespace-only text followed by a node that is not inline stops at that node with nothing significant. */
  lemma {:induction false} WhitespaceGroup(cs: seq<Node>, k: nat, w: nat)
    requires k <= w <= |cs|
    requires forall m :: 0 <= m < w ==> cs[m].Text? && WhitespaceOnly(cs[m].text)
    requires w == |cs| || !IsInline(cs[w])
    ensures GroupEnd(cs, k) == GroupStop(w, Ended) && !HasSignificant(cs[..w])
    decreases w - k
  {
    if k < w {
      WhitespaceGroup(cs, k + 1, w);
    }
  }

  /**
   * The inner loop of processChildren: collect the group that starts at kids[i]. Every entry of
   * the children list is a child of the parent, so the source's `parent.contains` checks always pass.
   */
  method CollectGroup(kids: seq<Node>, i: nat) returns (j: nat, group: seq<Node>, kind: StopKind)
    requires i < |kids|
    ensures i <= j <= |kids| && group == kids[i..j]
    ensures GroupEnd(kids[i..], 0) == GroupStop(j - i, kind)
  {
    ghost var s := kids[i..];
    group := [];
    j := i;
    while j < |kids|
      invariant i <= j <= |kids| && group == kids[i..j]
      invariant GroupEnd(s, j - i) == GroupEnd(s, 0)
      decreases |kids| - j
    {
      var current := kids[j];
      assert current == s[j - i];
      if IsTag(current, "br") {
        group := group + [current];
        j := j + 1;
        kind := AfterBreak;
        return;
      }
      if BlockImage(current) {
        assert s[..j - i] == group;
        if |group| > 0 && HasSignificant(group) {
          kind := Ended;
        } else {
          kind := BeforeBlockImage;
        }
        return;
      }
      if IsInline(current) {
        assert GroupEnd(s, j - i) == GroupEnd(s, j - i + 1);
        group := group + [current];
        j := j + 1;
      } else {
        kind := Ended;
        return;
      }
    }
    kind := Ended;
  }

  /** The state of the walk: the children before i are final, the rest still to be repaired. */
  predicate Resumes(kids: seq<Node>, i: nat, target: seq<Node>, orphaned: bool)
    requires i <= |kids|
  {
    kids[..i] + Repaired(kids[i..], orphaned) == target
  }

  /**
   * processChildren: walk the children with index i; descend into blocks, collect and wrap the
   * groups of orphaned inline children, pass over the rest.
   */
  method ProcessChildren(children: seq<Node>, orphaned: bool) returns (kids: seq<Node>)
    ensures kids == Repaired(children, orphaned)
    decreases children
  {
    kids := children;
    var i := 0;
    while i < |kids|
      invariant 0 <= i <= |kids| && |kids| - i <= |children|
      invariant kids[i..] == children[|children| - (|kids| - i)..]
      invariant Resumes(kids, i, Repaired(children, orphaned), orphaned)
      decreases |kids| - i
    {
      var child := kids[i];
      assert child == children[|children| - (|kids| - i)];
      if IsBlock(child) {
        var sub := ProcessChildren(child.children, orphaned && child.tag !in ValidParents);
        BlockRound(kids, i, orphaned, sub, Repaired(children, orphaned));
        kids := kids[i := child.(children := sub)];
        i := i + 1;
      } else if orphaned && IsInline(child) {
        ghost var before, at := kids, i;
        kids, i := RepairGroup(kids, i, orphaned, Repaired(children, orphaned));
        SuffixOfSuffix(before, children, at, |children| - (|before| - at), |before| - (|kids| - i));
      } else {
        SkipRound(kids, i, orphaned, Repaired(children, orphaned));
        i := i + 1;
      }
    }
    assert kids[..i] == kids;
    assert kids[i..] == [];
  }

  lemma SuffixOfSuffix(a: seq<Node>, b: seq<Node>, x: nat, y: nat, z: nat)
    requires x <= z <= |a| && y <= |b| && a[x..] == b[y..]
    ensures a[z..] == b[y + z - x..]
  {
    assert a[z..] == a[x..][z - x..];
  }

  /**
   * One group round of processChildren, from an orphaned inline child at kids[i]: collect the
   * group; a group with something significant becomes a new paragraph and the walk resumes after
   * it; a whitespace-only group stays and the walk resumes after it. When the collection met a lone
   * block image, the image is moved into a paragraph of its own; the source then resumes AT that
   * paragraph, descends into it and finds nothing orphaned there (NotOrphanedUnchanged), so here
   * the walk resumes after it.
   */
  method RepairGroup(kids: seq<Node>, i: nat, orphaned: bool, ghost target: seq<Node>) returns (next: seq<Node>, k: nat)
    requires i < |kids| && orphaned && !IsBlock(kids[i]) && IsInline(kids[i])
    requires Resumes(kids, i, target, orphaned)
    ensures k <= |next| && |next| - k < |kids| - i
    ensures next[k..] == kids[|kids| - (|next| - k)..]
    ensures Resumes(next, k, target, orphaned)
  {
    var j, group, kind := CollectGroup(kids, i);
    if kind == BeforeBlockImage {
      ImageRound(kids, i, j, orphaned, target);
      next := kids[..j] + [NewParagraph([kids[j]])] + kids[j + 1..];
      k := j + 1;
    } else if HasSignificant(group) {
      WrapRound(kids, i, j, orphaned, target);
      next := kids[..i] + [NewParagraph(group)] + kids[j..];
      k := i + 1;
    } else {
      LeaveRound(kids, i, j, orphaned, target);
      next, k := kids, j;
    }
  }

  lemma BlockRound(kids: seq<Node>, i: nat, orphaned: bool, sub: seq<Node>, target: seq<Node>)
    requires i < |kids| && IsBlock(kids[i]) && Resumes(kids, i, target, orphaned)
    requires sub == Repaired(kids[i].children, orphaned && kids[i].tag !in ValidParents)
    ensures var next := kids[i := kids[i].(children := sub)];
      Resumes(next, i + 1, target, orphaned) && next[i + 1..] == kids[i + 1..]
  {
    StepBlock(kids[i..], orphaned);
    assert kids[i..][1..] == kids[i + 1..];
    var next := kids[i := kids[i].(children := sub)];
    assert next[..i + 1] == kids[..i] + [Descend(kids[i], orphaned)];
  }

  lemma SkipRound(kids: seq<Node>, i: nat, orphaned: bool, target: seq<Node>)
    requires i < |kids| && !IsBlock(kids[i]) && !(orphaned && IsInline(kids[i]))
    requires Resumes(kids, i, target, orphaned)
    ensures Resumes(kids, i + 1, target, orphaned)
  {
    StepSkip(kids[i..], orphaned);
    assert kids[i..][1..] == kids[i + 1..];
    assert kids[..i + 1] == kids[..i] + [kids[i]];
  }

  lemma WrapRound(kids: seq<Node>, i: nat, j: nat, orphaned: bool, target: seq<Node>)
    requires i < |kids| && orphaned && !IsBlock(kids[i]) && IsInline(kids[i]) && i <= j <= |kids|
    requires GroupEnd(kids[i..], 0).end == j - i && GroupEnd(kids[i..], 0).kind != BeforeBlockImage
    requires HasSignificant(kids[i..j]) && Resumes(kids, i, target, orphaned)
    ensures var next := kids[..i] + [NewParagraph(kids[i..j])] + kids[j..];
      Resumes(next, i + 1, target, orphaned) && next[i + 1..] == kids[j..] && i < j
  {
    var s := kids[i..];
    assert s[..j - i] == kids[i..j];
    assert s[j - i..] == kids[j..];
    GroupEndLeaves(s);
    StepWrap(s, orphaned);
    var next := kids[..i] + [NewParagraph(kids[i..j])] + kids[j..];
    assert next[..i + 1] == kids[..i] + [NewParagraph(kids[i..j])];
    assert next[i + 1..] == kids[j..];
  }

  lemma ImageRound(kids: seq<Node>, i: nat, j: nat, orphaned: bool, target: seq<Node>)
    requires i < |kids| && orphaned && !IsBlock(kids[i]) && IsInline(kids[i]) && i <= j
    requires GroupEnd(kids[i..], 0) == GroupStop(j - i, BeforeBlockImage)
    requires Resumes(kids, i, target, orphaned)
    ensures j < |kids|
    ensures var next := kids[..j] + [NewParagraph([kids[j]])] + kids[j + 1..];
      Resumes(next, j + 1, target, orphaned) && next[j + 1..] == kids[j + 1..] && |next| == |kids|
  {
    var s := kids[i..];
    StepImage(s, orphaned);
    assert s[..j - i] == kids[i..j];
    assert s[j - i] == kids[j];
    assert s[j - i + 1..] == kids[j + 1..];
    var next := kids[..j] + [NewParagraph([kids[j]])] + kids[j + 1..];
    assert next[..j + 1] == kids[..i] + kids[i..j] + [NewParagraph([kids[j]])];
    assert next[j + 1..] == kids[j + 1..];
  }

  lemma LeaveRound(kids: seq<Node>, i: nat, j: nat, orphaned: bool, target: seq<Node>)
    requires i < |kids| && orphaned && !IsBlock(kids[i]) && IsInline(kids[i]) && i <= j <= |kids|
    requires GroupEnd(kids[i..], 0).end == j - i && GroupEnd(kids[i..], 0).kind != BeforeBlockImage
    requires !HasSignificant(kids[i..j]) && Resumes(kids, i, target, orphaned)
    ensures Resumes(kids, j, target, orphaned) && i < j
  {
    var s := kids[i..];
    assert s[..j - i] == kids[i..j];
    assert s[j - i..] == kids[j..];
    GroupEndLeaves(s);
    StepLeave(s, orphaned);
    assert kids[..j] == kids[..i] + kids[i..j];
  }

  /** group_orphaned_elements on the container: its children are orphaned. */
  method GroupOrphanedElements(container: Node) returns (result: Node)
    requires container.Element?
    ensures result == container.(children := Repaired(container.children, true))
  {
    var children := ProcessChildren(container.children, true);
    result := container.(children := children);
  }

  /** The repaired list starts with a node that is not inline when the original one did. */
  lemma RepairedHeadNotInline(rest: seq<Node>, orphaned: bool)
    requires rest == [] || !IsInline(rest[0])
    ensures var r := Repaired(rest, orphaned); r == [] || !IsInline(r[0])
  {
    if rest != [] {
      if IsBlock(rest[0]) {
        StepBlock(rest, orphaned);
      } else {
        StepSkip(rest, orphaned);
      }
    }
  }

  /** A group with nothing significant in it is made of whitespace-only text. */
  lemma GroupIsWhitespace(cs: seq<Node>, n: nat)
    requires n <= |cs|
    requires forall m :: 0 <= m < n ==> IsInline(cs[m])
    requires !HasSignificant(cs[..n])
    ensures forall m :: 0 <= m < n ==> cs[m].Text? && WhitespaceOnly(cs[m].text)
  {
    forall m | 0 <= m < n
      ensures cs[m].Text? && WhitespaceOnly(cs[m].text)
    {
      assert cs[..n][m] == cs[m];
    }
  }

  /** A new paragraph met by the pass again is left as it is: its children are no longer orphaned. */
  lemma NewParagraphKept(g: seq<Node>, orphaned: bool)
    ensures Descend(NewParagraph(g), orphaned) == NewParagraph(g)
  {
    NotOrphanedUnchanged(g);
  }

  /** The repair is idempotent: repairing a repaired list of siblings changes nothing. */
  lemma {:induction false} RepairedIdempotent(cs: seq<Node>, orphaned: bool)
    ensures Repaired(Repaired(cs, orphaned), orphaned) == Repaired(cs, orphaned)
    decreases cs, 1
  {
    var r := Repaired(cs, orphaned);
    if cs == [] {
    } else if IsBlock(cs[0]) {
      StepBlock(cs, orphaned);
      StepBlock(r, orphaned);
      assert r[1..] == Repaired(cs[1..], orphaned);
      DescendIdempotent(cs[0], orphaned);
      RepairedIdempotent(cs[1..], orphaned);
    } else if !(orphaned && IsInline(cs[0])) {
      StepSkip(cs, orphaned);
      StepSkip(r, orphaned);
      assert r[1..] == Repaired(cs[1..], orphaned);
      RepairedIdempotent(cs[1..], orphaned);
    } else {
      var stop := GroupEnd(cs, 0);
      var n := stop.end;
      GroupEndShape(cs, 0);
      GroupEndLeaves(cs);
      if stop.kind == BeforeBlockImage {
        ImageIdempotent(cs, orphaned, n);
      } else if HasSignificant(cs[..n]) {
        WrapIdempotent(cs, orphaned, n);
      } else {
        if stop.kind == AfterBreak {
          assert Significant(cs[..n][n - 1]);
        }
        LeaveIdempotent(cs, orphaned, n);
      }
    }
  }

  /** The idempotence for a lone block image with whitespace before it. */
  lemma {:induction false} ImageIdempotent(cs: seq<Node>, orphaned: bool, n: nat)
    requires orphaned && cs != [] && !IsBlock(cs[0]) && IsInline(cs[0])
    requires GroupEnd(cs, 0) == GroupStop(n, BeforeBlockImage)
    requires forall m :: 0 <= m < n ==> IsInline(cs[m])
    requires !HasSignificant(cs[..n])
    ensures Repaired(Repaired(cs, orphaned), orphaned) == Repaired(cs, orphaned)
    decreases cs, 0
  {
    var rest := Repaired(cs[n + 1..], orphaned);
    var p := NewParagraph([cs[n]]);
    StepImage(cs, orphaned);
    GroupIsWhitespace(cs, n);
    assert Repaired(cs, orphaned) == cs[..n] + ([p] + rest);
    WhitespaceLeftInPlace(cs[..n], [p] + rest, orphaned);
    StepBlock([p] + rest, orphaned);
    assert ([p] + rest)[1..] == rest;
    NewParagraphKept([cs[n]], orphaned);
    RepairedIdempotent(cs[n + 1..], orphaned);
  }

  /** The idempotence for a significant group wrapped in a new paragraph. */
  lemma {:induction false} WrapIdempotent(cs: seq<Node>, orphaned: bool, n: nat)
    requires orphaned && cs != [] && !IsBlock(cs[0]) && IsInline(cs[0])
    requires GroupEnd(cs, 0).kind != BeforeBlockImage && GroupEnd(cs, 0).end == n
    requires 0 < n && HasSignificant(cs[..n])
    ensures Repaired(Repaired(cs, orphaned), orphaned) == Repaired(cs, orphaned)
    decreases cs, 0
  {
    var rest := Repaired(cs[n..], orphaned);
    var p := NewParagraph(cs[..n]);
    StepWrap(cs, orphaned);
    StepBlock([p] + rest, orphaned);
    assert ([p] + rest)[1..] == rest;
    NewParagraphKept(cs[..n], orphaned);
    RepairedIdempotent(cs[n..], orphaned);
  }

  /** The idempotence for a whitespace-only group left in place. */
  lemma {:induction false} LeaveIdempotent(cs: seq<Node>, orphaned: bool, n: nat)
    requires orphaned && cs != [] && !IsBlock(cs[0]) && IsInline(cs[0])
    requires GroupEnd(cs, 0).kind != BeforeBlockImage && GroupEnd(cs, 0).end == n
    requires 0 < n && !HasSignificant(cs[..n])
    requires forall m :: 0 <= m < n ==> IsInline(cs[m])
    requires n == |cs| || !IsInline(cs[n])
    ensures Repaired(Repaired(cs, orphaned), orphaned) == Repaired(cs, orphaned)
    decreases cs, 0
  {
    var rest := Repaired(cs[n..], orphaned);
    StepLeave(cs, orphaned);
    GroupIsWhitespace(cs, n);
    RepairedHeadNotInline(cs[n..], orphaned);
    WhitespaceLeftInPlace(cs[..n], rest, orphaned);
    RepairedIdempotent(cs[n..], orphaned);
  }

  /** Descending into a node twice gives what descending once does. */
  lemma {:induction false} DescendIdempotent(c: Node, orphaned: bool)
    ensures Descend(Descend(c, orphaned), orphaned) == Descend(c, orphaned)
    decreases c
  {
    if IsBlock(c) {
      var inner := orphaned && c.tag !in ValidParents;
      RepairedIdempotent(c.children, inner);
    }
  }

  /** Repairing the result of group_orphaned_elements again changes nothing. */
  lemma ContainerIdempotent(container: Node)
    requires container.Element?
    ensures var once := container.(children := Repaired(container.children, true));
      once.(children := Repaired(once.children, true)) == once
  {
    RepairedIdempotent(container.children, true);
  }
}
