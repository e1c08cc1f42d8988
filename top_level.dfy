/**
 * Which elements of the document become top-level blocks: every p, pre, table, h1-h6, ul, ol, div,
 * figure and figcaption, in document order, except those inside another such element. When there
 * is none, the body's markup is cut into lines and each non-empty line becomes a paragraph.
 */
module TopLevel {
  import opened Wrappers
  import opened Strings
  import opened Dom

  /** The position of a node below the body: the child index at each level. */
  type Path = seq<nat>

  /** One node found by the query, with its position. */
  datatype Match = Match(path: Path, node: Node)

  /** The selector `p,pre,table,h1,h2,h3,h4,h5,h6,ul,ol,div,figure,figcaption`. */
  predicate Selectable(n: Node) {
    n.Element? && n.tag in ValidParents
  }

  /** querySelectorAll over cs[from..] (below the position prefix): matches in document order. */
  function Matches(cs: seq<Node>, from: nat, prefix: Path): seq<Match>
    requires from <= |cs|
    decreases cs, |cs| - from
  {
    if from == |cs| then []
    else
      var c := cs[from];
      var here := prefix + [from];
      (if Selectable(c) then [Match(here, c)] else []) +
      (if c.Element? then Matches(c.children, 0, here) else []) +
      Matches(cs, from + 1, prefix)
  }

  /** The query over the whole body. */
  function QueryAll(body: Node): seq<Match> {
    if body.Element? then Matches(body.children, 0, []) else []
  }

  /** No other match contains m: no match sits at a proper prefix of m's position. */
  predicate Outermost(all: seq<Match>, m: Match) {
    !exists k :: 0 <= k < |all| && all[k].path < m.path
  }

  /** `nodes.filter(node => !nodes.filter(el => el != node).some(el => el.contains(node)))`, over xs. */
  function KeepOutermost(all: seq<Match>, xs: seq<Match>): (r: seq<Match>)
    ensures |r| <= |xs|
  {
    if xs == [] then []
    else (if Outermost(all, xs[0]) then [xs[0]] else []) + KeepOutermost(all, xs[1..])
  }

  function TopLevelMatches(all: seq<Match>): seq<Match> {
    KeepOutermost(all, all)
  }

  /** A match is kept exactly when it is one of xs and no match contains it. */
  lemma {:induction false} KeepMembership(all: seq<Match>, xs: seq<Match>, m: Match)
    ensures m in KeepOutermost(all, xs) <==> m in xs && Outermost(all, m)
    decreases |xs|
  {
    if xs != [] {
      KeepMembership(all, xs[1..], m);
      assert xs == [xs[0]] + xs[1..];
    }
  }

  /** No kept node lies inside another kept node. */
  lemma NoKeptInsideKept(all: seq<Match>, a: Match, b: Match)
    requires a in TopLevelMatches(all) && b in TopLevelMatches(all)
    ensures !(a.path < b.path)
  {
    KeepMembership(all, all, a);
    KeepMembership(all, all, b);
    var k :| 0 <= k < |all| && all[k] == a;
  }

  /** Every match that is not kept lies inside a kept one. */
  lemma {:induction false} KeptCovers(all: seq<Match>, m: Match)
    requires m in all
    ensures m in TopLevelMatches(all) || exists t :: t in TopLevelMatches(all) && t.path < m.path
    decreases |m.path|
  {
    KeepMembership(all, all, m);
    if !Outermost(all, m) {
      var k :| 0 <= k < |all| && all[k].path < m.path;
      var p := all[k];
      KeptCovers(all, p);
      if p in TopLevelMatches(all) {
      } else {
        var t :| t in TopLevelMatches(all) && t.path < p.path;
        assert t.path < m.path;
      }
    }
  }

  /** Every match is a selectable element found below the given position. */
  lemma {:induction false} MatchesSelectable(cs: seq<Node>, from: nat, prefix: Path)
    requires from <= |cs|
    ensures forall m :: m in Matches(cs, from, prefix) ==> Selectable(m.node) && prefix < m.path
    decreases cs, |cs| - from
  {
    if from < |cs| {
      var c := cs[from];
      var here := prefix + [from];
      if c.Element? {
        MatchesSelectable(c.children, 0, here);
      }
      MatchesSelectable(cs, from + 1, prefix);
      assert prefix < here;
    }
  }

  /** Every kept match is a selectable element. */
  lemma KeptSelectable(body: Node)
    ensures forall m :: m in TopLevelMatches(QueryAll(body)) ==> Selectable(m.node)
  {
    if body.Element? {
      MatchesSelectable(body.children, 0, []);
    }
    forall m | m in TopLevelMatches(QueryAll(body)) ensures Selectable(m.node) {
      KeepMembership(QueryAll(body), QueryAll(body), m);
    }
  }

  /** The top-level nodes of a body, or [] when the query keeps nothing. */
  function Selected(body: Node): (r: seq<Node>)
    ensures forall k :: 0 <= k < |r| ==> Selectable(r[k])
  {
    var kept := TopLevelMatches(QueryAll(body));
    KeptSelectable(body);
    seq(|kept|, k requires 0 <= k < |kept| => kept[k].node)
  }

  // wrap_lines_in_p

  /** The three spellings of a line break, each replaced by a newline. */
  function BreaksToNewlines(html: string): string {
    ReplaceAll(ReplaceAll(ReplaceAll(html, "<br>", "\n"), "<br/>", "\n"), "<br />", "\n")
  }

  /** The pieces of the markup between newlines, once line breaks are newlines. */
  function Pieces(html: string): seq<string> {
    Split(BreaksToNewlines(html), '\n')
  }

  /** `.map(line => line.trim())`. */
  function TrimEach(parts: seq<string>): (r: seq<string>)
    ensures |r| == |parts| && forall k :: 0 <= k < |r| ==> r[k] == Trim(parts[k])
  {
    if parts == [] then [] else [Trim(parts[0])] + TrimEach(parts[1..])
  }

  /** `.filter(line => line)`: the empty strings are dropped, the others kept. */
  function NonEmpty(parts: seq<string>): (r: seq<string>)
    ensures |r| <= |parts|
    ensures forall x :: x in r <==> x in parts && x != ""
  {
    if parts == [] then [] else (if parts[0] != "" then [parts[0]] else []) + NonEmpty(parts[1..])
  }

  /** The positions of the non-empty parts, in increasing order. */
  function NonEmptyPositions(parts: seq<string>): seq<nat> {
    if parts == [] then []
    else
      var later := NonEmptyPositions(parts[1..]);
      (if parts[0] != "" then [0] else []) + Shifted(later)
  }

  /** r holds the parts at positions pos, which increase and are exactly the non-empty parts' positions. */
  predicate KeptAt(parts: seq<string>, r: seq<string>, pos: seq<nat>) {
    |pos| == |r| &&
    (forall k :: 0 <= k < |pos| ==> pos[k] < |parts| && r[k] == parts[pos[k]]) &&
    (forall k, l :: 0 <= k < l < |pos| ==> pos[k] < pos[l]) &&
    (forall j :: 0 <= j < |parts| ==> (parts[j] != "" <==> j in pos))
  }

  /** The filter keeps every non-empty part, once, in its original order, and nothing else. */
  lemma NonEmptyKept(parts: seq<string>)
    ensures KeptAt(parts, NonEmpty(parts), NonEmptyPositions(parts))
  {
    PositionsAt(parts);
    PositionsIncrease(parts);
    PositionsExact(parts);
  }

  /** The later positions, one further on. */
  function Shifted(later: seq<nat>): (r: seq<nat>)
    ensures |r| == |later| && forall k :: 0 <= k < |r| ==> r[k] == later[k] + 1
  {
    seq(|later|, k requires 0 <= k < |later| => later[k] + 1)
  }

  lemma NonEmptyPositionsCons(parts: seq<string>)
    requires parts != []
    ensures NonEmptyPositions(parts) == (if parts[0] != "" then [0] else []) + Shifted(NonEmptyPositions(parts[1..]))
  {
  }

  /** The k-th kept part is the part at the k-th position. */
  lemma {:induction false} PositionsAt(parts: seq<string>)
    ensures |NonEmptyPositions(parts)| == |NonEmpty(parts)|
    ensures forall k :: 0 <= k < |NonEmptyPositions(parts)| ==>
      NonEmptyPositions(parts)[k] < |parts| && NonEmpty(parts)[k] == parts[NonEmptyPositions(parts)[k]]
    decreases |parts|
  {
    if parts != [] {
      var tail := parts[1..];
      PositionsAt(tail);
      NonEmptyPositionsCons(parts);
      var later := NonEmptyPositions(tail);
      var head := if parts[0] != "" then [0] else [];
      var pos := head + Shifted(later);
      var r := NonEmpty(parts);
      assert r == (if parts[0] != "" then [parts[0]] else []) + NonEmpty(tail);
      forall k | 0 <= k < |pos| ensures pos[k] < |parts| && r[k] == parts[pos[k]] {
        if k >= |head| {
          assert pos[k] == later[k - |head|] + 1;
          assert r[k] == NonEmpty(tail)[k - |head|];
          assert tail[later[k - |head|]] == parts[pos[k]];
        }
      }
    }
  }

  /** The positions increase. */
  lemma {:induction false} PositionsIncrease(parts: seq<string>)
    ensures forall k, l :: 0 <= k < l < |NonEmptyPositions(parts)| ==> NonEmptyPositions(parts)[k] < NonEmptyPositions(parts)[l]
    decreases |parts|
  {
    if parts != [] {
      var tail := parts[1..];
      PositionsIncrease(tail);
      NonEmptyPositionsCons(parts);
      var later := NonEmptyPositions(tail);
      var head := if parts[0] != "" then [0] else [];
      var pos := head + Shifted(later);
      assert |pos| == |head| + |later|;
      forall k, l | 0 <= k < l < |pos| ensures pos[k] < pos[l] {
        assert pos[l] == later[l - |head|] + 1;
        if k < |head| {
          assert pos[k] == 0;
        } else {
          assert pos[k] == later[k - |head|] + 1;
        }
      }
    }
  }

  /** A position is listed exactly when its part is not empty. */
  lemma {:induction false} PositionsExact(parts: seq<string>)
    ensures forall j :: 0 <= j < |parts| ==> (parts[j] != "" <==> j in NonEmptyPositions(parts))
    decreases |parts|
  {
    if parts != [] {
      var tail := parts[1..];
      PositionsExact(tail);
      NonEmptyPositionsCons(parts);
      var later := NonEmptyPositions(tail);
      var head := if parts[0] != "" then [0] else [];
      var pos := head + Shifted(later);
      forall j | 0 < j < |parts| ensures parts[j] != "" <==> j in pos {
        assert parts[j] == tail[j - 1];
        ShiftedMember(later, j - 1);
      }
    }
  }

  lemma ShiftedMember(later: seq<nat>, i: nat)
    ensures i in later <==> i + 1 in Shifted(later)
  {
    if i in later {
      var m :| 0 <= m < |later| && later[m] == i;
      assert Shifted(later)[m] == i + 1;
    }
  }

  /** The lines of the body's markup. */
  function Lines(html: string): seq<string> {
    NonEmpty(TrimEach(Pieces(html)))
  }

  /** One `<p>${line}</p>` per line. */
  function Paragraphs(lines: seq<string>): (r: seq<string>)
    ensures |r| == |lines| && forall k :: 0 <= k < |r| ==> r[k] == "<p>" + lines[k] + "</p>"
  {
    if lines == [] then [] else ["<p>" + lines[0] + "</p>"] + Paragraphs(lines[1..])
  }

  /** wrap_lines_in_p. */
  function WrapLinesInP(html: string): string {
    Join(Paragraphs(Lines(html)), "\n")
  }

  /** Every line is non-empty, already trimmed and holds no newline. */
  lemma LinesShape(html: string)
    ensures forall l :: l in Lines(html) ==> l != "" && Trim(l) == l && '\n' !in l
  {
    var parts := Pieces(html);
    SplitNoSep(BreaksToNewlines(html), '\n');
    var trimmed := TrimEach(parts);
    forall l | l in Lines(html) ensures l != "" && Trim(l) == l && '\n' !in l {
      var k :| 0 <= k < |trimmed| && trimmed[k] == l;
      TrimTrimmed(parts[k]);
      TrimChars(parts[k]);
    }
  }

  /**
   * The lines are the trimmed pieces that are not blank, each once and in the order of the pieces:
   * the k-th line is the trimmed piece at position pos[k], and the positions increase and are
   * exactly those of the pieces that do not trim to "".
   */
  lemma LinesOfPieces(html: string)
    ensures KeptAt(TrimEach(Pieces(html)), Lines(html), NonEmptyPositions(TrimEach(Pieces(html))))
    ensures var pos := NonEmptyPositions(TrimEach(Pieces(html)));
      forall k :: 0 <= k < |pos| ==> pos[k] < |Pieces(html)| && Lines(html)[k] == Trim(Pieces(html)[pos[k]])
  {
    NonEmptyKept(TrimEach(Pieces(html)));
  }

  /** The result holds one `<p>line</p>` per line on a line of its own, and is "" when there is no line. */
  lemma WrapLinesSplit(html: string)
    ensures Lines(html) == [] ==> WrapLinesInP(html) == ""
    ensures Lines(html) != [] ==> Split(WrapLinesInP(html), '\n') == Paragraphs(Lines(html))
  {
    var ls := Lines(html);
    var ps := Paragraphs(ls);
    if ls != [] {
      LinesShape(html);
      forall k | 0 <= k < |ps| ensures '\n' !in ps[k] {
        assert ls[k] in ls;
        assert ps[k] == "<p>" + ls[k] + "</p>";
      }
      JoinSplit(ps, '\n');
    }
  }

  /** A body whose markup is one line (no newline and no line break) gives one paragraph of its trimmed text, unless it is blank. */
  lemma SingleLine(html: string)
    requires '\n' !in BreaksToNewlines(html)
    ensures Trim(html) != "" ==> Lines(html) == [Trim(html)]
    ensures Trim(html) != "" ==> WrapLinesInP(html) == "<p>" + Trim(html) + "</p>"
    ensures Trim(html) == "" ==> Lines(html) == [] && WrapLinesInP(html) == ""
  {
    var r1 := ReplaceAll(html, "<br>", "\n");
    var r2 := ReplaceAll(r1, "<br/>", "\n");
    ReplaceAllUnchanged(r2, "<br />", "\n");
    ReplaceAllUnchanged(r1, "<br/>", "\n");
    ReplaceAllUnchanged(html, "<br>", "\n");
    assert BreaksToNewlines(html) == html;
    SplitNoSepIsSingleton(html, '\n');
    assert TrimEach([html]) == [Trim(html)];
  }

  /** There is no paragraph exactly when every piece is blank. */
  lemma BlankNoLines(html: string)
    ensures Lines(html) == [] <==> forall j :: 0 <= j < |Pieces(html)| ==> Trim(Pieces(html)[j]) == ""
    ensures Lines(html) == [] ==> WrapLinesInP(html) == ""
  {
    var trimmed := TrimEach(Pieces(html));
    NonEmptyKept(trimmed);
    if Lines(html) != [] {
      var l := Lines(html)[0];
      assert l in trimmed && l != "";
    }
  }

  /** A body of white space only, newlines included, gives no paragraph. */
  lemma WhiteSpaceBody(html: string)
    requires forall k :: 0 <= k < |html| ==> IsSpace(html[k])
    ensures Lines(html) == [] && WrapLinesInP(html) == ""
  {
    assert '<' !in html;
    ReplaceAllAbsent(html, "<br>", "\n");
    ReplaceAllAbsent(html, "<br/>", "\n");
    ReplaceAllAbsent(html, "<br />", "\n");
    var parts := Pieces(html);
    SplitChars(html, '\n');
    forall j | 0 <= j < |parts| ensures Trim(parts[j]) == "" {
      forall c | c in parts[j] ensures IsSpace(c) {
        assert c in html;
        var k :| 0 <= k < |html| && html[k] == c;
      }
      BlankTrimmed(parts[j]);
    }
    BlankNoLines(html);
  }

  lemma {:induction false} BlankTrimmed(s: string)
    requires forall c :: c in s ==> IsSpace(c)
    ensures Trim(s) == ""
    decreases |s|
  {
    if s != [] {
      assert s[0] in s;
      assert forall c :: c in s[1..] ==> c in s;
      BlankTrimmed(s[1..]);
      assert TrimStart(s) == TrimStart(s[1..]);
    }
  }
}
