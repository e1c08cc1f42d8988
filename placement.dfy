/**
 * Where an image floats (parse_image_floating) and how a paragraph is aligned (get_align),
 * both read from the element's style attribute.
 */
module Placement {
  import opened Wrappers
  import opened Strings
  import opened Declarations

  datatype HorizontalAlign = HorizontalCenter | HorizontalLeft | HorizontalRight
  datatype WrapType = TopAndBottom | Square
  datatype WrapSide = BothSides | WrapRight | WrapLeft

  /** Every floating image is positioned relative to the column horizontally and to the top margin vertically. */
  datatype HorizontalRelative = Column
  datatype VerticalRelative = TopMargin
  datatype VerticalAlign = Top

  datatype Margins = Margins(top: int, right: int, bottom: int, left: int)

  datatype Floating = Floating(
    horizontalRelative: HorizontalRelative, horizontalAlign: HorizontalAlign,
    verticalRelative: VerticalRelative, verticalAlign: VerticalAlign,
    margin: Margins, wrapType: WrapType, wrapSide: WrapSide)

  /** The margin given to every floating image, in EMU. */
  const ImageMargin: int := 360000

  function FloatingWith(align: HorizontalAlign, wrapType: WrapType, wrapSide: WrapSide): Floating {
    Floating(Column, align, TopMargin, Top,
             Margins(ImageMargin, ImageMargin, ImageMargin, ImageMargin), wrapType, wrapSide)
  }

  /** The floating of an image with the declarations d; None means inline. */
  function FloatingOf(d: map<string, string>): (r: Option<Floating>)
    ensures r.Some? ==> r.value.margin == Margins(ImageMargin, ImageMargin, ImageMargin, ImageMargin)
    ensures r.Some? ==> r.value.verticalRelative == TopMargin && r.value.verticalAlign == Top
  {
    if Lookup(d, "margin-left") == Some("auto") && Lookup(d, "margin-right") == Some("auto") then
      Some(FloatingWith(HorizontalCenter, TopAndBottom, BothSides))
    else if Lookup(d, "float") == Some("left") then
      Some(FloatingWith(HorizontalLeft, Square, WrapRight))
    else if Lookup(d, "float") == Some("right") then
      Some(FloatingWith(HorizontalRight, Square, WrapLeft))
    else None
  }

  /** parse_image_floating: read the declarations, then decide the floating. */
  method ParseImageFloating(attr: Option<string>) returns (r: Option<Floating>)
    ensures r == FloatingOf(DeclarationsOf(attr))
  {
    var d := ParseDeclarations(attr);
    r := FloatingOf(d);
  }

  /** Auto margins on both sides centre the image with top-and-bottom wrapping, whatever float says. */
  lemma AutoMarginsCenter(d: map<string, string>)
    requires Lookup(d, "margin-left") == Some("auto") && Lookup(d, "margin-right") == Some("auto")
    ensures FloatingOf(d).Some?
    ensures FloatingOf(d).value.horizontalAlign == HorizontalCenter
    ensures FloatingOf(d).value.wrapType == TopAndBottom && FloatingOf(d).value.wrapSide == BothSides
  {
  }

  /** float: left aligns left with square wrapping on the right, unless both margins are auto. */
  lemma FloatLeft(d: map<string, string>)
    requires Lookup(d, "float") == Some("left")
    requires !(Lookup(d, "margin-left") == Some("auto") && Lookup(d, "margin-right") == Some("auto"))
    ensures FloatingOf(d) == Some(FloatingWith(HorizontalLeft, Square, WrapRight))
  {
  }

  /** float: right aligns right with square wrapping on the left, unless both margins are auto. */
  lemma FloatRight(d: map<string, string>)
    requires Lookup(d, "float") == Some("right")
    requires !(Lookup(d, "margin-left") == Some("auto") && Lookup(d, "margin-right") == Some("auto"))
    ensures FloatingOf(d) == Some(FloatingWith(HorizontalRight, Square, WrapLeft))
  {
  }

  /** An image floats exactly when both margins are auto or float is left or right. */
  lemma FloatsIff(d: map<string, string>)
    ensures FloatingOf(d).Some? <==>
      (Lookup(d, "margin-left") == Some("auto") && Lookup(d, "margin-right") == Some("auto")) ||
      Lookup(d, "float") == Some("left") || Lookup(d, "float") == Some("right")
  {
  }

  /** Paragraph alignment. */
  datatype Alignment = Left | Center | Justified | Right

  /** One pair of get_align: split on ':' without trimming first, skipped unless there are exactly two parts. */
  function AlignPair(pair: string): Option<(string, string)> {
    var parts := Split(pair, ':');
    if |parts| != 2 then None else Some((Trim(parts[0]), Trim(parts[1])))
  }

  /** The dictionary get_align builds from the pairs in order. */
  function AlignMap(pairs: seq<string>): map<string, string>
    decreases |pairs|
  {
    if pairs == [] then map[]
    else
      var m := AlignMap(pairs[..|pairs| - 1]);
      match AlignPair(pairs[|pairs| - 1])
      case Some(kv) => m[kv.0 := kv.1]
      case None => m
  }

  /** The alignment for a text-align value; anything unrecognised (or no value) is left. */
  function AlignmentFor(value: Option<string>): Alignment {
    if value == Some("center") then Center
    else if value == Some("justify") then Justified
    else if value == Some("right") then Right
    else Left
  }

  /** The alignment of an element with the style attribute attr. */
  function AlignOf(attr: Option<string>): Alignment {
    match attr
    case None => Left
    case Some(s) => AlignmentFor(Lookup(AlignMap(Split(s, ';')), "text-align"))
  }

  /** get_align: no style attribute means left; otherwise the pairs are read in a loop and text-align decides. */
  method GetAlign(attr: Option<string>) returns (a: Alignment)
    ensures a == AlignOf(attr)
  {
    if attr == None {
      return Left;
    }
    var pairs := Split(attr.value, ';');
    var style: map<string, string> := map[];
    var i := 0;
    while i < |pairs|
      invariant 0 <= i <= |pairs|
      invariant style == AlignMap(pairs[..i])
    {
      var parts := Split(pairs[i], ':');
      if |parts| == 2 {
        style := style[Trim(parts[0]) := Trim(parts[1])];
      }
      assert pairs[..i + 1][..i] == pairs[..i];
      i := i + 1;
    }
    assert pairs[..|pairs|] == pairs;
    a := AlignmentFor(Lookup(style, "text-align"));
  }

  /** A pair that sets text-align. */
  predicate SetsAlign(pair: string) {
    AlignPair(pair).Some? && AlignPair(pair).value.0 == "text-align"
  }

  /**
   * The last well-formed text-align pair decides the alignment, wherever it stands: the pairs
   * after it (an empty piece after a final ';', other declarations) leave it in place.
   */
  lemma {:induction false} AlignLast(pairs: seq<string>, i: nat, value: string)
    requires i < |pairs| && AlignPair(pairs[i]) == Some(("text-align", value))
    requires forall j :: i < j < |pairs| ==> !SetsAlign(pairs[j])
    ensures Lookup(AlignMap(pairs), "text-align") == Some(value)
    ensures AlignmentFor(Lookup(AlignMap(pairs), "text-align")) == AlignmentFor(Some(value))
    decreases |pairs|
  {
    var init := pairs[..|pairs| - 1];
    if i < |pairs| - 1 {
      assert !SetsAlign(pairs[|pairs| - 1]);
      forall j | i < j < |init| ensures !SetsAlign(init[j]) {
        assert init[j] == pairs[j];
      }
      AlignLast(init, i, value);
    }
  }

  /** A text-align declaration followed by ';' still decides: the empty piece after it is skipped. */
  lemma TrailingSemicolon(decl: string, value: string)
    requires ';' !in decl && AlignPair(decl) == Some(("text-align", value))
    ensures AlignOf(Some(decl + ";")) == AlignmentFor(Some(value))
  {
    var pairs := Split(decl + ";", ';');
    assert pairs == [decl, ""] by {
      assert decl + ";" == decl + [';'] + "";
      SplitCons(decl, ';', "");
      SplitNoSepIsSingleton("", ';');
    }
    assert !SetsAlign("") by {
      SplitNoSepIsSingleton("", ':');
    }
    AlignLast(pairs, 0, value);
  }

  /** style="text-align: center;" is centred. */
  lemma CenterWithSemicolon()
    ensures AlignOf(Some("text-align: center;")) == Center
  {
    CenterText();
    CenterWords();
    WordPlain("text-align");
    WordPlain("center");
    WordPair("text-align", "center");
    assert ';' !in ": ";
    TrailingSemicolon("text-align" + ": " + "center", "center");
  }

  lemma CenterText()
    ensures "text-align: center;" == "text-align" + ": " + "center" + ";"
  {
  }

  lemma CenterWords()
    ensures Word("text-align") && Word("center")
  {
  }

  /** A pair "k: v" of two words is read as k and v. */
  lemma WordPair(k: string, v: string)
    requires Word(k) && Word(v)
    ensures AlignPair(k + ": " + v) == Some((k, v))
  {
    WordPlain(k);
    WordPlain(v);
    assert k + ": " + v == k + [':'] + (" " + v);
    SplitCons(k, ':', " " + v);
    SplitNoSepIsSingleton(" " + v, ':');
    TrimNoSpace(k);
    assert Trim(" " + v) == v by {
      assert (" " + v)[1..] == v;
      assert TrimStart(" " + v) == TrimStart(v);
      TrimNoSpace(v);
    }
  }

  /** Without a text-align pair the alignment is left. */
  lemma {:induction false} AlignWithoutTextAlign(pairs: seq<string>)
    requires forall i :: 0 <= i < |pairs| ==> !SetsAlign(pairs[i])
    ensures "text-align" !in AlignMap(pairs)
    decreases |pairs|
  {
    if pairs != [] {
      var init := pairs[..|pairs| - 1];
      forall i | 0 <= i < |init|
        ensures !SetsAlign(init[i])
      {
        assert init[i] == pairs[i];
      }
      AlignWithoutTextAlign(init);
    }
  }

  /** An element without a style attribute is left-aligned. */
  lemma NoStyleLeft()
    ensures AlignOf(None) == Left
  {
  }
}
