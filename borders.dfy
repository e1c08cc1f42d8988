/**
 * parse_border: the four paragraph borders read from the `border` shorthand and the
 * `border-left/right/top/bottom` longhands of a style attribute. Each value is read as
 * `size style color...`: the size goes through to_halfpoint and is multiplied by 4, the colour
 * words are joined, trimmed and passed through to_hex.
 */
module Borders {
  import opened Wrappers
  import opened Strings
  import opened Units
  import opened Declarations

  /** One border: `{color, size, space: 1, style: 'single'}`. */
  datatype Side = Side(color: Option<string>, size: int, space: int, style: string)

  /** The sides left undefined are None. */
  datatype Borders = Borders(top: Option<Side>, right: Option<Side>, bottom: Option<Side>, left: Option<Side>)

  /** The size word of a border value (the first space-separated part). */
  function SizeWord(value: string): string {
    Split(value, ' ')[0]
  }

  /** The colour words of a border value: every part after the second, joined without separator and trimmed. */
  function ColorWords(value: string): string {
    var parts := Split(value, ' ');
    Trim(if |parts| > 2 then Join(parts[2..], "") else "")
  }

  /** The side a border value describes; a size to_halfpoint rejects multiplies null, which gives 0. */
  function SideOf(value: string): (s: Side)
    ensures s.space == 1 && s.style == "single"
  {
    var hp := ToHalfPoint(Some(SizeWord(value)));
    Side(ToHex(Some(ColorWords(value))), 4 * hp.GetOr(0), 1, "single")
  }

  /** A side is read from its longhand when there is one, else from the shorthand, else it stays undefined. */
  function SideFrom(d: map<string, string>, longhand: string): Option<Side> {
    if longhand in d then Some(SideOf(d[longhand]))
    else if "border" in d then Some(SideOf(d["border"]))
    else None
  }

  /** The borders of the declarations d. */
  function BordersOf(d: map<string, string>): Borders {
    Borders(SideFrom(d, "border-top"), SideFrom(d, "border-right"),
            SideFrom(d, "border-bottom"), SideFrom(d, "border-left"))
  }

  /** parse_border: read the declarations, then apply the shorthand and the four longhands in order. */
  method ParseBorder(attr: Option<string>) returns (b: Borders)
    ensures b == BordersOf(DeclarationsOf(attr))
  {
    var d := ParseDeclarations(attr);
    var top, right, bottom, left := None, None, None, None;
    if "border" in d {
      var side := SideOf(d["border"]);
      top, right, bottom, left := Some(side), Some(side), Some(side), Some(side);
    }
    if "border-left" in d {
      left := Some(SideOf(d["border-left"]));
    }
    if "border-right" in d {
      right := Some(SideOf(d["border-right"]));
    }
    if "border-top" in d {
      top := Some(SideOf(d["border-top"]));
    }
    if "border-bottom" in d {
      bottom := Some(SideOf(d["border-bottom"]));
    }
    b := Borders(top, right, bottom, left);
  }

  /** The shorthand alone sets all four sides to the same border. */
  lemma ShorthandOnly(d: map<string, string>)
    requires "border" in d
    requires "border-top" !in d && "border-right" !in d && "border-bottom" !in d && "border-left" !in d
    ensures var b := BordersOf(d);
      b.top == b.right == b.bottom == b.left == Some(SideOf(d["border"]))
  {
  }

  /** Without any border declaration every side is undefined. */
  lemma NoBorders(d: map<string, string>)
    requires "border" !in d
    requires "border-top" !in d && "border-right" !in d && "border-bottom" !in d && "border-left" !in d
    ensures BordersOf(d) == Borders(None, None, None, None)
  {
  }

  /** Declaring border-left changes the left side only. */
  lemma LeftOverridesOnlyLeft(d: map<string, string>, value: string)
    ensures BordersOf(d["border-left" := value]) == BordersOf(d).(left := Some(SideOf(value)))
  {
    var e := d["border-left" := value];
    assert Lookup(e, "border") == Lookup(d, "border");
    assert Lookup(e, "border-top") == Lookup(d, "border-top");
    assert Lookup(e, "border-right") == Lookup(d, "border-right");
    assert Lookup(e, "border-bottom") == Lookup(d, "border-bottom");
  }

  /** Declaring border-top changes the top side only. */
  lemma TopOverridesOnlyTop(d: map<string, string>, value: string)
    ensures BordersOf(d["border-top" := value]) == BordersOf(d).(top := Some(SideOf(value)))
  {
    var e := d["border-top" := value];
    assert Lookup(e, "border") == Lookup(d, "border");
    assert Lookup(e, "border-left") == Lookup(d, "border-left");
    assert Lookup(e, "border-right") == Lookup(d, "border-right");
    assert Lookup(e, "border-bottom") == Lookup(d, "border-bottom");
  }

  /** Declaring border-right changes the right side only. */
  lemma RightOverridesOnlyRight(d: map<string, string>, value: string)
    ensures BordersOf(d["border-right" := value]) == BordersOf(d).(right := Some(SideOf(value)))
  {
    var e := d["border-right" := value];
    assert Lookup(e, "border") == Lookup(d, "border");
    assert Lookup(e, "border-left") == Lookup(d, "border-left");
    assert Lookup(e, "border-top") == Lookup(d, "border-top");
    assert Lookup(e, "border-bottom") == Lookup(d, "border-bottom");
  }

  /** Declaring border-bottom changes the bottom side only. */
  lemma BottomOverridesOnlyBottom(d: map<string, string>, value: string)
    ensures BordersOf(d["border-bottom" := value]) == BordersOf(d).(bottom := Some(SideOf(value)))
  {
    var e := d["border-bottom" := value];
    assert Lookup(e, "border") == Lookup(d, "border");
    assert Lookup(e, "border-left") == Lookup(d, "border-left");
    assert Lookup(e, "border-top") == Lookup(d, "border-top");
    assert Lookup(e, "border-right") == Lookup(d, "border-right");
  }

  /** The size of a border is four times the half-points of its first word, 0 when that is no pt/px length. */
  lemma SideSize(value: string)
    ensures SideOf(value).size == 4 * ToHalfPoint(Some(SizeWord(value))).GetOr(0)
    ensures ToHalfPoint(Some(SizeWord(value))).None? ==> SideOf(value).size == 0
    ensures SideOf(value).size % 8 == 0
  {
    var h := ToHalfPoint(Some(SizeWord(value))).GetOr(0);
    assert SideOf(value).size == 4 * h;
    assert (4 * h) % 8 == 0 by {
      QuadrupleOfEven(h);
    }
  }

  lemma QuadrupleOfEven(h: int)
    requires h % 2 == 0
    ensures (4 * h) % 8 == 0
  {
    var k := h / 2;
    assert 4 * h == 8 * k;
  }

  /** A value with fewer than three words has no colour. */
  lemma NoColorWords(value: string)
    requires |Split(value, ' ')| <= 2
    ensures SideOf(value).color == None
  {
    assert ColorWords(value) == "" by {
      TrimNoSpace("");
    }
  }
}
