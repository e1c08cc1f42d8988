/**
 * The unit and colour normalisers of the HTML-to-DOCX builder: CSS lengths to half-points
 * (to_halfpoint) and CSS colours to the hex text DOCX expects (to_hex, rgb_to_hex).
 */
module Units {
  import opened Wrappers
  import opened Strings

  /** ceil(a / b) for a positive divisor (Dafny's division rounds down when b > 0). */
  function CeilDiv(a: int, b: int): int
    requires b > 0
  {
    (a + b - 1) / b
  }

  /** Half-points of a whole number of pixels: 2 * ceil(72 * px / 96). */
  function PixelsToHalfPoints(px: int): (h: int)
    ensures h % 2 == 0
  {
    2 * CeilDiv(72 * px, 96)
  }

  /** The unit to_halfpoint recognises at the end of a trimmed text: pt before px, "" for neither. */
  function UnitOf(s: string): string {
    if EndsWith(s, "pt") then "pt" else if EndsWith(s, "px") then "px" else ""
  }

  /**
   * to_halfpoint: null or "" give None; otherwise the trimmed text must end in "pt" or "px",
   * every occurrence of that unit is removed, and parseInt reads what is left.
   */
  function ToHalfPoint(str: Option<string>): (r: Option<int>)
    ensures r.Some? ==> str.Some? && str.value != ""
    ensures r.Some? ==> EndsWith(Trim(str.value), "pt") || EndsWith(Trim(str.value), "px")
    ensures r.Some? ==> r.value % 2 == 0
  {
    if str == None || str.value == "" then None
    else
      var s := Trim(str.value);
      var unit := UnitOf(s);
      if unit == "" then None
      else
        match ParseInt(ReplaceAll(s, unit, ""))
        case None => None
        case Some(v) => Some(if unit == "px" then PixelsToHalfPoints(v) else 2 * v)
  }

  /** Digits, minus signs and decimal points: text with no white space and no unit letter. */
  predicate NumberText(t: string) {
    forall k :: 0 <= k < |t| ==> IsDigit(t[k]) || t[k] == '-' || t[k] == '.'
  }

  /** A number text followed by a unit is already trimmed, ends in that unit, and loses only the unit. */
  lemma NumberWithUnit(t: string, unit: string)
    requires NumberText(t) && (unit == "pt" || unit == "px")
    ensures Trim(t + unit) == t + unit
    ensures UnitOf(t + unit) == unit
    ensures ReplaceAll(t + unit, unit, "") == t
  {
    var s := t + unit;
    assert forall k :: 0 <= k < |s| ==> s[k] == (if k < |t| then t[k] else unit[k - |t|]);
    TrimNoSpace(s);
    assert s[|s| - 2..] == unit;
    assert 'p' !in t;
    ReplaceAllPrefix(t, unit, unit, "");
    assert ReplaceAll(unit, unit, "") == "" + ReplaceAll("", unit, "");
    assert t + "" == t;
  }

  lemma NumberParsed(n: nat)
    ensures ParseInt(NatToString(n)) == Some(n)
  {
    ParseIntNatToString(n, "");
    assert NatToString(n) + "" == NatToString(n);
  }

  /** "Npt" is 2N half-points. */
  lemma HalfPointFromPoints(n: nat)
    ensures ToHalfPoint(Some(NatToString(n) + "pt")) == Some(2 * n)
  {
    NumberWithUnit(NatToString(n), "pt");
    NumberParsed(n);
  }

  /** "Npx" is 2 * ceil(72N / 96) half-points. */
  lemma HalfPointFromPixels(n: nat)
    ensures ToHalfPoint(Some(NatToString(n) + "px")) == Some(PixelsToHalfPoints(n))
  {
    NumberWithUnit(NatToString(n), "px");
    NumberParsed(n);
  }

  /** "-Npt" is -2N half-points: parseInt reads the sign. */
  lemma {:induction false} HalfPointNegative(n: nat)
    ensures ToHalfPoint(Some("-" + NatToString(n) + "pt")) == Some(-2 * n)
  {
    NumberWithUnit("-" + NatToString(n), "pt");
    ParseIntNegative(n, "");
    assert "-" + NatToString(n) + "" == "-" + NatToString(n);
  }

  /** "N.Fpt" is 2N half-points: parseInt stops at the decimal point, so the fraction is dropped. */
  lemma {:induction false} HalfPointFraction(n: nat, f: nat)
    ensures ToHalfPoint(Some(NatToString(n) + "." + NatToString(f) + "pt")) == Some(2 * n)
  {
    var d, e := NatToString(n), NatToString(f);
    var t := d + ("." + e);
    assert NumberText(t) by {
      assert forall k :: 0 <= k < |t| ==> t[k] == (if k < |d| then d[k] else if k == |d| then '.' else e[k - |d| - 1]);
    }
    NumberWithUnit(t, "pt");
    ParseIntNatToString(n, "." + e);
    assert d + "." + e + "pt" == t + "pt";
  }

  /** A length in pt or px whose number parseInt cannot read gives None. */
  lemma HalfPointNonNumeric(str: string)
    requires str != "" && UnitOf(Trim(str)) != ""
    requires ParseInt(ReplaceAll(Trim(str), UnitOf(Trim(str)), "")) == None
    ensures ToHalfPoint(Some(str)) == None
  {
  }

  /** Whatever parseInt reads from the text left once the unit is removed gives the half-points, a prefix such as "12" of "12.5" included. */
  lemma HalfPointParsed(str: string, n: int)
    requires str != "" && UnitOf(Trim(str)) != ""
    requires ParseInt(ReplaceAll(Trim(str), UnitOf(Trim(str)), "")) == Some(n)
    ensures UnitOf(Trim(str)) == "pt" ==> ToHalfPoint(Some(str)) == Some(2 * n)
    ensures UnitOf(Trim(str)) == "px" ==> ToHalfPoint(Some(str)) == Some(PixelsToHalfPoints(n))
  {
  }

  /** "abcpt" gives None: parseInt("abc") is NaN. */
  lemma LettersInPoints()
    ensures ToHalfPoint(Some("abcpt")) == None
  {
    var s := "abcpt";
    TrimNoSpace(s);
    assert s[|s| - 2..] == "pt";
    assert UnitOf(s) == "pt";
    assert ReplaceAll(s, "pt", "") == "abc" by {
      assert s[1..] == "bcpt" && s[2..] == "cpt" && s[3..] == "pt";
      assert "abc" == ['a'] + (['b'] + (['c'] + ""));
    }
    assert ParseInt("abc") == None by {
      assert TrimStart("abc") == "abc";
      assert DigitPrefix("abc", false) == "";
    }
    HalfPointNonNumeric(s);
  }

  /** 16px is 24 half-points. */
  lemma SixteenPixels()
    ensures ToHalfPoint(Some("16px")) == Some(24)
  {
    assert "16px" == NatToString(16) + "px" by {
      assert NatToString(16) == "16";
    }
    assert PixelsToHalfPoints(16) == 24;
    HalfPointFromPixels(16);
  }

  /** 12pt is 24 half-points. */
  lemma TwelvePoints()
    ensures ToHalfPoint(Some("12pt")) == Some(24)
  {
    assert "12pt" == NatToString(12) + "pt" by {
      assert NatToString(12) == "12";
    }
    HalfPointFromPoints(12);
  }

  /** More pixels never give fewer half-points. */
  lemma PixelsMonotonic(a: int, b: int)
    requires a <= b
    ensures PixelsToHalfPoints(a) <= PixelsToHalfPoints(b)
  {
  }

  /** A value in any other unit (or none) gives None, as do null and "". */
  lemma HalfPointOtherUnit(str: Option<string>)
    requires str == None || !(EndsWith(Trim(str.value), "pt") || EndsWith(Trim(str.value), "px"))
    ensures ToHalfPoint(str) == None
  {
  }

  // ---- colours ----

  /**
   * The lookup COLORS[str] in the named-colour table, all 147 entries; None where the source
   * finds no entry. Every name of the table starts with a lower-case letter, so answering None
   * for anything else first changes nothing and lets a value starting with '#' be seen not to be one.
   */
  function NamedHex(name: string): Option<string> {
    if !IsColorName(name) then None
    else match name
      case "black" => Some("000000")
      case "silver" => Some("c0c0c0")
      case "gray" => Some("808080")
      case "white" => Some("ffffff")
      case "maroon" => Some("800000")
      case "red" => Some("ff0000")
      case "purple" => Some("800080")
      case "fuchsia" => Some("ff00ff")
      case "green" => Some("008000")
      case "lime" => Some("00ff00")
      case "olive" => Some("808000")
      case "yellow" => Some("ffff00")
      case "navy" => Some("000080")
      case "blue" => Some("0000ff")
      case "teal" => Some("008080")
      case "aqua" => Some("00ffff")
      case "aliceblue" => Some("f0f8ff")
      case "antiquewhite" => Some("faebd7")
      case "aquamarine" => Some("7fffd4")
      case "azure" => Some("f0ffff")
      case "beige" => Some("f5f5dc")
      case "bisque" => Some("ffe4c4")
      case "blanchedalmond" => Some("ffebcd")
      case "blueviolet" => Some("8a2be2")
      case "brown" => Some("a52a2a")
      case "burlywood" => Some("deb887")
      case "cadetblue" => Some("5f9ea0")
      case "chartreuse" => Some("7fff00")
      case "chocolate" => Some("d2691e")
      case "coral" => Some("ff7f50")
      case "cornflowerblue" => Some("6495ed")
      case "cornsilk" => Some("fff8dc")
      case "crimson" => Some("dc143c")
      case "cyan" => Some("00ffff")
      case "darkblue" => Some("00008b")
      case "darkcyan" => Some("008b8b")
      case "darkgoldenrod" => Some("b8860b")
      case "darkgray" => Some("a9a9a9")
      case "darkgreen" => Some("006400")
      case "darkgrey" => Some("a9a9a9")
      case "darkkhaki" => Some("bdb76b")
      case "darkmagenta" => Some("8b008b")
      case "darkolivegreen" => Some("556b2f")
      case "darkorange" => Some("ff8c00")
      case "darkorchid" => Some("9932cc")
      case "darkred" => Some("8b0000")
      case "darksalmon" => Some("e9967a")
      case "darkseagreen" => Some("8fbc8f")
      case "darkslateblue" => Some("483d8b")
      case "darkslategray" => Some("2f4f4f")
      case "darkslategrey" => Some("2f4f4f")
      case "darkturquoise" => Some("00ced1")
      case "darkviolet" => Some("9400d3")
      case "deeppink" => Some("ff1493")
      case "deepskyblue" => Some("00bfff")
      case "dimgray" => Some("696969")
      case "dimgrey" => Some("696969")
      case "dodgerblue" => Some("1e90ff")
      case "firebrick" => Some("b22222")
      case "floralwhite" => Some("fffaf0")
      case "forestgreen" => Some("228b22")
      case "gainsboro" => Some("dcdcdc")
      case "ghostwhite" => Some("f8f8ff")
      case "gold" => Some("ffd700")
      case "goldenrod" => Some("daa520")
      case "greenyellow" => Some("adff2f")
      case "grey" => Some("808080")
      case "honeydew" => Some("f0fff0")
      case "hotpink" => Some("ff69b4")
      case "indianred" => Some("cd5c5c")
      case "indigo" => Some("4b0082")
      case "ivory" => Some("fffff0")
      case "khaki" => Some("f0e68c")
      case "lavender" => Some("e6e6fa")
      case "lavenderblush" => Some("fff0f5")
      case "lawngreen" => Some("7cfc00")
      case "lemonchiffon" => Some("fffacd")
      case "lightblue" => Some("add8e6")
      case "lightcoral" => Some("f08080")
      case "lightcyan" => Some("e0ffff")
      case "lightgoldenrodyellow" => Some("fafad2")
      case "lightgray" => Some("d3d3d3")
      case "lightgreen" => Some("90ee90")
      case "lightgrey" => Some("d3d3d3")
      case "lightpink" => Some("ffb6c1")
      case "lightsalmon" => Some("ffa07a")
      case "lightseagreen" => Some("20b2aa")
      case "lightskyblue" => Some("87cefa")
      case "lightslategray" => Some("778899")
      case "lightslategrey" => Some("778899")
      case "lightsteelblue" => Some("b0c4de")
      case "lightyellow" => Some("ffffe0")
      case "limegreen" => Some("32cd32")
      case "linen" => Some("faf0e6")
      case "magenta" => Some("ff00ff")
      case "mediumaquamarine" => Some("66cdaa")
      case "mediumblue" => Some("0000cd")
      case "mediumorchid" => Some("ba55d3")
      case "mediumpurple" => Some("9370db")
      case "mediumseagreen" => Some("3cb371")
      case "mediumslateblue" => Some("7b68ee")
      case "mediumspringgreen" => Some("00fa9a")
      case "mediumturquoise" => Some("48d1cc")
      case "mediumvioletred" => Some("c71585")
      case "midnightblue" => Some("191970")
      case "mintcream" => Some("f5fffa")
      case "mistyrose" => Some("ffe4e1")
      case "moccasin" => Some("ffe4b5")
      case "navajowhite" => Some("ffdead")
      case "oldlace" => Some("fdf5e6")
      case "olivedrab" => Some("6b8e23")
      case "orange" => Some("ffa500")
      case "orangered" => Some("ff4500")
      case "orchid" => Some("da70d6")
      case "palegoldenrod" => Some("eee8aa")
      case "palegreen" => Some("98fb98")
      case "paleturquoise" => Some("afeeee")
      case "palevioletred" => Some("db7093")
      case "papayawhip" => Some("ffefd5")
      case "peachpuff" => Some("ffdab9")
      case "peru" => Some("cd853f")
      case "pink" => Some("ffc0cb")
      case "plum" => Some("dda0dd")
      case "powderblue" => Some("b0e0e6")
      case "rosybrown" => Some("bc8f8f")
      case "royalblue" => Some("4169e1")
      case "saddlebrown" => Some("8b4513")
      case "salmon" => Some("fa8072")
      case "sandybrown" => Some("f4a460")
      case "seagreen" => Some("2e8b57")
      case "seashell" => Some("fff5ee")
      case "sienna" => Some("a0522d")
      case "skyblue" => Some("87ceeb")
      case "slateblue" => Some("6a5acd")
      case "slategray" => Some("708090")
      case "slategrey" => Some("708090")
      case "snow" => Some("fffafa")
      case "springgreen" => Some("00ff7f")
      case "steelblue" => Some("4682b4")
      case "tan" => Some("d2b48c")
      case "thistle" => Some("d8bfd8")
      case "tomato" => Some("ff6347")
      case "turquoise" => Some("40e0d0")
      case "violet" => Some("ee82ee")
      case "wheat" => Some("f5deb3")
      case "whitesmoke" => Some("f5f5f5")
      case "yellowgreen" => Some("9acd32")
      case _ => None
  }

  /** "lime" is a named colour, so to_hex gives its entry rather than the name. */
  lemma LimeNamed()
    ensures ToHex(Some("lime")) == Some("00ff00")
  {
    TrimNoSpace("lime");
    assert NamedHex("lime") == Some("00ff00");
    NamedColor("lime");
  }

  /** A name of the table: every key of COLORS starts with a lower-case letter. */
  predicate IsColorName(k: string) {
    |k| > 0 && 'a' <= k[0] <= 'z'
  }

  /**
   * Unary plus on a string: white space trimmed, "" is 0, "0x" introduces hex digits,
   * otherwise an optional sign and decimal digits; None is NaN.
   */
  function ToNumber(s: string): Option<int> {
    var t := Trim(s);
    if t == "" then Some(0)
    else if |t| > 2 && t[0] == '0' && (t[1] == 'x' || t[1] == 'X') then
      if IsHexText(t[2..]) then Some(DigitsValue(t[2..], true)) else None
    else SignedDecimal(t)
  }

  /** An optional sign followed by one or more decimal digits; None (NaN) otherwise. */
  function SignedDecimal(t: string): Option<int>
    requires t != ""
  {
    var body := if t[0] == '-' || t[0] == '+' then t[1..] else t;
    if body != [] && IsDigitText(body) then
      var v: int := DigitsValue(body, false);
      Some(if t[0] == '-' then -v else v)
    else None
  }

  predicate IsDigitText(d: string) {
    forall k :: 0 <= k < |d| ==> IsDigit(d[k])
  }

  /** Number#toString(16), "NaN" for NaN. */
  function NumberToHex(n: Option<int>): string {
    match n
    case None => "NaN"
    case Some(v) => if v < 0 then "-" + NatToHex(-v) else NatToHex(v)
  }

  /** One channel of rgb_to_hex: an absent part is undefined, whose number is NaN; one digit is zero-padded. */
  function Channel(parts: seq<string>, k: nat): string {
    var h := if k < |parts| then NumberToHex(ToNumber(parts[k])) else "NaN";
    if |h| == 1 then "0" + h else h
  }

  /**
   * rgb_to_hex: drop four UTF-16 code units (substr(4)), cut at the first ')', split on ','
   * (or ' ' when there is no comma).
   */
  function RgbToHex(rgb: string): string {
    var sep := if Contains(rgb, ",") then ',' else ' ';
    var inner := Split(Split(DropCodeUnits(rgb, 4), ')')[0], sep);
    Channel(inner, 0) + Channel(inner, 1) + Channel(inner, 2)
  }

  /**
   * to_hex: null and "" give None; a named colour gives its table entry; anything else is
   * converted (rgb) or stripped of '#', and a 3-character result is concatenated with itself.
   * The source's validity test is a comparison with no effect, so no other input gives None.
   */
  function ToHex(str: Option<string>): (r: Option<string>)
    ensures r == None <==> str == None || str.value == ""
  {
    if str == None || str.value == "" then None
    else
      var s := Trim(str.value);
      var named := NamedHex(s);
      if named.Some? then named
      else
        var color := if Contains(s, "rgb") then RgbToHex(s) else Trim(ReplaceAll(s, "#", ""));
        Some(Doubled(color))
  }

  predicate IsHexText(h: string) {
    forall k :: 0 <= k < |h| ==> IsHexDigit(h[k])
  }

  /** The table is consulted on the trimmed value. */
  lemma NamedColor(s: string)
    requires s != "" && NamedHex(Trim(s)).Some?
    ensures ToHex(Some(s)) == NamedHex(Trim(s))
  {
  }

  lemma HashHexTrimmed(h: string)
    requires IsHexText(h)
    ensures Trim("#" + h) == "#" + h
  {
    var s := "#" + h;
    assert forall k :: 1 <= k < |s| ==> s[k] == h[k - 1];
    TrimNoSpace(s);
  }

  lemma HashHexNoRgb(h: string)
    requires IsHexText(h)
    ensures !Contains("#" + h, "rgb") && NamedHex("#" + h) == None
  {
    var s := "#" + h;
    assert forall k :: 1 <= k < |s| ==> s[k] == h[k - 1];
    assert 'r' !in s;
    NotContainsFirst(s, "rgb");
    assert s[0] == '#';
  }

  lemma HexTextNoSpace(h: string)
    requires IsHexText(h)
    ensures NoSpace(h) && '#' !in h && 'r' !in h
  {
    forall k | 0 <= k < |h|
      ensures !IsSpace(h[k]) && h[k] != '#' && h[k] != 'r'
    {
      assert IsHexDigit(h[k]);
    }
  }

  lemma HashRemoved(h: string)
    requires '#' !in h
    ensures ReplaceAll("#" + h, "#", "") == h
  {
    var s := "#" + h;
    assert s[..1] == "#" && s[1..] == h;
    assert ReplaceAll(s, "#", "") == "" + ReplaceAll(h, "#", "");
    ReplaceAllAbsent(h, "#", "");
  }

  lemma HashHexStripped(h: string)
    requires IsHexText(h)
    ensures Trim(ReplaceAll("#" + h, "#", "")) == h
  {
    HexTextNoSpace(h);
    HashRemoved(h);
    TrimNoSpace(h);
  }

  /** A trimmed value that is neither a named colour nor an rgb() form is stripped of '#'. */
  lemma StrippedColor(s: string)
    requires s != "" && Trim(s) == s && NamedHex(s) == None && !Contains(s, "rgb")
    ensures ToHex(Some(s)) == Some(Doubled(Trim(ReplaceAll(s, "#", ""))))
  {
  }

  /**
   * The length of a string as JavaScript counts it: a character above U+FFFF is a surrogate pair,
   * two UTF-16 code units.
   */
  function Utf16Length(s: string): (n: nat)
    ensures n >= |s|
    ensures (forall k :: 0 <= k < |s| ==> s[k] < '\U{10000}') ==> n == |s|
  {
    if s == [] then 0
    else (if s[0] < '\U{10000}' then 1 else 2) + Utf16Length(s[1..])
  }

  /** What stands for a lone low surrogate: like it, it is no digit, no space, no ',' and no ')'. */
  const LoneSurrogate: char := '\U{FFFD}'

  /**
   * String#substr(n) for n >= 0: the string without its first n UTF-16 code units, "" when it has
   * fewer. A cut through a surrogate pair leaves its low half, written LoneSurrogate.
   */
  function DropCodeUnits(s: string, n: nat): (r: string)
    ensures Utf16Length(r) == if Utf16Length(s) >= n then Utf16Length(s) - n else 0
    ensures (forall k :: 0 <= k < |s| && k < n ==> s[k] < '\U{10000}') ==>
      r == if |s| >= n then s[n..] else ""
  {
    if n == 0 || s == [] then s
    else if s[0] < '\U{10000}' then DropCodeUnits(s[1..], n - 1)
    else if n == 1 then [LoneSurrogate] + s[1..]
    else DropCodeUnits(s[1..], n - 2)
  }

  /** A character above U+FFFF before "rgb" shifts the cut: "\U{1F600}rgb12,0,0" loses "\U{1F600}rg" only. */
  lemma AstralShiftsCut()
    ensures DropCodeUnits("\U{1F600}rgb12,0,0", 4) == "b12,0,0"
  {
    assert "\U{1F600}rgb12,0,0"[1..] == "rgb12,0,0";
    assert DropCodeUnits("rgb12,0,0", 2) == "rgb12,0,0"[2..];
  }

  /** The shifted cut makes the red channel NaN, as in the source. */
  lemma AstralRgb()
    ensures RgbToHex("\U{1F600}rgb12,0,0") == "NaN0000"
  {
    var s := "\U{1F600}rgb12,0,0";
    AstralComma();
    AstralShiftsCut();
    AstralParts();
    AstralChannels();
    RgbOfCut(s, "b12,0,0", ["b12", "0", "0"]);
  }

  /** rgb_to_hex once the cut and the split are known. */
  lemma RgbOfCut(rgb: string, cut: string, inner: seq<string>)
    requires Contains(rgb, ",") && DropCodeUnits(rgb, 4) == cut && Split(Split(cut, ')')[0], ',') == inner
    ensures RgbToHex(rgb) == Channel(inner, 0) + Channel(inner, 1) + Channel(inner, 2)
  {
  }

  lemma AstralComma()
    ensures Contains("\U{1F600}rgb12,0,0", ",")
  {
    ContainsMiddle("\U{1F600}rgb12", ",", "0,0");
    assert "\U{1F600}rgb12" + "," + "0,0" == "\U{1F600}rgb12,0,0";
  }

  lemma AstralParts()
    ensures Split(Split("b12,0,0", ')')[0], ',') == ["b12", "0", "0"]
  {
    assert Split("b12,0,0", ')') == ["b12,0,0"] by {
      SplitNoSepIsSingleton("b12,0,0", ')');
    }
    assert "b12,0,0" == "b12" + [','] + ("0" + [','] + "0");
    SplitCons("b12", ',', "0" + [','] + "0");
    SplitCons("0", ',', "0");
    SplitNoSepIsSingleton("0", ',');
  }

  /** "b12" is NaN and "0" is zero. */
  lemma AstralChannels()
    ensures Channel(["b12", "0", "0"], 0) + Channel(["b12", "0", "0"], 1) + Channel(["b12", "0", "0"], 2) == "NaN0000"
  {
    LetterLedNaN();
    ZeroNumber();
    assert NumberToHex(Some(0)) == "0" by {
      assert NatToHex(0) == "0";
    }
  }

  lemma LetterLedNaN()
    ensures ToNumber("b12") == None
  {
    TrimNoSpace("b12");
  }

  lemma ZeroNumber()
    ensures ToNumber("0") == Some(0)
  {
    TrimNoSpace("0");
    assert DigitsValue("0", false) == 0;
  }

  /** A cut through a surrogate pair leaves its low half. */
  lemma SplitPairCut()
    ensures DropCodeUnits("abc\U{1F600}x", 4) == [LoneSurrogate] + "x"
  {
    assert "abc\U{1F600}x"[1..] == "bc\U{1F600}x";
    assert "bc\U{1F600}x"[1..] == "c\U{1F600}x";
    assert "c\U{1F600}x"[1..] == "\U{1F600}x";
    assert "\U{1F600}x"[1..] == "x";
  }

  /** A colour of length 3, counted in UTF-16 code units, is repeated as a block. */
  function Doubled(c: string): string {
    if Utf16Length(c) == 3 then c + c else c
  }

  /** "a" and an emoji are three code units, so they are repeated like three hex digits. */
  lemma AstralDoubled()
    ensures Doubled("a\U{1F600}") == "a\U{1F600}a\U{1F600}"
  {
    assert Utf16Length("a\U{1F600}") == 1 + Utf16Length("\U{1F600}");
    assert Utf16Length("\U{1F600}") == 2 + Utf16Length("");
  }

  /** Hex digits are one code unit each. */
  lemma HexLength(h: string)
    requires IsHexText(h)
    ensures Utf16Length(h) == |h|
  {
    assert forall k :: 0 <= k < |h| ==> h[k] < '\U{10000}' by {
      forall k | 0 <= k < |h| ensures h[k] < '\U{10000}' {
        assert IsHexDigit(h[k]);
      }
    }
  }

  lemma HashHexText(h: string)
    requires IsHexText(h)
    ensures ToHex(Some("#" + h)) == Some(Doubled(h))
  {
    var s := "#" + h;
    assert ToHex(Some(s)) == Some(Doubled(Trim(ReplaceAll(s, "#", "")))) by {
      HashHexTrimmed(h);
      HashHexNoRgb(h);
      StrippedColor(s);
    }
    assert Trim(ReplaceAll(s, "#", "")) == h by {
      HashHexStripped(h);
    }
  }

  /** "#abc" gives "abcabc": the three characters are repeated as a block, not digit by digit. */
  lemma ShortHexDoubled(h: string)
    requires |h| == 3 && IsHexText(h)
    ensures ToHex(Some("#" + h)) == Some(h + h)
  {
    HashHexText(h);
    HexLength(h);
  }

  /** "#rrggbb" gives "rrggbb". */
  lemma LongHexKept(h: string)
    requires |h| == 6 && IsHexText(h)
    ensures ToHex(Some("#" + h)) == Some(h)
  {
    HashHexText(h);
    HexLength(h);
  }

  /** A value that is no colour at all is returned unchanged rather than rejected. */
  lemma InvalidColorKept(s: string)
    requires s != "" && NoSpace(s) && NamedHex(s) == None
    requires '#' !in s && 'r' !in s && Utf16Length(s) != 3
    ensures ToHex(Some(s)) == Some(s)
  {
    TrimNoSpace(s);
    NotContainsFirst(s, "rgb");
    ReplaceAllAbsent(s, "#", "");
  }

  /** Two lower-case hex digits of a byte. */
  function HexByte(n: nat): (h: string)
    requires n < 256
    ensures |h| == 2 && IsHexText(h)
  {
    NatToHexShort(n);
    if n < 16 then "0" + NatToHex(n) else NatToHex(n)
  }

  /** Unary plus on a plain run of decimal digits is their value. */
  lemma ToNumberOfDigits(d: string)
    requires d != "" && IsDigitText(d)
    ensures ToNumber(d) == Some(DigitsValue(d, false))
  {
    assert Trim(d) == d by {
      assert NoSpace(d) by {
        forall k | 0 <= k < |d| ensures !IsSpace(d[k]) {
          assert IsDigit(d[k]);
        }
      }
      TrimNoSpace(d);
    }
    assert !(|d| > 2 && d[0] == '0' && (d[1] == 'x' || d[1] == 'X')) by {
      if |d| > 2 {
        assert IsDigit(d[1]);
      }
    }
    assert d[0] != '-' && d[0] != '+' by {
      assert IsDigit(d[0]);
    }
  }

  lemma ChannelOfByte(n: nat)
    ensures NumberToHex(ToNumber(NatToString(n))) == NatToHex(n)
  {
    var d := NatToString(n);
    assert ToNumber(d) == Some(DigitsValue(d, false)) by {
      assert IsDigitText(d);
      ToNumberOfDigits(d);
    }
    NatToStringValue(n);
  }

  lemma ByteTextShape(n: nat)
    ensures NoSpace(NatToString(n))
    ensures ',' !in NatToString(n) && ')' !in NatToString(n)
  {
    var d := NatToString(n);
    assert forall k :: 0 <= k < |d| ==> IsDigit(d[k]);
  }

  lemma ChannelByte(parts: seq<string>, k: nat, n: nat)
    requires k < |parts| && parts[k] == NatToString(n) && n < 256
    ensures Channel(parts, k) == HexByte(n)
  {
    ChannelOfByte(n);
    NatToHexShort(n);
  }

  /** The channel texts of rgb(R,G,B) when none of them holds a comma or a parenthesis. */
  lemma RgbParts(R: string, G: string, B: string)
    requires ',' !in R && ',' !in G && ',' !in B && ')' !in R && ')' !in G && ')' !in B
    ensures var s := "rgb(" + R + "," + G + "," + B + ")";
      Contains(s, ",") && Split(Split(DropCodeUnits(s, 4), ')')[0], ',') == [R, G, B]
  {
    var x := R + "," + G + "," + B;
    var s := "rgb(" + R + "," + G + "," + B + ")";
    assert Contains(s, ",") by {
      ContainsMiddle("rgb(" + R, ",", G + "," + B + ")");
      assert "rgb(" + R + "," + (G + "," + B + ")") == s;
    }
    assert s == "rgb(" + (x + ")");
    RgbPrefixCut(x + ")");
    InnerParts(R, G, B);
  }

  /** "r,g,b)" cut at ')' and split at ',' gives the three parts. */
  lemma InnerParts(R: string, G: string, B: string)
    requires ',' !in R && ',' !in G && ',' !in B && ')' !in R && ')' !in G && ')' !in B
    ensures Split(Split(R + "," + G + "," + B + ")", ')')[0], ',') == [R, G, B]
  {
    var x := R + "," + G + "," + B;
    assert Split(x + ")", ')')[0] == x by {
      assert x + ")" == x + [')'] + "";
      assert ')' !in x;
      SplitCons(x, ')', "");
    }
    assert Split(x, ',') == [R, G, B] by {
      assert x == R + [','] + (G + [','] + B);
      SplitCons(R, ',', G + [','] + B);
      SplitCons(G, ',', B);
      SplitNoSepIsSingleton(B, ',');
    }
  }

  /** substr(4) of "rgb(" and a rest is the rest. */
  lemma RgbPrefixCut(rest: string)
    ensures DropCodeUnits("rgb(" + rest, 4) == rest
  {
    var s := "rgb(" + rest;
    forall k | 0 <= k < |s| && k < 4 ensures s[k] < '\U{10000}' {
      assert s[k] == "rgb("[k];
    }
  }

  /** rgb(r,g,b) with byte channels gives the six hex digits rrggbb. */
  lemma RgbOfBytes(r: nat, g: nat, b: nat)
    requires r < 256 && g < 256 && b < 256
    ensures RgbToHex("rgb(" + NatToString(r) + "," + NatToString(g) + "," + NatToString(b) + ")")
         == HexByte(r) + HexByte(g) + HexByte(b)
  {
    var R, G, B := NatToString(r), NatToString(g), NatToString(b);
    var s := "rgb(" + R + "," + G + "," + B + ")";
    var inner := [R, G, B];
    assert RgbToHex(s) == Channel(inner, 0) + Channel(inner, 1) + Channel(inner, 2) by {
      ByteTextShape(r);
      ByteTextShape(g);
      ByteTextShape(b);
      RgbParts(R, G, B);
    }
    ChannelByte(inner, 0, r);
    ChannelByte(inner, 1, g);
    ChannelByte(inner, 2, b);
  }

  /** rgb(255,0,0) is ff0000. */
  lemma RgbRed()
    ensures RgbToHex("rgb(255,0,0)") == "ff0000"
  {
    var s := "rgb(" + NatToString(255) + "," + NatToString(0) + "," + NatToString(0) + ")";
    assert s == "rgb(255,0,0)" by {
      assert NatToString(255) == "255" && NatToString(0) == "0";
    }
    assert HexByte(255) + HexByte(0) + HexByte(0) == "ff0000" by {
      assert NatToHex(255) == "ff" && NatToHex(0) == "0";
    }
    RgbOfBytes(255, 0, 0);
  }

}
