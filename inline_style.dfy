/**
 * parse_style: the run and paragraph properties the builder reads from an element's style
 * attribute. The declarations are copied into a dictionary, a fixed list of derived properties
 * is written over it, and every key outside the allow-list, or whose value is null, is deleted.
 *
 * The dictionary is keyed by `Key`: the eleven property names the function writes are
 * constructors of `Property`, every other declaration name is `Other(name)`.
 */
module InlineStyle {
  import opened Wrappers
  import opened Strings
  import opened Units
  import opened Declarations

  /** The property names parse_style writes. */
  datatype Property =
    | Color | Shading | Size | Indent | AllCaps | SmallCaps | Strike | Font | Italics | Underline | Bold

  datatype Key = Prop(p: Property) | Other(name: string)

  /** A dictionary value: a raw declaration, true, a shading object, an indent object, a size, or null. */
  datatype StyleValue =
    | Null
    | Text(text: string)
    | On
    | Fill(fill: string)
    | IndentLeft(left: int)
    | HalfPoints(halfPoints: int)

  type Style = map<Key, StyleValue>

  function Name(p: Property): string {
    match p
    case Color => "color"
    case Shading => "shading"
    case Size => "size"
    case Indent => "indent"
    case AllCaps => "allCaps"
    case SmallCaps => "smallCaps"
    case Strike => "strike"
    case Font => "font"
    case Italics => "italics"
    case Underline => "underline"
    case Bold => "bold"
  }

  /** The key under which a declaration name is stored. */
  function KeyOf(name: string): Key {
    if name == "color" then Prop(Color)
    else if name == "shading" then Prop(Shading)
    else if name == "size" then Prop(Size)
    else if name == "indent" then Prop(Indent)
    else if name == "allCaps" then Prop(AllCaps)
    else if name == "smallCaps" then Prop(SmallCaps)
    else if name == "strike" then Prop(Strike)
    else if name == "font" then Prop(Font)
    else if name == "italics" then Prop(Italics)
    else if name == "underline" then Prop(Underline)
    else if name == "bold" then Prop(Bold)
    else Other(name)
  }

  function KeyName(k: Key): string {
    match k
    case Prop(p) => Name(p)
    case Other(n) => n
  }

  /** Every name is stored under a key that gives the name back, so distinct names get distinct keys. */
  lemma KeyOfName(name: string)
    ensures KeyName(KeyOf(name)) == name
  {
  }

  /** A property's own name is stored under that property. */
  lemma NameKey(p: Property)
    ensures KeyOf(Name(p)) == Prop(p)
  {
    match p
    case Color =>
    case Shading =>
    case Size =>
    case Indent =>
    case AllCaps =>
    case SmallCaps =>
    case Strike =>
    case Font =>
    case Italics =>
    case Underline =>
    case Bold =>
  }

  /** The keys that survive (the source lists allCaps twice; smallCaps is written but not kept). */
  const AllowList: set<Key> :=
    {Prop(Color), Prop(Shading), Prop(Size), Prop(Indent), Prop(AllCaps), Prop(Strike),
     Prop(Font), Prop(Italics), Prop(Underline), Prop(Bold)}

  /** The allow-list is every property but smallCaps. */
  lemma AllowedKeys()
    ensures forall k :: k in AllowList <==> k.Prop? && k.p != SmallCaps
  {
  }

  function TextOrNull(s: Option<string>): StyleValue {
    match s
    case Some(t) => Text(t)
    case None => Null
  }

  function HalfPointsOrNull(n: Option<int>): StyleValue {
    match n
    case Some(v) => HalfPoints(v)
    case None => Null
  }

  /** A declaration of a property name, copied as it was written, or null (undefined) when there is none. */
  function Raw(d: map<string, string>, p: Property): StyleValue {
    if Name(p) in d then Text(d[Name(p)]) else Null
  }

  /** The shading fill: to_hex of background-color when that is a non-empty string. */
  function ShadingFill(d: map<string, string>): Option<string> {
    var fill := ToHex(Lookup(d, "background-color"));
    if fill.Some? && fill.value != "" then fill else None
  }

  /** The first comma-separated family with every single quote removed (an empty first family stays ""). */
  function FontName(family: string): (f: string)
    ensures ',' !in f && '\'' !in f
    ensures f == Without(Split(family, ',')[0], '\'')
  {
    var first := Split(family, ',')[0];
    SplitNoSep(family, ',');
    SplitJoinWithout(first, '\'');
    if first != "" then Join(Split(first, '\''), "") else first
  }

  /** font-weight is "bold" or parses to an integer of at least 700. */
  predicate BoldWeight(d: map<string, string>) {
    "font-weight" in d &&
    (d["font-weight"] == "bold" || (ParseInt(d["font-weight"]).Some? && ParseInt(d["font-weight"]).value >= 700))
  }

  /** The indent left: ten times the half-points of padding-left, 0 when it has none. */
  function IndentOf(d: map<string, string>): int {
    10 * ToHalfPoint(Lookup(d, "padding-left")).GetOr(0)
  }

  /** The properties parse_style derives by conversion, computed once per dictionary. */
  datatype Derived = Derived(color: StyleValue, shading: Option<string>, size: StyleValue,
                             indent: int, font: Option<string>, upper: bool, capitalize: bool,
                             lineThrough: bool, underline: bool, italic: bool, bold: bool)

  function DerivedOf(d: map<string, string>): Derived {
    Derived(TextOrNull(ToHex(Lookup(d, "color"))), ShadingFill(d),
            HalfPointsOrNull(ToHalfPoint(Lookup(d, "font-size"))), IndentOf(d),
            if "font-family" in d && d["font-family"] != "" then Some(FontName(d["font-family"])) else None,
            Lookup(d, "text-transform") == Some("uppercase"), Lookup(d, "text-transform") == Some("capitalize"),
            Lookup(d, "text-decoration") == Some("line-through"), Lookup(d, "text-decoration") == Some("underline"),
            Lookup(d, "font-style") == Some("italic"), BoldWeight(d))
  }

  /** A flag property: true when its condition holds, else what the declaration loop stored. */
  function Flag(on: bool, d: map<string, string>, p: Property): StyleValue {
    if on then On else Raw(d, p)
  }

  /** What parse_style leaves under one property before the deletion loop, Null meaning nothing. */
  function Final(d: map<string, string>, v: Derived, p: Property): StyleValue {
    match p
    case Shading => (match v.shading case Some(f) => Fill(f) case None => Raw(d, Shading))
    case Color => v.color
    case Font => (match v.font case Some(f) => Text(f) case None => Raw(d, Font))
    case Size => v.size
    case Indent => IndentLeft(v.indent)
    case AllCaps => Flag(v.upper, d, AllCaps)
    case SmallCaps => Flag(v.capitalize, d, SmallCaps)
    case Strike => Flag(v.lineThrough, d, Strike)
    case Underline => Flag(v.underline, d, Underline)
    case Italics => Flag(v.italic, d, Italics)
    case Bold => Flag(v.bold, d, Bold)
  }

  /** What parse_style leaves under a key before the deletion loop: declarations of other names stay. */
  function FinalKey(d: map<string, string>, v: Derived, k: Key): StyleValue {
    match k
    case Prop(p) => Final(d, v, p)
    case Other(n) => if n in d then Text(d[n]) else Null
  }

  /** The dictionary parse_style returns for the declarations d. */
  function StyleOf(d: map<string, string>): Style {
    StyleFrom(d, DerivedOf(d))
  }

  /** The dictionary left by the deletion loop once the derived properties v are written over the declarations d. */
  function StyleFrom(d: map<string, string>, v: Derived): (r: Style)
    ensures r.Keys <= AllowList && Prop(SmallCaps) !in r
    ensures forall k :: k in r ==> r[k] != Null
    ensures Prop(Indent) in r && r[Prop(Indent)] == IndentLeft(v.indent)
    ensures v.bold ==> Prop(Bold) in r && r[Prop(Bold)] == On
  {
    AllowedKeys();
    map k | k in AllowList && FinalKey(d, v, k) != Null :: FinalKey(d, v, k)
  }

  /** A dictionary lookup in which a missing key reads as null. */
  function Get(style: Style, k: Key): StyleValue {
    if k in style then style[k] else Null
  }

  /** Whether the deletion loop keeps a key. */
  predicate Keep(k: Key, v: StyleValue) {
    k in AllowList && v != Null
  }

  /** parse_style: read the declarations, then derive the properties from them. */
  method ParseStyle(attr: Option<string>) returns (style: Style)
    ensures style == StyleOf(DeclarationsOf(attr))
  {
    var d := ParseDeclarations(attr);
    style := DeriveStyle(d);
  }

  /** The dictionary the declaration loop fills: every declaration under the key of its name. */
  function Copied(d: map<string, string>): (r: Style)
    ensures forall p :: Get(r, Prop(p)) == Raw(d, p)
  {
    forall a, b | a in d && b in d && KeyOf(a) == KeyOf(b) ensures a == b {
      KeyOfName(a);
      KeyOfName(b);
    }
    var r := map n | n in d :: KeyOf(n) := Text(d[n]);
    forall p ensures Get(r, Prop(p)) == Raw(d, p) {
      NameKey(p);
      if Prop(p) in r {
        var n :| n in d && KeyOf(n) == Prop(p);
        KeyOfName(n);
      }
    }
    r
  }

  /** The body of parse_style after its declaration loop: convert, write, prune. */
  method DeriveStyle(d: map<string, string>) returns (style: Style)
    ensures style == StyleOf(d)
  {
    var v := Convert(d);
    style := WriteProperties(d, v, Copied(d));
  }

  /** The conversions parse_style applies to the declarations it reads. */
  method Convert(d: map<string, string>) returns (v: Derived)
    ensures v == DerivedOf(d)
  {
    var fill := ToHex(Lookup(d, "background-color"));
    var shading := if fill.Some? && fill.value != "" then fill else None;
    var color := TextOrNull(ToHex(Lookup(d, "color")));
    var font := None;
    if "font-family" in d && d["font-family"] != "" {
      var first := Split(d["font-family"], ',')[0];
      font := Some(first);
      if first != "" {
        font := Some(Join(Split(first, '\''), ""));
      }
    }
    var size := HalfPointsOrNull(ToHalfPoint(Lookup(d, "font-size")));
    var indentLeft := ToHalfPoint(Lookup(d, "padding-left"));
    // isNaN(null) is false, so the indent is written even when padding-left gives null (null * 10 is 0)
    var indent := 10 * indentLeft.GetOr(0);
    var bold := Lookup(d, "font-weight") == Some("bold") ||
      (Lookup(d, "font-weight").Some? && ParseInt(d["font-weight"]).Some? && ParseInt(d["font-weight"]).value >= 700);
    var transform := Lookup(d, "text-transform");
    var decoration := Lookup(d, "text-decoration");
    v := Derived(color, shading, size, indent, font,
                 transform == Some("uppercase"), transform == Some("capitalize"),
                 decoration == Some("line-through"), decoration == Some("underline"),
                 Lookup(d, "font-style") == Some("italic"), bold);
  }

  /** Position of a property's statement among the writes of parse_style. */
  function Order(p: Property): nat {
    match p
    case Shading => 0
    case Color => 1
    case Font => 2
    case Size => 3
    case Indent => 4
    case AllCaps => 5
    case SmallCaps => 6
    case Strike => 7
    case Underline => 8
    case Italics => 9
    case Bold => 10
  }

  /** Every property holds its final value once its statement has run, else its declaration. */
  predicate WrittenUpTo(style: Style, d: map<string, string>, v: Derived, n: nat) {
    forall p :: Get(style, Prop(p)) == if Order(p) < n then Final(d, v, p) else Raw(d, p)
  }

  /** The writes of parse_style in source order over the copied declarations, then the deletion loop. */
  method WriteProperties(d: map<string, string>, v: Derived, copied: Style) returns (style: Style)
    requires forall p :: Get(copied, Prop(p)) == Raw(d, p)
    ensures style == StyleFrom(d, v)
  {
    style := WriteConversions(d, v, copied);
    style := WriteTransform(d, v, style);
    style := WriteDecoration(d, v, style);
    style := WriteFontStyle(d, v, style);
    var full := style;
    style := Prune(full);
    PrunedIsStyleFrom(d, v, full, style);
  }

  /** shading (when the fill is truthy), color, font (when font-family is truthy), size and indent. */
  method WriteConversions(d: map<string, string>, v: Derived, copied: Style) returns (style: Style)
    requires forall p :: Get(copied, Prop(p)) == Raw(d, p)
    ensures WrittenUpTo(style, d, v, 5)
  {
    style := copied;
    if v.shading.Some? {
      style := style[Prop(Shading) := Fill(v.shading.value)];
    }
    style := style[Prop(Color) := v.color];
    if v.font.Some? {
      style := style[Prop(Font) := Text(v.font.value)];
    }
    style := style[Prop(Size) := v.size];
    style := style[Prop(Indent) := IndentLeft(v.indent)];
  }

  /** allCaps and smallCaps from text-transform. */
  method WriteTransform(d: map<string, string>, v: Derived, before: Style) returns (style: Style)
    requires WrittenUpTo(before, d, v, 5)
    ensures WrittenUpTo(style, d, v, 7)
  {
    style := before;
    if v.upper {
      style := style[Prop(AllCaps) := On];
    }
    if v.capitalize {
      style := style[Prop(SmallCaps) := On];
    }
  }

  /** strike and underline from text-decoration. */
  method WriteDecoration(d: map<string, string>, v: Derived, before: Style) returns (style: Style)
    requires WrittenUpTo(before, d, v, 7)
    ensures WrittenUpTo(style, d, v, 9)
  {
    style := before;
    if v.lineThrough {
      style := style[Prop(Strike) := On];
    }
    if v.underline {
      style := style[Prop(Underline) := On];
    }
  }

  /** italics from font-style, bold from font-weight. */
  method WriteFontStyle(d: map<string, string>, v: Derived, before: Style) returns (style: Style)
    requires WrittenUpTo(before, d, v, 9)
    ensures WrittenUpTo(style, d, v, 11)
  {
    style := before;
    if v.italic {
      style := style[Prop(Italics) := On];
    }
    if v.bold {
      style := style[Prop(Bold) := On];
    }
  }

  /** Once every statement has run, every property holds its final value. */
  lemma WrittenAll(style: Style, d: map<string, string>, v: Derived)
    requires WrittenUpTo(style, d, v, 11)
    ensures forall p :: Get(style, Prop(p)) == Final(d, v, p)
  {
    forall p ensures Get(style, Prop(p)) == Final(d, v, p) {
      assert Order(p) < 11;
    }
  }

  /** Deleting the disallowed and null entries of the written dictionary gives StyleFrom. */
  lemma PrunedIsStyleFrom(d: map<string, string>, v: Derived, full: Style, style: Style)
    requires WrittenUpTo(full, d, v, 11)
    requires forall k :: k in style <==> k in full && Keep(k, full[k])
    requires forall k :: k in style ==> style[k] == full[k]
    ensures style == StyleFrom(d, v)
  {
    WrittenAll(full, d, v);
    PrunedEntries(d, v, full, style);
  }

  lemma PrunedEntries(d: map<string, string>, v: Derived, full: Style, style: Style)
    requires forall p :: Get(full, Prop(p)) == Final(d, v, p)
    requires forall k :: k in style <==> k in full && Keep(k, full[k])
    requires forall k :: k in style ==> style[k] == full[k]
    ensures style == StyleFrom(d, v)
  {
    var r := StyleFrom(d, v);
    AllowedKeys();
    forall k ensures k in style <==> k in r {
      if k.Prop? {
        assert Get(full, Prop(k.p)) == Final(d, v, k.p);
      }
    }
    forall k | k in style ensures style[k] == r[k] {
      assert Get(full, k) == full[k];
    }
  }

  /** The deletion loop: every key outside the allow-list, or holding null, is removed. */
  method Prune(full: Style) returns (style: Style)
    ensures forall k :: k in style <==> k in full && Keep(k, full[k])
    ensures forall k :: k in style ==> style[k] == full[k]
  {
    style := full;
    var keys := style.Keys;
    while keys != {}
      invariant keys <= full.Keys
      invariant forall k :: k in style <==> k in full && (k in keys || Keep(k, full[k]))
      invariant forall k :: k in style ==> style[k] == full[k]
      decreases keys
    {
      var key :| key in keys;
      if !(key in AllowList) || style[key] == Null {
        style := style - {key};
      }
      keys := keys - {key};
    }
  }

  /** Without padding-left the indent is {left: 0}. */
  lemma IndentWithoutPadding(d: map<string, string>)
    requires "padding-left" !in d
    ensures StyleOf(d)[Prop(Indent)] == IndentLeft(0)
  {
  }

  /** A missing or empty color declaration leaves no color. */
  lemma NoColorWithoutDeclaration(d: map<string, string>)
    requires "color" !in d || d["color"] == ""
    ensures Prop(Color) !in StyleOf(d)
  {
    assert Final(d, DerivedOf(d), Color) == Null;
  }

  /** A declared color always survives, converted by to_hex. */
  lemma ColorConverted(d: map<string, string>)
    requires "color" in d && d["color"] != ""
    ensures Prop(Color) in StyleOf(d) && StyleOf(d)[Prop(Color)] == Text(ToHex(Some(d["color"])).value)
  {
    assert Final(d, DerivedOf(d), Color) != Null;
  }

  /** The font is the first family with its quotes removed, present whenever font-family is non-empty. */
  lemma FontFromFamily(d: map<string, string>)
    requires "font-family" in d && d["font-family"] != ""
    ensures Prop(Font) in StyleOf(d)
    ensures StyleOf(d)[Prop(Font)] == Text(FontName(d["font-family"]))
  {
    var v := DerivedOf(d);
    assert v.font == Some(FontName(d["font-family"]));
    FontKept(d, v);
  }

  /** A derived font is kept under its property. */
  lemma FontKept(d: map<string, string>, v: Derived)
    requires v.font.Some?
    ensures Prop(Font) in StyleFrom(d, v) && StyleFrom(d, v)[Prop(Font)] == Text(v.font.value)
  {
    assert FinalKey(d, v, Prop(Font)) != Null;
  }

  /** bold is set exactly when font-weight is "bold" or at least 700; otherwise only a raw "bold" declaration leaves the key. */
  lemma BoldIff(d: map<string, string>)
    ensures (Prop(Bold) in StyleOf(d) && StyleOf(d)[Prop(Bold)] == On) <==> BoldWeight(d)
    ensures !BoldWeight(d) ==> (Prop(Bold) in StyleOf(d) <==> "bold" in d)
  {
    var v := DerivedOf(d);
    assert v.bold == BoldWeight(d);
    BoldFrom(d, v);
  }

  /** Whatever else was derived, bold is On exactly when its condition held, and otherwise mirrors a raw declaration. */
  lemma BoldFrom(d: map<string, string>, v: Derived)
    ensures (Prop(Bold) in StyleFrom(d, v) && StyleFrom(d, v)[Prop(Bold)] == On) <==> v.bold
    ensures !v.bold ==> (Prop(Bold) in StyleFrom(d, v) <==> "bold" in d)
    ensures !v.bold && "bold" in d ==> StyleFrom(d, v)[Prop(Bold)] == Text(d["bold"])
  {
    AllowedKeys();
    assert FinalKey(d, v, Prop(Bold)) == Flag(v.bold, d, Bold);
  }

  /** A declaration named like a flag survives as a string when the flag's condition does not hold. */
  lemma RawBoldKept(d: map<string, string>)
    requires "bold" in d && !BoldWeight(d)
    ensures Prop(Bold) in StyleOf(d) && StyleOf(d)[Prop(Bold)] == Text(d["bold"])
  {
    var v := DerivedOf(d);
    assert !v.bold;
    BoldFrom(d, v);
  }

  /** Two written dictionaries that agree on the allow-list prune to the same result. */
  lemma StyleFromAgree(d1: map<string, string>, v1: Derived, d2: map<string, string>, v2: Derived)
    requires forall k :: k in AllowList ==> FinalKey(d1, v1, k) == FinalKey(d2, v2, k)
    ensures StyleFrom(d1, v1) == StyleFrom(d2, v2)
  {
  }

  /** Declaring text-transform: capitalize changes nothing parse_style derives but the smallCaps condition. */
  lemma CapitalizeDerived(d: map<string, string>)
    requires Lookup(d, "text-transform") != Some("uppercase")
    ensures DerivedOf(d).(capitalize := true) == DerivedOf(d["text-transform" := "capitalize"])
  {
    var e := d["text-transform" := "capitalize"];
    assert Lookup(e, "text-decoration") == Lookup(d, "text-decoration");
    assert Lookup(e, "color") == Lookup(d, "color");
    assert Lookup(e, "background-color") == Lookup(d, "background-color");
    assert Lookup(e, "font-size") == Lookup(d, "font-size");
    assert Lookup(e, "padding-left") == Lookup(d, "padding-left");
    assert Lookup(e, "font-style") == Lookup(d, "font-style");
    assert Lookup(e, "font-family") == Lookup(d, "font-family");
    assert Lookup(e, "font-weight") == Lookup(d, "font-weight");
  }

  /** No property is named text-transform. */
  lemma NotTransformName(p: Property)
    ensures Name(p) != "text-transform"
  {
    assert |Name(p)| < |"text-transform"|;
  }

  /** Dictionaries with the same property declarations and the same derived values other than smallCaps' condition
      give the same result. */
  lemma FinalIgnoresCapitalize(d: map<string, string>, e: map<string, string>, v: Derived, w: Derived)
    requires forall p :: Raw(d, p) == Raw(e, p)
    requires w == v.(capitalize := w.capitalize)
    ensures forall k :: k in AllowList ==> FinalKey(d, v, k) == FinalKey(e, w, k)
  {
    AllowedKeys();
  }

  /** text-transform: capitalize has no effect on the result (smallCaps is set, then deleted). */
  lemma CapitalizeDropped(d: map<string, string>)
    requires Lookup(d, "text-transform") != Some("uppercase")
    ensures StyleOf(d) == StyleOf(d["text-transform" := "capitalize"])
  {
    var e := d["text-transform" := "capitalize"];
    CapitalizeDerived(d);
    forall p ensures Raw(d, p) == Raw(e, p) {
      NotTransformName(p);
    }
    FinalIgnoresCapitalize(d, e, DerivedOf(d), DerivedOf(e));
    StyleFromAgree(d, DerivedOf(d), e, DerivedOf(e));
  }
}
