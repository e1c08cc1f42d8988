/**
 * The round trip of a run's character formatting through its span: the CSS entries convertRun
 * writes are joined with "; " into the style attribute, and parse_style reads that attribute back.
 * The writer and the HTML parser in between are not modelled; what is modelled is the attribute text
 * itself, split on ';' and ':' as the reader does.
 */
module RunCssReadBack {
  import opened Wrappers
  import opened Strings
  import opened Declarations
  import DocModel
  import HtmlStyles
  import InlineStyle

  /** The pieces after the first of a "; " join, split on ';': each keeps the space in front. */
  function Prefixed(xs: seq<string>): (r: seq<string>)
    ensures |r| == |xs|
  {
    if xs == [] then [] else [" " + xs[0]] + Prefixed(xs[1..])
  }

  /** Joining with "; " and splitting on ';' gives the entries back, every one after the first behind a space. */
  lemma {:induction false} SplitJoined(parts: seq<string>)
    requires parts != []
    requires Separable(parts)
    ensures Split(Join(parts, "; "), ';') == [parts[0]] + Prefixed(parts[1..])
    decreases |parts|
  {
    if |parts| == 1 {
      SplitNoSepIsSingleton(parts[0], ';');
    } else {
      var tail := parts[1..];
      var j := Join(tail, "; ");
      assert forall p :: p in tail ==> p in parts;
      SplitJoined(tail);
      assert Join(parts, "; ") == parts[0] + [';'] + (" " + j);
      SplitCons(parts[0], ';', " " + j);
      assert (" " + j)[1..] == j;
      assert Split(" " + j, ';') == [" " + tail[0]] + Prefixed(tail[1..]);
    }
  }

  /** A declaration reads the same with a space in front: it is trimmed first. */
  lemma DeclSpaced(e: string)
    ensures Decl(" " + e) == Decl(e)
  {
    assert (" " + e)[1..] == e;
    assert TrimStart(" " + e) == TrimStart(e);
  }

  /** Pieces that read as the same declarations, one by one, give the same dictionary. */
  lemma {:induction false} DeclMapSame(a: seq<string>, b: seq<string>)
    requires |a| == |b|
    requires forall i :: 0 <= i < |a| ==> Decl(a[i]) == Decl(b[i])
    ensures DeclMap(a) == DeclMap(b)
    decreases |a|
  {
    if a != [] {
      DeclMapSame(a[..|a| - 1], b[..|b| - 1]);
    }
  }

  /** The dictionary of pieces read one after the other: a later declaration overrides. */
  lemma UnionUpdate(m: map<string, string>, n: map<string, string>, k: string, v: string)
    ensures (m + n)[k := v] == m + n[k := v]
  {
  }

  lemma {:induction false} DeclMapAppend(a: seq<string>, b: seq<string>)
    ensures DeclMap(a + b) == DeclMap(a) + DeclMap(b)
    decreases |b|
  {
    if b == [] {
      assert a + b == a;
    } else {
      var init := b[..|b| - 1];
      DeclMapAppend(a, init);
      assert (a + b)[..|a + b| - 1] == a + init;
      assert (a + b)[|a + b| - 1] == b[|b| - 1];
      match Decl(b[|b| - 1])
      case Some(kv) =>
        UnionUpdate(DeclMap(a), DeclMap(init), kv.0, kv.1);
      case None =>
    }
  }

  /** Entries joined with "; " read back as the declarations of the entries themselves. */
  lemma ReadBackJoined(parts: seq<string>)
    requires Separable(parts)
    ensures DeclarationsOf(Some(Join(parts, "; "))) == DeclMap(parts)
  {
    if parts == [] {
      assert Split("", ';') == [""];
      assert Split(Trim(""), ':') == [""];
      assert DeclMap([""]) == DeclMap([""][..0]);
    } else {
      SplitJoined(parts);
      var pieces := [parts[0]] + Prefixed(parts[1..]);
      forall i | 0 <= i < |parts| ensures Decl(pieces[i]) == Decl(parts[i]) {
        if i > 0 {
          PrefixedAt(parts[1..], i - 1);
          DeclSpaced(parts[i]);
        }
      }
      DeclMapSame(pieces, parts);
    }
  }

  lemma {:induction false} PrefixedAt(xs: seq<string>, i: nat)
    requires i < |xs|
    ensures Prefixed(xs)[i] == " " + xs[i]
    decreases i
  {
    if i > 0 {
      PrefixedAt(xs[1..], i - 1);
    }
  }

  /** TrimEnd stops at the last character that is not white space. */
  lemma {:induction false} TrimEndKeeps(s: string, j: nat)
    requires j < |s| && !IsSpace(s[j])
    ensures |TrimEnd(s)| > j
    decreases |s|
  {
    if IsSpace(s[|s| - 1]) {
      var init := s[..|s| - 1];
      assert init[j] == s[j];
      TrimEndKeeps(init, j);
    }
  }

  /** A property name that the reader keeps as it is. */
  predicate PlainName(k: string) {
    k != "" && NoSpace(k) && ':' !in k
  }

  lemma WordIsPlain(s: string)
    requires Word(s)
    ensures PlainName(s) && ';' !in s
  {
    WordPlain(s);
  }

  /**
   * An entry "k: v" declares k when it declares anything, and declares exactly k: v when the value
   * is one word without ':'.
   */
  lemma EntryDecl(k: string, v: string)
    requires PlainName(k)
    ensures Decl(k + ": " + v).Some? ==> Decl(k + ": " + v).value.0 == k
    ensures PlainName(v) ==> Decl(k + ": " + v) == Some((k, v))
  {
    var s := k + ": " + v;
    assert s[0] == k[0] && s[|k|] == ':';
    assert TrimStart(s) == s;
    TrimEndKeeps(s, |k|);
    TrimEndShape(s);
    var t := Trim(s);
    var rest := t[|k| + 1..];
    assert t == k + [':'] + rest;
    SplitCons(k, ':', rest);
    TrimNoSpace(k);
    if PlainName(v) {
      assert s[|s| - 1] == v[|v| - 1];
      assert t == s;
      assert rest == " " + v;
      SplitNoSepIsSingleton(" " + v, ':');
      DeclSpaced(v);
      TrimNoSpace(v);
      assert Split(Trim(v), ':') == [v] by {
        SplitNoSepIsSingleton(v, ':');
      }
    }
  }

  /** An entry with an arbitrary value contributes at most its own name. */
  lemma EntryKeys(es: seq<string>, k: string, v: string)
    requires Word(k)
    requires es == [] || es == [k + ": " + v]
    ensures DeclMap(es).Keys <= {k}
  {
    if es != [] {
      WordIsPlain(k);
      EntryDecl(k, v);
      assert es[..0] == [];
    }
  }

  /** The declaration an entry with a one-word value contributes when it is written. */
  function Flagged(on: bool, k: string, v: string): map<string, string> {
    if on then map[k := v] else map[]
  }

  /** An entry with a one-word value contributes exactly that declaration when it is written. */
  lemma FlagEntry(on: bool, k: string, v: string)
    requires Word(k) && Word(v)
    ensures DeclMap(HtmlStyles.Declared(on, k + ": " + v)) == Flagged(on, k, v)
  {
    if on {
      WordIsPlain(k);
      WordIsPlain(v);
      EntryDecl(k, v);
      assert [k + ": " + v][..0] == [];
    }
  }

  // ---- the entries of a run's CSS ----

  /** The string values a run writes into its CSS hold no ';'. */
  predicate NoSemicolons(r: DocModel.RunProps) {
    ';' !in HtmlStyles.Value(r.color) && ';' !in HtmlStyles.Value(r.highlight) &&
    ';' !in HtmlStyles.Value(r.shading) && ';' !in HtmlStyles.Value(r.font)
  }

  /** Entries that can be joined with "; " and split apart again. */
  predicate Separable(parts: seq<string>) {
    forall p :: p in parts ==> ';' !in p
  }

  lemma SeparableAppend(a: seq<string>, b: seq<string>)
    requires Separable(a) && Separable(b)
    ensures Separable(a + b)
  {
  }

  /** An entry "k: v" with a CSS word for its name holds no ';' when its value holds none. */
  lemma EntrySeparable(on: bool, k: string, v: string)
    requires Word(k) && ';' !in v
    ensures Separable(HtmlStyles.Declared(on, k + ": " + v))
  {
    WordIsPlain(k);
    assert ';' !in ": ";
  }

  /** The names of the formatting entries. */
  lemma FormatNames()
    ensures Word("color") && Word("background-color") && Word("font-family") && Word("font-size")
  {
  }

  /** The names of the flag entries. */
  lemma FlagNames()
    ensures Word("text-transform") && Word("text-decoration") && Word("font-style") && Word("font-weight")
  {
  }

  /** The values of the flag entries. */
  lemma FlagValues()
    ensures Word("capitalize") && Word("uppercase") && Word("line-through") && Word("underline")
    ensures Word("italic") && Word("bold")
  {
  }

  /** The formatting entries of a run's CSS, each as its name, ": " and its value. */
  lemma FormatTexts(x: string)
    ensures "color: " + x == "color" + ": " + x
    ensures "background-color: " + x == "background-color" + ": " + x
    ensures "font-family: " + x == "font-family" + ": " + x
    ensures "font-size: " + x == "font-size" + ": " + x
  {
  }

  /** The transform and decoration entries, each as its name, ": " and its one-word value. */
  lemma CaseAndLineTexts()
    ensures "text-transform: capitalize" == "text-transform" + ": " + "capitalize"
    ensures "text-transform: uppercase" == "text-transform" + ": " + "uppercase"
    ensures "text-decoration: line-through" == "text-decoration" + ": " + "line-through"
    ensures "text-decoration: underline" == "text-decoration" + ": " + "underline"
  {
  }

  /** The style and weight entries, each as its name, ": " and its one-word value. */
  lemma StyleAndWeightTexts()
    ensures "font-style: italic" == "font-style" + ": " + "italic"
    ensures "font-weight: bold" == "font-weight" + ": " + "bold"
  {
  }

  /** The font-size entry: the integer part of the size in points. */
  function SizeText(r: DocModel.RunProps): string {
    IntToString(HtmlStyles.Truncate(if r.fontSize.Some? then r.fontSize.value else 0.0)) + "pt"
  }

  /** The font size entry is "font-size: " and the size text, when there is one. */
  lemma SizeEntry(r: DocModel.RunProps)
    ensures var size := HtmlStyles.FontSizeEntry(r.fontSize);
      size == [] || size == ["font-size" + ": " + SizeText(r)]
    ensures ';' !in SizeText(r)
  {
    var n := HtmlStyles.Truncate(if r.fontSize.Some? then r.fontSize.value else 0.0);
    var digits := IntToString(n);
    FormatTexts(digits + "pt");
    assert "font-size: " + digits + "pt" == "font-size: " + (digits + "pt");
    var ds := NatToString(if n < 0 then -n else n);
    assert forall c :: c in ds ==> IsDigit(c);
    assert ';' !in digits;
    assert ';' !in "pt";
  }

  /** The entries for the colours, the font and the size, the first five groups convertRun pushes. */
  function FormatCss(r: DocModel.RunProps): seq<string> {
    HtmlStyles.Declared(DocModel.Truthy(r.color), "color: " + HtmlStyles.FormatColor(HtmlStyles.Value(r.color))) +
    HtmlStyles.Declared(DocModel.Truthy(r.highlight), "background-color: " + HtmlStyles.FormatColor(HtmlStyles.Value(r.highlight))) +
    HtmlStyles.Declared(DocModel.Truthy(r.shading), "background-color: " + HtmlStyles.FormatColor(HtmlStyles.Value(r.shading))) +
    HtmlStyles.Declared(DocModel.Truthy(r.font), "font-family: " + HtmlStyles.Value(r.font)) +
    HtmlStyles.FontSizeEntry(r.fontSize)
  }

  /** The formatting entries hold no ';' when the colours and the font hold none. */
  lemma FormatCssSeparable(r: DocModel.RunProps)
    requires NoSemicolons(r)
    ensures Separable(FormatCss(r))
  {
    var colorText := HtmlStyles.FormatColor(HtmlStyles.Value(r.color));
    var highlightText := HtmlStyles.FormatColor(HtmlStyles.Value(r.highlight));
    var shadingText := HtmlStyles.FormatColor(HtmlStyles.Value(r.shading));
    var fontText := HtmlStyles.Value(r.font);
    var color := HtmlStyles.Declared(DocModel.Truthy(r.color), "color: " + colorText);
    var highlight := HtmlStyles.Declared(DocModel.Truthy(r.highlight), "background-color: " + highlightText);
    var shading := HtmlStyles.Declared(DocModel.Truthy(r.shading), "background-color: " + shadingText);
    var font := HtmlStyles.Declared(DocModel.Truthy(r.font), "font-family: " + fontText);
    var size := HtmlStyles.FontSizeEntry(r.fontSize);
    FormatNames();
    FormatTexts(colorText);
    EntrySeparable(DocModel.Truthy(r.color), "color", colorText);
    FormatTexts(highlightText);
    EntrySeparable(DocModel.Truthy(r.highlight), "background-color", highlightText);
    FormatTexts(shadingText);
    EntrySeparable(DocModel.Truthy(r.shading), "background-color", shadingText);
    FormatTexts(fontText);
    EntrySeparable(DocModel.Truthy(r.font), "font-family", fontText);
    SizeEntry(r);
    EntrySeparable(true, "font-size", SizeText(r));
    SeparableAppend(color, highlight);
    SeparableAppend(color + highlight, shading);
    SeparableAppend(color + highlight + shading, font);
    SeparableAppend(color + highlight + shading + font, size);
  }

  /** No entry of a run's CSS holds a ';' when its colour, highlight, shading and font hold none. */
  lemma RunCssSeparable(r: DocModel.RunProps)
    requires NoSemicolons(r)
    ensures Separable(HtmlStyles.RunCss(r))
  {
    var front := FormatCss(r);
    var small := HtmlStyles.Declared(r.isSmallCaps, "text-transform: capitalize");
    var all := HtmlStyles.Declared(r.isAllCaps, "text-transform: uppercase");
    var strike := HtmlStyles.Declared(r.isStrikethrough, "text-decoration: line-through");
    var under := HtmlStyles.Declared(r.isUnderline, "text-decoration: underline");
    var italic := HtmlStyles.Declared(r.isItalic, "font-style: italic");
    var bold := HtmlStyles.Declared(r.isBold, "font-weight: bold");
    FormatCssSeparable(r);
    FlagNames();
    FlagValues();
    CaseAndLineTexts();
    StyleAndWeightTexts();
    WordIsPlain("capitalize");
    EntrySeparable(r.isSmallCaps, "text-transform", "capitalize");
    WordIsPlain("uppercase");
    EntrySeparable(r.isAllCaps, "text-transform", "uppercase");
    WordIsPlain("line-through");
    EntrySeparable(r.isStrikethrough, "text-decoration", "line-through");
    WordIsPlain("underline");
    EntrySeparable(r.isUnderline, "text-decoration", "underline");
    WordIsPlain("italic");
    EntrySeparable(r.isItalic, "font-style", "italic");
    WordIsPlain("bold");
    EntrySeparable(r.isBold, "font-weight", "bold");
    SeparableAppend(front, small);
    SeparableAppend(front + small, all);
    SeparableAppend(front + small + all, strike);
    SeparableAppend(front + small + all + strike, under);
    SeparableAppend(front + small + all + strike + under, italic);
    SeparableAppend(front + small + all + strike + under + italic, bold);
    assert HtmlStyles.RunCss(r) == front + small + all + strike + under + italic + bold;
  }

  const FormatKeys: set<string> := {"color", "background-color", "font-family", "font-size"}

  lemma KeysAppend(a: seq<string>, b: seq<string>, keys: set<string>)
    requires DeclMap(a).Keys <= keys && DeclMap(b).Keys <= keys
    ensures DeclMap(a + b).Keys <= keys
  {
    DeclMapAppend(a, b);
  }

  /** The colours, the font and the size declare only their own names. */
  lemma FormatCssKeys(r: DocModel.RunProps)
    ensures DeclMap(FormatCss(r)).Keys <= FormatKeys
  {
    var colorText := HtmlStyles.FormatColor(HtmlStyles.Value(r.color));
    var highlightText := HtmlStyles.FormatColor(HtmlStyles.Value(r.highlight));
    var shadingText := HtmlStyles.FormatColor(HtmlStyles.Value(r.shading));
    var fontText := HtmlStyles.Value(r.font);
    var color := HtmlStyles.Declared(DocModel.Truthy(r.color), "color: " + colorText);
    var highlight := HtmlStyles.Declared(DocModel.Truthy(r.highlight), "background-color: " + highlightText);
    var shading := HtmlStyles.Declared(DocModel.Truthy(r.shading), "background-color: " + shadingText);
    var font := HtmlStyles.Declared(DocModel.Truthy(r.font), "font-family: " + fontText);
    var size := HtmlStyles.FontSizeEntry(r.fontSize);
    FormatNames();
    FormatTexts(colorText);
    EntryKeys(color, "color", colorText);
    FormatTexts(highlightText);
    EntryKeys(highlight, "background-color", highlightText);
    FormatTexts(shadingText);
    EntryKeys(shading, "background-color", shadingText);
    FormatTexts(fontText);
    EntryKeys(font, "font-family", fontText);
    SizeEntry(r);
    EntryKeys(size, "font-size", SizeText(r));
    KeysAppend(color, highlight, FormatKeys);
    KeysAppend(color + highlight, shading, FormatKeys);
    KeysAppend(color + highlight + shading, font, FormatKeys);
    KeysAppend(color + highlight + shading + font, size, FormatKeys);
  }

  // ---- the declarations read back ----

  /**
   * The dictionary of a run's CSS: the formatting declarations, then the transform (tt),
   * decoration (td), style (fs) and weight (fw) entries, each overriding what came before.
   */
  function Layered(base: map<string, string>, tt: string, td: string, fs: string, fw: string,
                   r: DocModel.RunProps): map<string, string> {
    base +
    Flagged(r.isSmallCaps, tt, "capitalize") + Flagged(r.isAllCaps, tt, "uppercase") +
    Flagged(r.isStrikethrough, td, "line-through") + Flagged(r.isUnderline, td, "underline") +
    Flagged(r.isItalic, fs, "italic") + Flagged(r.isBold, fw, "bold")
  }

  /** The entries of a run's CSS read in order: the formatting, then each flag overriding what came before. */
  lemma RunCssGroups(r: DocModel.RunProps)
    ensures DeclMap(HtmlStyles.RunCss(r)) ==
      Layered(DeclMap(FormatCss(r)), "text-transform", "text-decoration", "font-style", "font-weight", r)
  {
    var front := FormatCss(r);
    var small := HtmlStyles.Declared(r.isSmallCaps, "text-transform: capitalize");
    var all := HtmlStyles.Declared(r.isAllCaps, "text-transform: uppercase");
    var strike := HtmlStyles.Declared(r.isStrikethrough, "text-decoration: line-through");
    var under := HtmlStyles.Declared(r.isUnderline, "text-decoration: underline");
    var italic := HtmlStyles.Declared(r.isItalic, "font-style: italic");
    var bold := HtmlStyles.Declared(r.isBold, "font-weight: bold");
    assert HtmlStyles.RunCss(r) == front + small + all + strike + under + italic + bold;
    FlagNames();
    FlagValues();
    CaseAndLineTexts();
    StyleAndWeightTexts();
    FlagEntry(r.isSmallCaps, "text-transform", "capitalize");
    FlagEntry(r.isAllCaps, "text-transform", "uppercase");
    FlagEntry(r.isStrikethrough, "text-decoration", "line-through");
    FlagEntry(r.isUnderline, "text-decoration", "underline");
    FlagEntry(r.isItalic, "font-style", "italic");
    FlagEntry(r.isBold, "font-weight", "bold");
    DeclMapAppend(front, small);
    DeclMapAppend(front + small, all);
    DeclMapAppend(front + small + all, strike);
    DeclMapAppend(front + small + all + strike, under);
    DeclMapAppend(front + small + all + strike + under, italic);
    DeclMapAppend(front + small + all + strike + under + italic, bold);
  }

  /** Reading a name after one more flag: the flag's value when it is on and has that name, else as before. */
  lemma FlaggedLookup(m: map<string, string>, on: bool, k: string, v: string, j: string)
    ensures Lookup(m + Flagged(on, k, v), j) == if on && j == k then Some(v) else Lookup(m, j)
  {
  }

  /** The transform is uppercase for all caps, else capitalize for small caps. */
  lemma LayeredTransform(base: map<string, string>, tt: string, td: string, fs: string, fw: string, r: DocModel.RunProps)
    requires tt !in base && tt != td && tt != fs && tt != fw
    ensures Lookup(Layered(base, tt, td, fs, fw, r), tt) ==
      if r.isAllCaps then Some("uppercase") else if r.isSmallCaps then Some("capitalize") else None
  {
    var m0 := base;
    var m1 := m0 + Flagged(r.isSmallCaps, tt, "capitalize");
    var m2 := m1 + Flagged(r.isAllCaps, tt, "uppercase");
    var m3 := m2 + Flagged(r.isStrikethrough, td, "line-through");
    var m4 := m3 + Flagged(r.isUnderline, td, "underline");
    var m5 := m4 + Flagged(r.isItalic, fs, "italic");
    FlaggedLookup(m0, r.isSmallCaps, tt, "capitalize", tt);
    FlaggedLookup(m1, r.isAllCaps, tt, "uppercase", tt);
    FlaggedLookup(m2, r.isStrikethrough, td, "line-through", tt);
    FlaggedLookup(m3, r.isUnderline, td, "underline", tt);
    FlaggedLookup(m4, r.isItalic, fs, "italic", tt);
    FlaggedLookup(m5, r.isBold, fw, "bold", tt);
  }

  /** The decoration is underline for an underline, else line-through for a strikethrough. */
  lemma LayeredDecoration(base: map<string, string>, tt: string, td: string, fs: string, fw: string, r: DocModel.RunProps)
    requires td !in base && td != tt && td != fs && td != fw
    ensures Lookup(Layered(base, tt, td, fs, fw, r), td) ==
      if r.isUnderline then Some("underline") else if r.isStrikethrough then Some("line-through") else None
  {
    var m0 := base;
    var m1 := m0 + Flagged(r.isSmallCaps, tt, "capitalize");
    var m2 := m1 + Flagged(r.isAllCaps, tt, "uppercase");
    var m3 := m2 + Flagged(r.isStrikethrough, td, "line-through");
    var m4 := m3 + Flagged(r.isUnderline, td, "underline");
    var m5 := m4 + Flagged(r.isItalic, fs, "italic");
    FlaggedLookup(m0, r.isSmallCaps, tt, "capitalize", td);
    FlaggedLookup(m1, r.isAllCaps, tt, "uppercase", td);
    FlaggedLookup(m2, r.isStrikethrough, td, "line-through", td);
    FlaggedLookup(m3, r.isUnderline, td, "underline", td);
    FlaggedLookup(m4, r.isItalic, fs, "italic", td);
    FlaggedLookup(m5, r.isBold, fw, "bold", td);
  }

  /** The style is italic exactly for an italic run, and the weight bold exactly for a bold one. */
  lemma LayeredStyleWeight(base: map<string, string>, tt: string, td: string, fs: string, fw: string, r: DocModel.RunProps)
    requires fs !in base && fw !in base && fs != fw
    requires fs != tt && fs != td && fw != tt && fw != td
    ensures Lookup(Layered(base, tt, td, fs, fw, r), fs) == if r.isItalic then Some("italic") else None
    ensures Lookup(Layered(base, tt, td, fs, fw, r), fw) == if r.isBold then Some("bold") else None
  {
    var m0 := base;
    var m1 := m0 + Flagged(r.isSmallCaps, tt, "capitalize");
    var m2 := m1 + Flagged(r.isAllCaps, tt, "uppercase");
    var m3 := m2 + Flagged(r.isStrikethrough, td, "line-through");
    var m4 := m3 + Flagged(r.isUnderline, td, "underline");
    var m5 := m4 + Flagged(r.isItalic, fs, "italic");
    FlaggedLookup(m0, r.isSmallCaps, tt, "capitalize", fs);
    FlaggedLookup(m1, r.isAllCaps, tt, "uppercase", fs);
    FlaggedLookup(m2, r.isStrikethrough, td, "line-through", fs);
    FlaggedLookup(m3, r.isUnderline, td, "underline", fs);
    FlaggedLookup(m4, r.isItalic, fs, "italic", fs);
    FlaggedLookup(m5, r.isBold, fw, "bold", fs);
    FlaggedLookup(m0, r.isSmallCaps, tt, "capitalize", fw);
    FlaggedLookup(m1, r.isAllCaps, tt, "uppercase", fw);
    FlaggedLookup(m2, r.isStrikethrough, td, "line-through", fw);
    FlaggedLookup(m3, r.isUnderline, td, "underline", fw);
    FlaggedLookup(m4, r.isItalic, fs, "italic", fw);
    FlaggedLookup(m5, r.isBold, fw, "bold", fw);
  }

  lemma LayeredKeys(base: map<string, string>, tt: string, td: string, fs: string, fw: string, r: DocModel.RunProps)
    ensures Layered(base, tt, td, fs, fw, r).Keys <= base.Keys + {tt, td, fs, fw}
  {
  }

  /** The names the flags write are apart from each other and from the formatting names. */
  lemma FlagNamesApart()
    ensures "text-transform" !in FormatKeys && "text-decoration" !in FormatKeys
    ensures "font-style" !in FormatKeys && "font-weight" !in FormatKeys
    ensures "text-transform" != "text-decoration" && "text-transform" != "font-style" && "text-transform" != "font-weight"
    ensures "text-decoration" != "font-style" && "text-decoration" != "font-weight" && "font-style" != "font-weight"
  {
  }

  /** The names parse_style gives its flags are none of the CSS names a run's span declares. */
  lemma PropertyNamesApart()
    ensures var names := FormatKeys + {"text-transform", "text-decoration", "font-style", "font-weight"};
      "bold" !in names && "italics" !in names && "underline" !in names && "strike" !in names && "allCaps" !in names
  {
  }

  /**
   * The declarations of a run's CSS: the colours, font and size under their own names, and the
   * transform, decoration, style and weight each as the last entry written for them.
   */
  lemma RunCssDeclarations(r: DocModel.RunProps)
    ensures var d := DeclMap(HtmlStyles.RunCss(r));
      d.Keys <= FormatKeys + {"text-transform", "text-decoration", "font-style", "font-weight"} &&
      Lookup(d, "text-transform") == (if r.isAllCaps then Some("uppercase") else if r.isSmallCaps then Some("capitalize") else None) &&
      Lookup(d, "text-decoration") == (if r.isUnderline then Some("underline") else if r.isStrikethrough then Some("line-through") else None) &&
      Lookup(d, "font-style") == (if r.isItalic then Some("italic") else None) &&
      Lookup(d, "font-weight") == (if r.isBold then Some("bold") else None)
  {
    var base := DeclMap(FormatCss(r));
    FormatCssKeys(r);
    FlagNamesApart();
    LayeredKeys(base, "text-transform", "text-decoration", "font-style", "font-weight", r);
    LayeredTransform(base, "text-transform", "text-decoration", "font-style", "font-weight", r);
    LayeredDecoration(base, "text-transform", "text-decoration", "font-style", "font-weight", r);
    LayeredStyleWeight(base, "text-transform", "text-decoration", "font-style", "font-weight", r);
    RunCssGroups(r);
  }

  // ---- parse_style on the declarations read back ----

  /** Bold and italics when no declaration uses the property's own name: present exactly when converted, and then true. */
  lemma WeightAndStyleKept(d: map<string, string>)
    requires "bold" !in d && "italics" !in d
    ensures var s := InlineStyle.StyleOf(d);
      var v := InlineStyle.DerivedOf(d);
      (InlineStyle.Prop(InlineStyle.Bold) in s <==> v.bold) &&
      (InlineStyle.Prop(InlineStyle.Italics) in s <==> v.italic) &&
      (v.bold ==> s[InlineStyle.Prop(InlineStyle.Bold)] == InlineStyle.On) &&
      (v.italic ==> s[InlineStyle.Prop(InlineStyle.Italics)] == InlineStyle.On)
  {
    InlineStyle.AllowedKeys();
  }

  /** Underline, strike and all caps when no declaration uses the property's own name. */
  lemma LinesAndCaseKept(d: map<string, string>)
    requires "underline" !in d && "strike" !in d && "allCaps" !in d
    ensures var s := InlineStyle.StyleOf(d);
      var v := InlineStyle.DerivedOf(d);
      (InlineStyle.Prop(InlineStyle.Underline) in s <==> v.underline) &&
      (InlineStyle.Prop(InlineStyle.Strike) in s <==> v.lineThrough) &&
      (InlineStyle.Prop(InlineStyle.AllCaps) in s <==> v.upper) &&
      (v.underline ==> s[InlineStyle.Prop(InlineStyle.Underline)] == InlineStyle.On) &&
      (v.lineThrough ==> s[InlineStyle.Prop(InlineStyle.Strike)] == InlineStyle.On) &&
      (v.upper ==> s[InlineStyle.Prop(InlineStyle.AllCaps)] == InlineStyle.On)
  {
    InlineStyle.AllowedKeys();
  }

  /**
   * A run written as a span and its style attribute read back by parse_style: bold, italics,
   * underline, strikethrough and all caps come back exactly as the run had them, except that an
   * underline hides a strikethrough (both are text-decoration, and the underline is written last).
   */
  lemma RunCssReadBack(r: DocModel.RunProps)
    requires NoSemicolons(r)
    ensures var s := InlineStyle.StyleOf(DeclarationsOf(Some(Join(HtmlStyles.RunCss(r), "; "))));
      (InlineStyle.Prop(InlineStyle.Bold) in s <==> r.isBold) &&
      (InlineStyle.Prop(InlineStyle.Italics) in s <==> r.isItalic) &&
      (InlineStyle.Prop(InlineStyle.Underline) in s <==> r.isUnderline) &&
      (InlineStyle.Prop(InlineStyle.Strike) in s <==> r.isStrikethrough && !r.isUnderline) &&
      (InlineStyle.Prop(InlineStyle.AllCaps) in s <==> r.isAllCaps) &&
      (r.isBold ==> s[InlineStyle.Prop(InlineStyle.Bold)] == InlineStyle.On) &&
      (r.isItalic ==> s[InlineStyle.Prop(InlineStyle.Italics)] == InlineStyle.On) &&
      (r.isUnderline ==> s[InlineStyle.Prop(InlineStyle.Underline)] == InlineStyle.On) &&
      (r.isStrikethrough && !r.isUnderline ==> s[InlineStyle.Prop(InlineStyle.Strike)] == InlineStyle.On) &&
      (r.isAllCaps ==> s[InlineStyle.Prop(InlineStyle.AllCaps)] == InlineStyle.On)
  {
    RunCssSeparable(r);
    ReadBackJoined(HtmlStyles.RunCss(r));
    var d := DeclMap(HtmlStyles.RunCss(r));
    RunCssDeclarations(r);
    PropertyNamesApart();
    WeightAndStyleKept(d);
    LinesAndCaseKept(d);
  }
}
