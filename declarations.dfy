/**
 * The inline-style declaration reader shared by parse_style, parse_border,
 * parse_image_floating and get_align: the style attribute is split on ';', each piece on ':',
 * and a piece that gives exactly two parts contributes its trimmed key and value, a later
 * declaration of a key replacing an earlier one.
 */
module Declarations {
  import opened Wrappers
  import opened Strings

  /** The key and value of one declaration, None when it does not split into exactly two parts. */
  function Decl(el: string): Option<(string, string)> {
    var values := Split(Trim(el), ':');
    if |values| == 2 then Some((Trim(values[0]), Trim(values[1]))) else None
  }

  predicate Declares(el: string, key: string) {
    Decl(el).Some? && Decl(el).value.0 == key
  }

  /** The dictionary built from the pieces in order. */
  function DeclMap(parts: seq<string>): map<string, string>
    decreases |parts|
  {
    if parts == [] then map[]
    else
      var m := DeclMap(parts[..|parts| - 1]);
      match Decl(parts[|parts| - 1])
      case Some(kv) => m[kv.0 := kv.1]
      case None => m
  }

  /** The dictionary of a style attribute; an absent attribute reads as "". */
  function DeclarationsOf(attr: Option<string>): map<string, string> {
    DeclMap(Split(attr.GetOr(""), ';'))
  }

  /** Dictionary lookup, None for a missing key (undefined). */
  function Lookup(d: map<string, string>, key: string): (r: Option<string>)
    ensures r.Some? <==> key in d
    ensures r.Some? ==> r.value == d[key]
  {
    if key in d then Some(d[key]) else None
  }

  /** The loop every inline-style parser opens with. */
  method ParseDeclarations(attr: Option<string>) returns (style: map<string, string>)
    ensures style == DeclarationsOf(attr)
  {
    var raw := Split(attr.GetOr(""), ';');
    style := map[];
    var i := 0;
    while i < |raw|
      invariant 0 <= i <= |raw|
      invariant style == DeclMap(raw[..i])
    {
      var decl := Decl(raw[i]);
      if decl.Some? {
        style := style[decl.value.0 := decl.value.1];
      }
      assert raw[..i + 1][..i] == raw[..i];
      i := i + 1;
    }
    assert raw[..|raw|] == raw;
  }

  /** A key is in the dictionary exactly when some well-formed declaration names it. */
  lemma {:induction false} DeclMapKeys(parts: seq<string>, key: string)
    ensures key in DeclMap(parts) <==> exists i :: 0 <= i < |parts| && Declares(parts[i], key)
    decreases |parts|
  {
    if parts != [] {
      var init := parts[..|parts| - 1];
      DeclMapKeys(init, key);
      if key in DeclMap(parts) && !Declares(parts[|parts| - 1], key) {
        assert key in DeclMap(init);
        var i :| 0 <= i < |init| && Declares(init[i], key);
        assert parts[i] == init[i];
      }
      if exists i :: 0 <= i < |parts| && Declares(parts[i], key) {
        var i :| 0 <= i < |parts| && Declares(parts[i], key);
        if i < |init| {
          assert init[i] == parts[i];
        }
      }
    }
  }

  /** The value of a key is the one given by its last well-formed declaration. */
  lemma {:induction false} DeclMapLast(parts: seq<string>, i: nat, key: string)
    requires i < |parts| && Declares(parts[i], key)
    requires forall j :: i < j < |parts| ==> !Declares(parts[j], key)
    ensures key in DeclMap(parts) && DeclMap(parts)[key] == Decl(parts[i]).value.1
    decreases |parts|
  {
    var init := parts[..|parts| - 1];
    if i < |parts| - 1 {
      assert !Declares(parts[|parts| - 1], key);
      forall j | i < j < |init| ensures !Declares(init[j], key) {
        assert init[j] == parts[j];
      }
      DeclMapLast(init, i, key);
    }
  }

  /** A piece that does not split into two parts adds nothing, wherever it stands. */
  lemma {:induction false} DeclMapIgnores(a: seq<string>, el: string, b: seq<string>)
    requires Decl(el).None?
    ensures DeclMap(a + [el] + b) == DeclMap(a + b)
    decreases |b|
  {
    if b == [] {
      assert (a + [el] + b)[..|a + [el] + b| - 1] == a;
      assert a + b == a;
    } else {
      var b' := b[..|b| - 1];
      DeclMapIgnores(a, el, b');
      assert (a + [el] + b)[..|a + [el] + b| - 1] == a + [el] + b';
      assert (a + b)[..|a + b| - 1] == a + b';
      assert (a + [el] + b)[|a + [el] + b| - 1] == b[|b| - 1] == (a + b)[|a + b| - 1];
    }
  }

  /** "a:b:c" and "a" are both ignored. */
  lemma MalformedIgnored()
    ensures Decl("a:b:c").None? && Decl("a").None?
  {
    assert Trim("a:b:c") == "a:b:c" by {
      TrimNoSpace("a:b:c");
    }
    assert Split("a:b:c", ':') == ["a", "b", "c"] by {
      assert "a:b:c" == "a" + [':'] + "b:c";
      SplitCons("a", ':', "b:c");
      assert "b:c" == "b" + [':'] + "c";
      SplitCons("b", ':', "c");
      SplitNoSepIsSingleton("c", ':');
    }
    assert Trim("a") == "a" by {
      TrimNoSpace("a");
    }
    SplitNoSepIsSingleton("a", ':');
  }
}
