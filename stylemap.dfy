// The JSON side of the variant expander: the key a class name gets
// (`jsKey`), the camel-case property names, and the property bag built
// from a rule body by `body.split(';').forEach(...)`.
module StyleMap {
  import opened Wrappers
  import opened Text

  // `cls.replace(/-/g, '_')`: the class name with every hyphen turned into
  // an underscore.
  function JsKey(cls: string): (k: string)
    ensures |k| == |cls| && '-' !in k
    ensures forall i | 0 <= i < |cls| :: k[i] == if cls[i] == '-' then '_' else cls[i]
  {
    ReplaceChar(cls, '-', '_')
  }

  predicate IsLower(c: char) { 'a' <= c <= 'z' }

  predicate IsUpper(c: char) { 'A' <= c <= 'Z' }

  function ToUpper(c: char): (u: char)
    requires IsLower(c)
    ensures IsUpper(u)
  {
    (c as int - 32) as char
  }

  function ToLower(c: char): (l: char)
    requires IsUpper(c)
    ensures IsLower(l)
  {
    (c as int + 32) as char
  }

  // `/-([a-z])/` matches at position `i`.
  predicate HyphenLower(s: string, i: int) {
    0 <= i < |s| - 1 && s[i] == '-' && IsLower(s[i + 1])
  }

  // `prop.replace(/-([a-z])/g, (_, c) => c.toUpperCase())`: each hyphen
  // followed by a lower-case ASCII letter becomes that letter in upper case.
  function Camel(s: string): (r: string)
    ensures |r| <= |s|
    decreases |s|
  {
    if s == [] then []
    else if HyphenLower(s, 0) then [ToUpper(s[1])] + Camel(s[2..])
    else [s[0]] + Camel(s[1..])
  }

  // The other way round: each upper-case ASCII letter becomes a hyphen and
  // the letter in lower case.
  function Kebab(s: string): (r: string)
    ensures |r| >= |s|
  {
    if s == [] then []
    else (if IsUpper(s[0]) then ['-', ToLower(s[0])] else [s[0]]) + Kebab(s[1..])
  }

  // ---------------------------------------------------------------------
  // Camel case

  lemma CamelHead(s: string)
    requires s != []
    ensures Camel(s) != []
    ensures Camel(s)[0] == if HyphenLower(s, 0) then ToUpper(s[1]) else s[0]
  {
  }

  // No hyphen followed by a lower-case letter is left.
  lemma {:induction false} CamelLeavesNone(s: string)
    ensures forall i :: !HyphenLower(Camel(s), i)
    decreases |s|
  {
    if s == [] {
    } else {
      var k := if HyphenLower(s, 0) then 2 else 1;
      var t := s[k..];
      var r := Camel(s);
      CamelLeavesNone(t);
      assert r == [r[0]] + Camel(t);
      forall i ensures !HyphenLower(r, i) {
        if i > 0 {
          assert HyphenLower(r, i) == HyphenLower(Camel(t), i - 1);
        } else if i == 0 && |r| > 1 && r[0] == '-' {
          assert k == 1 && s[0] == '-';
          CamelHead(t);
          assert !IsLower(s[1]);
        }
      }
    }
  }

  // Property names without hyphens are kept as they are.
  lemma {:induction false} CamelWithoutHyphen(s: string)
    requires '-' !in s
    ensures Camel(s) == s
    decreases |s|
  {
    if s != [] {
      CamelWithoutHyphen(s[1..]);
    }
  }

  // The first hyphen followed by a lower-case letter becomes that letter in
  // upper case, and the rest is converted on its own.
  lemma {:induction false} CamelHyphen(a: string, c: char, b: string)
    requires '-' !in a && IsLower(c)
    ensures Camel(a + ['-', c] + b) == a + [ToUpper(c)] + Camel(b)
    decreases |a|
  {
    var s := a + ['-', c] + b;
    if a == [] {
      assert s[2..] == b;
      assert HyphenLower(s, 0);
    } else {
      CamelHyphen(a[1..], c, b);
      assert s[1..] == a[1..] + ['-', c] + b;
      assert !HyphenLower(s, 0);
      assert [a[0]] + a[1..] == a;
    }
  }

  // Camel case loses nothing: for names without upper-case letters,
  // turning each capital back into a hyphen and a lower-case letter gives
  // the name back.
  lemma {:induction false} KebabCamel(s: string)
    requires forall i | 0 <= i < |s| :: !IsUpper(s[i])
    ensures Kebab(Camel(s)) == s
    decreases |s|
  {
    if s != [] {
      if HyphenLower(s, 0) {
        KebabCamel(s[2..]);
        assert ToLower(ToUpper(s[1])) == s[1];
        assert s == [s[0], s[1]] + s[2..];
      } else {
        KebabCamel(s[1..]);
        assert s == [s[0]] + s[1..];
      }
    }
  }

  // ---------------------------------------------------------------------
  // Declarations and the property bag

  // A declaration kept in the bag: the camel-case property and its value.
  datatype Decl = Decl(prop: string, value: string)

  // `const [prop, val] = pair.split(':').map(s => s.trim())`, then
  // `if (prop && val)`: the trimmed text before the first colon is the
  // property, the trimmed text between the first and the second colon is
  // the value; a piece with no colon has no value.
  function DeclOf(pair: string): Option<Decl> {
    var parts := Split(pair, ':');
    var prop := Trim(parts[0]);
    if |parts| > 1 && prop != "" && Trim(parts[1]) != "" then Some(Decl(Camel(prop), Trim(parts[1])))
    else None
  }

  // The bag after the given pieces: each declaration in turn, a later one
  // replacing an earlier one of the same property.
  function BagOf(pairs: seq<string>): map<string, string> {
    if pairs == [] then map[]
    else
      var bag := BagOf(pairs[..|pairs| - 1]);
      var d := DeclOf(pairs[|pairs| - 1]);
      if d.Some? then bag[d.value.prop := d.value.value] else bag
  }

  // The property bag of a rule body.
  function Bag(body: string): map<string, string> {
    BagOf(Split(body, ';'))
  }

  // The loop of the source over `body.split(';')`, filling a fresh bag.
  method PropertyBag(body: string) returns (bag: map<string, string>)
    ensures bag == Bag(body)
  {
    var pairs := Split(body, ';');
    bag := map[];
    for i := 0 to |pairs|
      invariant bag == BagOf(pairs[..i])
    {
      assert pairs[..i + 1][..i] == pairs[..i];
      var parts := Split(pairs[i], ':');
      var prop := Trim(parts[0]);
      var val := if |parts| > 1 then Some(Trim(parts[1])) else None;
      if prop != "" && val.Some? && val.value != "" {
        var camelProp := Camel(prop);
        bag := bag[camelProp := val.value];
      }
    }
    assert pairs[..|pairs|] == pairs;
  }

  // The piece declares property `p`.
  predicate Declares(pair: string, p: string) {
    DeclOf(pair).Some? && DeclOf(pair).value.prop == p
  }

  // A property is in the bag exactly when some piece declares it.
  lemma BagKeys(pairs: seq<string>, p: string)
    ensures p in BagOf(pairs) <==> exists i | 0 <= i < |pairs| :: Declares(pairs[i], p)
  {
    if p in BagOf(pairs) {
      var i := BagKeyDeclared(pairs, p);
    }
    if i :| 0 <= i < |pairs| && Declares(pairs[i], p) {
      DeclaredBagKey(pairs, p, i);
    }
  }

  lemma {:induction false} BagKeyDeclared(pairs: seq<string>, p: string) returns (i: int)
    requires p in BagOf(pairs)
    ensures 0 <= i < |pairs| && Declares(pairs[i], p)
  {
    var init := pairs[..|pairs| - 1];
    var last := pairs[|pairs| - 1];
    if Declares(last, p) {
      i := |pairs| - 1;
    } else {
      assert p in BagOf(init);
      i := BagKeyDeclared(init, p);
      assert init[i] == pairs[i];
    }
  }

  lemma {:induction false} DeclaredBagKey(pairs: seq<string>, p: string, i: int)
    requires 0 <= i < |pairs| && Declares(pairs[i], p)
    ensures p in BagOf(pairs)
  {
    var init := pairs[..|pairs| - 1];
    if i < |pairs| - 1 {
      assert init[i] == pairs[i];
      DeclaredBagKey(init, p, i);
    }
  }

  // The value of a property is that of its last declaration: a later
  // duplicate overwrites an earlier one.
  lemma {:induction false} BagLastWins(pairs: seq<string>, i: int)
    requires 0 <= i < |pairs| && DeclOf(pairs[i]).Some?
    requires forall j | i < j < |pairs| :: DeclOf(pairs[j]).Some? ==> DeclOf(pairs[j]).value.prop != DeclOf(pairs[i]).value.prop
    ensures var d := DeclOf(pairs[i]).value;
            d.prop in BagOf(pairs) && BagOf(pairs)[d.prop] == d.value
  {
    if i < |pairs| - 1 {
      var init := pairs[..|pairs| - 1];
      assert forall j | 0 <= j < |init| :: init[j] == pairs[j];
      BagLastWins(init, i);
    }
  }

  // ---------------------------------------------------------------------
  // How a piece is read

  // The value is what lies between the first and the second colon: a
  // value that holds a colon of its own, like a URL, is cut there.
  lemma ValueStopsAtSecondColon(prop: string, value: string, more: string)
    requires ':' !in prop && ':' !in value
    requires Trim(prop) != "" && Trim(value) != ""
    ensures DeclOf(prop + ":" + value + ":" + more) == Some(Decl(Camel(Trim(prop)), Trim(value)))
  {
    SplitFirst(prop, value + ":" + more, ':');
    SplitFirst(value, more, ':');
    assert prop + ":" + value + ":" + more == prop + [':'] + (value + ":" + more);
    assert value + ":" + more == value + [':'] + more;
  }

  // A piece with one colon declares the trimmed text on its two sides.
  lemma OneColon(prop: string, value: string)
    requires ':' !in prop && ':' !in value
    requires Trim(prop) != "" && Trim(value) != ""
    ensures DeclOf(prop + ":" + value) == Some(Decl(Camel(Trim(prop)), Trim(value)))
  {
    SplitFirst(prop, value, ':');
    SplitNone(value, ':');
    assert prop + ":" + value == prop + [':'] + value;
  }

  // A piece with no colon, or with nothing but white space on one side of
  // it, declares nothing.
  lemma NoColonNoDecl(pair: string)
    requires ':' !in pair
    ensures DeclOf(pair) == None
  {
    SplitNone(pair, ':');
  }

  // ---------------------------------------------------------------------
  // A worked example: the rule body `background-color: blue;`

  lemma CamelBackgroundColor(s: string)
    requires s == "background-color"
    ensures Camel(s) == "backgroundColor"
  {
    assert s == "background" + ['-', 'c'] + "olor";
    CamelHyphen("background", 'c', "olor");
    CamelWithoutHyphen("olor");
  }

  lemma TrimLeadingSpace(s: string)
    requires s == " blue"
    ensures Trim(s) == "blue"
  {
    assert s[1..] == "blue";
    assert LeadingWs(s) == 1;
  }

  // The declaration of `background-color: blue`.
  lemma BackgroundColorDecl(pair: string)
    requires pair == "background-color: blue"
    ensures DeclOf(pair) == Some(Decl("backgroundColor", "blue"))
  {
    var prop, value := "background-color", " blue";
    BackgroundColorSides(pair, prop, value);
    TrimOfTrimmed(prop);
    TrimLeadingSpace(value);
    OneColon(prop, value);
    CamelBackgroundColor(prop);
  }

  lemma BackgroundColorSides(pair: string, prop: string, value: string)
    requires pair == "background-color: blue"
    requires prop == "background-color" && value == " blue"
    ensures pair == prop + ":" + value && ':' !in prop && ':' !in value && IsTrimmed(prop)
  {
  }

  // Two pieces of which only the first declares something.
  lemma BagOfOne(a: string, b: string)
    requires DeclOf(a).Some? && DeclOf(b).None?
    ensures BagOf([a, b]) == map[DeclOf(a).value.prop := DeclOf(a).value.value]
  {
    var d := DeclOf(a).value;
    assert [a, b][..1] == [a] && [a][..0] == [];
    assert BagOf([a]) == map[][d.prop := d.value];
    assert BagOf([a, b]) == BagOf([a]);
  }

  lemma SplitBody(body: string)
    requires body == "background-color: blue;"
    ensures Split(body, ';') == ["background-color: blue", ""]
  {
    var pair := "background-color: blue";
    assert body == pair + [';'] + "";
    SplitFirst(pair, "", ';');
  }

  // The bag of `background-color: blue;`: the piece after the last `;` is
  // empty and declares nothing.
  lemma BtnPrimaryBag(body: string)
    requires body == "background-color: blue;"
    ensures Bag(body) == map["backgroundColor" := "blue"]
  {
    SplitBody(body);
    BackgroundColorDecl("background-color: blue");
    NoColonNoDecl("");
    BagOfOne("background-color: blue", "");
  }

  // The key of the class `btn-primary`.
  lemma BtnPrimaryKey(cls: string)
    requires cls == "btn-primary"
    ensures JsKey(cls) == "btn_primary"
  {
  }
}
