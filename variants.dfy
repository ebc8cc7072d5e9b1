// The variant expander (`tools/variants-generator.js`). Each line of the
// base stylesheet that reads `.cls { body }` is a base rule; for it the
// expander emits, right away, twelve rules (plain, each of the four states
// and group-hover, each in a light and a dark form) and, for each of the
// five breakpoints, six light and six dark rules that are buffered per
// breakpoint. After the last line the buffers become two `@media` blocks
// per breakpoint, light then dark. Beside the CSS it builds the map from
// each class's JSON key to its property bag.
module Variants {
  import opened Wrappers
  import opened Text
  import opened StyleMap

  // ---------------------------------------------------------------------
  // The fixed axes

  datatype Breakpoint = Breakpoint(key: string, query: string)

  const Breakpoints: seq<Breakpoint> := [
    Breakpoint("sm", "@media (min-width: 480px)"),
    Breakpoint("md", "@media (min-width: 768px)"),
    Breakpoint("lg", "@media (min-width: 1024px)"),
    Breakpoint("xl", "@media (min-width: 1280px)"),
    Breakpoint("uw", "@media (min-width: 1536px)")
  ]

  datatype State = State(name: string, pseudo: string)

  // `Object.entries(states)`, in the order the object literal lists them.
  const States: seq<State> := [
    State("hover", ":hover"),
    State("focus", ":focus"),
    State("active", ":active"),
    State("disabled", ":disabled")
  ]

  const DarkAttr: string := "html[data-theme=\"dark\"]"

  // ---------------------------------------------------------------------
  // What is emitted for one base rule

  datatype BaseRule = BaseRule(cls: string, body: string)

  // One member of a rule's selector family: the text put before the class
  // name and the pseudo-class put after it.
  datatype Variant = Variant(prefix: string, pseudo: string)

  function StateVariant(s: State): Variant {
    Variant(s.name + "-", s.pseudo)
  }

  // The family, in emission order: the plain class, the four states,
  // group-hover.
  function Family(): (f: seq<Variant>)
    ensures |f| == 6
  {
    [Variant("", "")] + seq(|States|, i requires 0 <= i < |States| => StateVariant(States[i])) + [Variant("group-hover-", "")]
  }

  // The light rule of a variant; `scope` is empty, or a breakpoint key and a hyphen.
  function LightRule(scope: string, v: Variant, r: BaseRule): string {
    "." + scope + v.prefix + r.cls + v.pseudo + " { " + r.body + " }"
  }

  // The dark rule of a variant.
  function DarkRule(scope: string, v: Variant, r: BaseRule): string {
    DarkAttr + " .dark-" + scope + v.prefix + r.cls + v.pseudo + " { " + r.body + " }"
  }

  // Light rule, then dark rule, for each of the variants.
  function Pairs(vs: seq<Variant>, r: BaseRule): (out: seq<string>)
    ensures |out| == 2 * |vs|
  {
    if vs == [] then []
    else Pairs(vs[..|vs| - 1], r) + [LightRule("", vs[|vs| - 1], r), DarkRule("", vs[|vs| - 1], r)]
  }

  // What a rule adds to `baseRules`.
  function BaseEntries(r: BaseRule): seq<string> {
    Pairs(Family(), r)
  }

  // What a rule adds to `respLight[key]`.
  function LightEntries(key: string, r: BaseRule): (out: seq<string>)
    ensures |out| == 6
  {
    seq(|Family()|, i requires 0 <= i < |Family()| => LightRule(key + "-", Family()[i], r))
  }

  // What a rule adds to `respDark[key]`.
  function DarkEntries(key: string, r: BaseRule): (out: seq<string>)
    ensures |out| == 6
  {
    seq(|Family()|, i requires 0 <= i < |Family()| => DarkRule(key + "-", Family()[i], r))
  }

  // ---------------------------------------------------------------------
  // What is emitted for all of them

  // `baseRules` after the given rules.
  function BaseRules(rules: seq<BaseRule>): (out: seq<string>)
    ensures |out| == 12 * |rules|
  {
    if rules == [] then [] else BaseRules(rules[..|rules| - 1]) + BaseEntries(rules[|rules| - 1])
  }

  // `respLight[key]` after the given rules.
  function LightFor(key: string, rules: seq<BaseRule>): (out: seq<string>)
    ensures |out| == 6 * |rules|
  {
    if rules == [] then [] else LightFor(key, rules[..|rules| - 1]) + LightEntries(key, rules[|rules| - 1])
  }

  // `respDark[key]` after the given rules.
  function DarkFor(key: string, rules: seq<BaseRule>): (out: seq<string>)
    ensures |out| == 6 * |rules|
  {
    if rules == [] then [] else DarkFor(key, rules[..|rules| - 1]) + DarkEntries(key, rules[|rules| - 1])
  }

  // One `@media` block around buffered rules.
  function MediaBlock(query: string, entries: seq<string>): string {
    query + " {\n" + Join(entries, "\n") + "\n}"
  }

  // `respRules` after the given breakpoints: a light block, then a dark block, for each.
  function RespBlocks(bps: seq<Breakpoint>, rules: seq<BaseRule>): (out: seq<string>)
    ensures |out| == 2 * |bps|
  {
    if bps == [] then []
    else
      var b := bps[|bps| - 1];
      RespBlocks(bps[..|bps| - 1], rules) + [MediaBlock(b.query, LightFor(b.key, rules)), MediaBlock(b.query, DarkFor(b.key, rules))]
  }

  // `[...baseRules, ...respRules].join('\n')`.
  function FinalCss(rules: seq<BaseRule>): string {
    Join(BaseRules(rules) + RespBlocks(Breakpoints, rules), "\n")
  }

  // `jsonStyles` after the given rules: each rule's key gets a fresh bag.
  function StylesOf(rules: seq<BaseRule>): map<string, map<string, string>> {
    if rules == [] then map[]
    else
      var r := rules[|rules| - 1];
      StylesOf(rules[..|rules| - 1])[JsKey(r.cls) := Bag(r.body)]
  }

  // ---------------------------------------------------------------------
  // Which lines are base rules

  // How far `[^\s{]+` reaches: the characters `s` starts with that are
  // neither white space nor `{`.
  function NameLength(s: string): (n: nat)
    ensures n <= |s|
  {
    if s != [] && !IsWs(s[0]) && s[0] != '{' then 1 + NameLength(s[1..]) else 0
  }

  // What `/^\.([^\s{]+)/` accepts as a class name.
  predicate ClassName(cls: string) {
    cls != [] && forall i | 0 <= i < |cls| :: !IsWs(cls[i]) && cls[i] != '{'
  }

  // The base rule a line holds: its trimmed form starts with `.` and holds
  // a `{`, and `/^\.([^\s{]+)/` finds a class name; the body is the trimmed
  // `t.slice(t.indexOf('{') + 1, t.lastIndexOf('}'))`.
  function Recognize(line: string): Option<BaseRule> {
    RuleOf(Trim(line))
  }

  // The base rule a trimmed line holds.
  function RuleOf(t: string): Option<BaseRule> {
    if !StartsWith(t, ".") || '{' !in t then None
    else
      var n := NameLength(t[1..]);
      if n == 0 then None
      else Some(BaseRule(t[1..1 + n], BodyOf(t)))
  }

  // The trimmed text between the first `{` and the last `}`.
  function BodyOf(t: string): string {
    Trim(Slice(t, IndexOf(t, '{') + 1, LastIndexOf(t, '}')))
  }

  // The base rules of the given lines, in order.
  function RulesOf(lines: seq<string>): seq<BaseRule> {
    if lines == [] then []
    else
      var r := Recognize(lines[|lines| - 1]);
      RulesOf(lines[..|lines| - 1]) + (if r.Some? then [r.value] else [])
  }

  lemma RulesOfStep(lines: seq<string>, i: int)
    requires 0 <= i < |lines|
    ensures var r := Recognize(lines[i]);
            RulesOf(lines[..i + 1]) == RulesOf(lines[..i]) + (if r.Some? then [r.value] else [])
  {
    assert lines[..i + 1][..i] == lines[..i];
  }

  // ---------------------------------------------------------------------
  // The generator

  // `respLight` and `respDark` hold, for every breakpoint, the rules of
  // `done` when the breakpoint comes before `j` and those of `before`
  // otherwise.
  predicate Buffered(respLight: map<string, seq<string>>, respDark: map<string, seq<string>>,
                     before: seq<BaseRule>, done: seq<BaseRule>, j: int)
  {
    forall m | 0 <= m < |Breakpoints| ::
      var key := Breakpoints[m].key;
      var rules := if m < j then done else before;
      key in respLight && key in respDark && respLight[key] == LightFor(key, rules) && respDark[key] == DarkFor(key, rules)
  }

  lemma KeysDistinct()
    ensures forall m, n | 0 <= m < n < |Breakpoints| :: Breakpoints[m].key != Breakpoints[n].key
  {
  }

  // The base section for one rule: plain, dark, each state and its dark
  // form, group-hover and its dark form.
  method EmitBase(baseRules: seq<string>, cls: string, body: string) returns (out: seq<string>)
    ensures out == baseRules + BaseEntries(BaseRule(cls, body))
  {
    ghost var r := BaseRule(cls, body);
    ghost var family := Family();
    out := baseRules;
    out := out + ["." + cls + " { " + body + " }"];
    out := out + [DarkAttr + " .dark-" + cls + " { " + body + " }"];
    assert family[..1] == [Variant("", "")];
    assert out == baseRules + Pairs(family[..1], r) by {
      assert Pairs(family[..1], r) == [LightRule("", family[0], r), DarkRule("", family[0], r)] by {
        assert family[..1][..0] == [];
      }
      PlainRules(r);
    }
    for k := 0 to |States|
      invariant out == baseRules + Pairs(family[..k + 1], r)
    {
      var state := States[k];
      out := out + ["." + state.name + "-" + cls + state.pseudo + " { " + body + " }"];
      out := out + [DarkAttr + " .dark-" + state.name + "-" + cls + state.pseudo + " { " + body + " }"];
      assert family[k + 1] == StateVariant(state);
      assert family[..k + 2][..k + 1] == family[..k + 1];
      StateRules(state, r);
    }
    out := out + [".group-hover-" + cls + " { " + body + " }"];
    out := out + [DarkAttr + " .dark-group-hover-" + cls + " { " + body + " }"];
    assert family[..6] == family;
    assert family[..6][..5] == family[..5];
    GroupHoverRules(r);
  }

  // The plain rules as the source writes them.
  lemma PlainRules(r: BaseRule)
    ensures LightRule("", Variant("", ""), r) == "." + r.cls + " { " + r.body + " }"
    ensures DarkRule("", Variant("", ""), r) == DarkAttr + " .dark-" + r.cls + " { " + r.body + " }"
  {
    assert "." + "" + "" == ".";
    assert DarkAttr + " .dark-" + "" + "" == DarkAttr + " .dark-";
    assert r.cls + "" == r.cls;
  }

  // The state rules as the source writes them.
  lemma StateRules(state: State, r: BaseRule)
    ensures LightRule("", StateVariant(state), r) == "." + state.name + "-" + r.cls + state.pseudo + " { " + r.body + " }"
    ensures DarkRule("", StateVariant(state), r) == DarkAttr + " .dark-" + state.name + "-" + r.cls + state.pseudo + " { " + r.body + " }"
  {
  }

  lemma GroupHoverRules(r: BaseRule)
    ensures LightRule("", Family()[5], r) == ".group-hover-" + r.cls + " { " + r.body + " }"
    ensures DarkRule("", Family()[5], r) == DarkAttr + " .dark-group-hover-" + r.cls + " { " + r.body + " }"
  {
    assert Family()[5] == Variant("group-hover-", "");
  }

  // The scoped rules as the source writes them.
  lemma ScopedPlainRules(key: string, r: BaseRule)
    ensures LightRule(key + "-", Variant("", ""), r) == "." + key + "-" + r.cls + " { " + r.body + " }"
    ensures DarkRule(key + "-", Variant("", ""), r) == DarkAttr + " .dark-" + key + "-" + r.cls + " { " + r.body + " }"
  {
    assert r.cls + "" == r.cls;
  }

  lemma ScopedStateRules(key: string, state: State, r: BaseRule)
    ensures LightRule(key + "-", StateVariant(state), r) == "." + key + "-" + state.name + "-" + r.cls + state.pseudo + " { " + r.body + " }"
    ensures DarkRule(key + "-", StateVariant(state), r) == DarkAttr + " .dark-" + key + "-" + state.name + "-" + r.cls + state.pseudo + " { " + r.body + " }"
  {
  }

  // The entries of the `k`-th state extend those before it.
  lemma ScopedStep(key: string, r: BaseRule, k: int)
    requires 0 <= k < |States|
    ensures var lights := LightEntries(key, r);
            var state := States[k];
            lights[..k + 2] == lights[..k + 1] + ["." + key + "-" + state.name + "-" + r.cls + state.pseudo + " { " + r.body + " }"]
    ensures var darks := DarkEntries(key, r);
            var state := States[k];
            darks[..k + 2] == darks[..k + 1] + [DarkAttr + " .dark-" + key + "-" + state.name + "-" + r.cls + state.pseudo + " { " + r.body + " }"]
  {
    var lights := LightEntries(key, r);
    var darks := DarkEntries(key, r);
    assert Family()[k + 1] == StateVariant(States[k]);
    ScopedStateRules(key, States[k], r);
    assert lights[..k + 2] == lights[..k + 1] + [lights[k + 1]];
    assert darks[..k + 2] == darks[..k + 1] + [darks[k + 1]];
  }

  lemma ScopedGroupHoverRules(key: string, r: BaseRule)
    ensures LightRule(key + "-", Family()[5], r) == "." + key + "-group-hover-" + r.cls + " { " + r.body + " }"
    ensures DarkRule(key + "-", Family()[5], r) == DarkAttr + " .dark-" + key + "-group-hover-" + r.cls + " { " + r.body + " }"
  {
  }

  // The responsive rules of one rule at one breakpoint: `light` and `dark`
  // are `respLight[key]` and `respDark[key]` before, the results after.
  method EmitBreakpoint(light: seq<string>, dark: seq<string>, key: string, cls: string, body: string)
    returns (newLight: seq<string>, newDark: seq<string>)
    ensures newLight == light + LightEntries(key, BaseRule(cls, body))
    ensures newDark == dark + DarkEntries(key, BaseRule(cls, body))
  {
    ghost var r := BaseRule(cls, body);
    ghost var lights := LightEntries(key, r);
    ghost var darks := DarkEntries(key, r);
    newLight := light + ["." + key + "-" + cls + " { " + body + " }"];
    newDark := dark + [DarkAttr + " .dark-" + key + "-" + cls + " { " + body + " }"];
    ScopedPlainRules(key, r);
    assert lights[..1] == [lights[0]] && darks[..1] == [darks[0]];
    for k := 0 to |States|
      invariant newLight == light + lights[..k + 1]
      invariant newDark == dark + darks[..k + 1]
    {
      var state := States[k];
      newLight := newLight + ["." + key + "-" + state.name + "-" + cls + state.pseudo + " { " + body + " }"];
      newDark := newDark + [DarkAttr + " .dark-" + key + "-" + state.name + "-" + cls + state.pseudo + " { " + body + " }"];
      ScopedStep(key, r, k);
    }
    newLight := newLight + ["." + key + "-group-hover-" + cls + " { " + body + " }"];
    newDark := newDark + [DarkAttr + " .dark-" + key + "-group-hover-" + cls + " { " + body + " }"];
    ScopedGroupHoverRules(key, r);
    assert lights == lights[..5] + [lights[5]];
    assert darks == darks[..5] + [darks[5]];
  }

  // One more rule in the buffers of a breakpoint.
  lemma BufferStep(key: string, rules: seq<BaseRule>, r: BaseRule)
    ensures LightFor(key, rules + [r]) == LightFor(key, rules) + LightEntries(key, r)
    ensures DarkFor(key, rules + [r]) == DarkFor(key, rules) + DarkEntries(key, r)
  {
    assert (rules + [r])[..|rules|] == rules;
  }

  // The loop over the breakpoints for one rule.
  method EmitResponsive(respLight: map<string, seq<string>>, respDark: map<string, seq<string>>,
                        ghost rules: seq<BaseRule>, cls: string, body: string)
    returns (newLight: map<string, seq<string>>, newDark: map<string, seq<string>>)
    requires Buffered(respLight, respDark, rules, rules, 0)
    ensures Buffered(newLight, newDark, rules + [BaseRule(cls, body)], rules + [BaseRule(cls, body)], 0)
  {
    ghost var done := rules + [BaseRule(cls, body)];
    newLight, newDark := respLight, respDark;
    KeysDistinct();
    for j := 0 to |Breakpoints|
      invariant Buffered(newLight, newDark, rules, done, j)
    {
      var b := Breakpoints[j];
      var light, dark := EmitBreakpoint(newLight[b.key], newDark[b.key], b.key, cls, body);
      BufferStep(b.key, rules, BaseRule(cls, body));
      newLight := newLight[b.key := light];
      newDark := newDark[b.key := dark];
    }
  }

  // The generator's state after the base rules `rules`.
  predicate Emitted(rules: seq<BaseRule>, baseRules: seq<string>, jsonStyles: map<string, map<string, string>>,
                    respLight: map<string, seq<string>>, respDark: map<string, seq<string>>)
  {
    baseRules == BaseRules(rules) && jsonStyles == StylesOf(rules) && Buffered(respLight, respDark, rules, rules, 0)
  }

  // The body of the loop over the lines: a line that is a base rule has its
  // JSON entry, its base rules and its responsive rules emitted; any other
  // line is skipped.
  method ProcessLine(line: string, ghost rules: seq<BaseRule>, baseRules: seq<string>,
                     jsonStyles: map<string, map<string, string>>,
                     respLight: map<string, seq<string>>, respDark: map<string, seq<string>>)
    returns (newBase: seq<string>, newStyles: map<string, map<string, string>>,
             newLight: map<string, seq<string>>, newDark: map<string, seq<string>>)
    requires Emitted(rules, baseRules, jsonStyles, respLight, respDark)
    ensures var r := Recognize(line);
            Emitted(rules + (if r.Some? then [r.value] else []), newBase, newStyles, newLight, newDark)
  {
    newBase, newStyles, newLight, newDark := baseRules, jsonStyles, respLight, respDark;
    var t := Trim(line);
    if !StartsWith(t, ".") || '{' !in t {
      assert Recognize(line) == None && rules + [] == rules;
      return;
    }
    var n := NameLength(t[1..]);
    if n == 0 {
      assert Recognize(line) == None && rules + [] == rules;
      return;
    }
    var cls := t[1..1 + n];
    var body := Trim(Slice(t, IndexOf(t, '{') + 1, LastIndexOf(t, '}')));
    assert Recognize(line) == Some(BaseRule(cls, body));
    newBase, newStyles, newLight, newDark := EmitRule(rules, cls, body, newBase, newStyles, newLight, newDark);
  }

  // Everything one base rule adds: its JSON entry, its base rules and its
  // responsive rules.
  method EmitRule(ghost rules: seq<BaseRule>, cls: string, body: string, baseRules: seq<string>,
                  jsonStyles: map<string, map<string, string>>,
                  respLight: map<string, seq<string>>, respDark: map<string, seq<string>>)
    returns (newBase: seq<string>, newStyles: map<string, map<string, string>>,
             newLight: map<string, seq<string>>, newDark: map<string, seq<string>>)
    requires Emitted(rules, baseRules, jsonStyles, respLight, respDark)
    ensures Emitted(rules + [BaseRule(cls, body)], newBase, newStyles, newLight, newDark)
  {
    ghost var done := rules + [BaseRule(cls, body)];
    assert done[..|done| - 1] == rules;

    var jsKey := JsKey(cls);
    var bag := PropertyBag(body);
    newStyles := jsonStyles[jsKey := bag];

    newBase := EmitBase(baseRules, cls, body);
    newLight, newDark := EmitResponsive(respLight, respDark, rules, cls, body);
  }

  // `breakpoints.forEach(({ key }) => { respLight[key] = []; respDark[key] = []; })`.
  method EmptyBuffers() returns (respLight: map<string, seq<string>>, respDark: map<string, seq<string>>)
    ensures Buffered(respLight, respDark, [], [], 0)
  {
    respLight, respDark := map[], map[];
    for j := 0 to |Breakpoints|
      invariant forall m | 0 <= m < j :: var key := Breakpoints[m].key;
        key in respLight && key in respDark && respLight[key] == [] && respDark[key] == []
    {
      respLight := respLight[Breakpoints[j].key := []];
      respDark := respDark[Breakpoints[j].key := []];
    }
  }

  // The loop that wraps the buffers into `@media` blocks, in breakpoint order.
  method MediaBlocks(respLight: map<string, seq<string>>, respDark: map<string, seq<string>>, ghost rules: seq<BaseRule>)
    returns (respRules: seq<string>)
    requires Buffered(respLight, respDark, rules, rules, 0)
    ensures respRules == RespBlocks(Breakpoints, rules)
  {
    respRules := [];
    for j := 0 to |Breakpoints|
      invariant respRules == RespBlocks(Breakpoints[..j], rules)
    {
      var b := Breakpoints[j];
      respRules := respRules + [b.query + " {\n" + Join(respLight[b.key], "\n") + "\n}"];
      respRules := respRules + [b.query + " {\n" + Join(respDark[b.key], "\n") + "\n}"];
      assert Breakpoints[..j + 1][..j] == Breakpoints[..j];
    }
    assert Breakpoints[..|Breakpoints|] == Breakpoints;
  }

  // The whole generator on the text of the base stylesheet: the CSS it
  // writes and the style map it writes as JSON.
  method Generate(source: string) returns (finalCss: string, jsonStyles: map<string, map<string, string>>)
    ensures finalCss == FinalCss(RulesOf(SplitLines(source)))
    ensures jsonStyles == StylesOf(RulesOf(SplitLines(source)))
  {
    var lines := SplitLines(source);
    var baseRules: seq<string> := [];
    jsonStyles := map[];
    var respLight, respDark := EmptyBuffers();

    ghost var rules: seq<BaseRule> := [];
    for i := 0 to |lines|
      invariant rules == RulesOf(lines[..i])
      invariant Emitted(rules, baseRules, jsonStyles, respLight, respDark)
    {
      baseRules, jsonStyles, respLight, respDark := ProcessLine(lines[i], rules, baseRules, jsonStyles, respLight, respDark);
      RulesOfStep(lines, i);
      rules := RulesOf(lines[..i + 1]);
    }
    assert lines[..|lines|] == lines;

    var respRules := MediaBlocks(respLight, respDark, rules);
    finalCss := Join(baseRules + respRules, "\n");
  }

  // ---------------------------------------------------------------------
  // Which lines are base rules, stated outright

  // The run `NameLength` measures is a class name unless it is empty; it
  // stops at white space or `{`, so before the end when there is a `{`.
  lemma {:induction false} NameLengthSpec(s: string)
    ensures var n := NameLength(s);
            (n > 0 ==> ClassName(s[..n])) && (n < |s| ==> IsWs(s[n]) || s[n] == '{') && ('{' in s ==> n < |s|)
    decreases |s|
  {
    if s != [] && !IsWs(s[0]) && s[0] != '{' {
      var rest := s[1..];
      NameLengthSpec(rest);
      var m := NameLength(rest);
      var name := s[..m + 1];
      assert name == [s[0]] + rest[..m];
      if '{' in s {
        assert '{' in rest by {
          var k :| 0 <= k < |s| && s[k] == '{';
          assert rest[k - 1] == '{';
        }
      }
      forall i | 0 <= i < m + 1 ensures !IsWs(name[i]) && name[i] != '{' {
        if i > 0 {
          assert name[i] == rest[..m][i - 1];
        }
      }
    }
  }

  // A line is a base rule exactly when, trimmed, it starts with a dot that
  // is followed by neither white space nor `{`, and holds a `{`.
  lemma RecognizeIff(line: string)
    ensures Recognize(line).Some? <==>
            var t := Trim(line);
            |t| >= 2 && t[0] == '.' && !IsWs(t[1]) && t[1] != '{' && '{' in t
  {
    var t := Trim(line);
    if |t| >= 1 && t[0] == '.' {
      assert t[..1] == ".";
      NameLengthZero(t[1..]);
    } else {
      assert !StartsWith(t, ".");
    }
  }

  // The name is empty exactly when its first character is missing, white
  // space or `{`.
  lemma NameLengthZero(s: string)
    ensures NameLength(s) == 0 <==> |s| == 0 || IsWs(s[0]) || s[0] == '{'
  {
  }

  // The class name is the longest run after the dot of characters that are
  // neither white space nor `{`; it is never empty.
  lemma RecognizeClass(line: string)
    requires Recognize(line).Some?
    ensures var t := Trim(line);
            var c := Recognize(line).value.cls;
            ClassName(c) && 1 + |c| < |t| && t[..1 + |c|] == "." + c &&
            (IsWs(t[1 + |c|]) || t[1 + |c|] == '{')
  {
    var t := Trim(line);
    RecognizeParts(line);
    ClassOf(t);
  }

  // What a recognised line's trimmed form holds.
  lemma RecognizeParts(line: string)
    requires Recognize(line).Some?
    ensures var t := Trim(line);
            var n := NameLength(t[1..]);
            |t| >= 1 && t[0] == '.' && '{' in t && 0 < n && Recognize(line).value.cls == t[1..1 + n] &&
            0 < IndexOf(t, '{') && Recognize(line).value.body == BodyOf(t)
  {
    var t := Trim(line);
    assert t[..1] == ".";
  }

  // The class name read after the dot of `t`.
  lemma ClassOf(t: string)
    requires |t| >= 1 && t[0] == '.' && '{' in t
    ensures var n := NameLength(t[1..]);
            var c := t[1..1 + n];
            0 < n ==> ClassName(c) && 1 + n < |t| && t[..1 + n] == "." + c && (IsWs(t[1 + n]) || t[1 + n] == '{')
  {
    var s := t[1..];
    var n := NameLength(s);
    assert '{' in s by {
      var o :| 0 <= o < |t| && t[o] == '{';
      assert o >= 1 && s[o - 1] == '{';
    }
    NameLengthSpec(s);
    assert s[..n] == t[1..1 + n];
    assert t[..1 + n] == [t[0]] + s[..n];
    assert s[n] == t[1 + n];
  }

  // The body is the trimmed text between the first `{` and the last `}`;
  // when the line has no `}` at all, it runs to the line's last character,
  // which is dropped, and when the last `}` comes before the first `{` it
  // is empty.
  lemma RecognizeBody(line: string)
    requires Recognize(line).Some?
    ensures var t := Trim(line);
            var o := IndexOf(t, '{');
            var c := LastIndexOf(t, '}');
            var body := Recognize(line).value.body;
            0 < o < |t| &&
            (o < c ==> body == Trim(t[o + 1..c])) &&
            (0 <= c < o ==> body == "") &&
            (c == -1 && o + 1 < |t| - 1 ==> body == Trim(t[o + 1..|t| - 1])) &&
            (c == -1 && o + 1 >= |t| - 1 ==> body == "")
  {
    var t := Trim(line);
    RecognizeParts(line);
    SliceBody(t, IndexOf(t, '{'), LastIndexOf(t, '}'));
  }

  lemma SliceBody(t: string, o: int, c: int)
    requires 0 < o < |t| && -1 <= c < |t| && c != o
    ensures var s := Slice(t, o + 1, c);
            (o < c ==> s == t[o + 1..c]) &&
            (0 <= c < o ==> s == "") &&
            (c == -1 && o + 1 < |t| - 1 ==> s == t[o + 1..|t| - 1]) &&
            (c == -1 && o + 1 >= |t| - 1 ==> s == "")
  {
  }

  // The values present in a sequence of options, in order.
  function Present(opts: seq<Option<BaseRule>>): seq<BaseRule> {
    if opts == [] then []
    else Present(opts[..|opts| - 1]) + (if opts[|opts| - 1].Some? then [opts[|opts| - 1].value] else [])
  }

  lemma {:induction false} PresentMembers(opts: seq<Option<BaseRule>>, r: BaseRule)
    ensures r in Present(opts) <==> Some(r) in opts
  {
    if opts != [] {
      var init := opts[..|opts| - 1];
      PresentMembers(init, r);
      assert opts == init + [opts[|opts| - 1]];
    }
  }

  lemma {:induction false} RulesOfPresent(lines: seq<string>)
    ensures RulesOf(lines) == Present(seq(|lines|, i requires 0 <= i < |lines| => Recognize(lines[i])))
  {
    if lines != [] {
      var init := lines[..|lines| - 1];
      RulesOfPresent(init);
      var opts := seq(|lines|, i requires 0 <= i < |lines| => Recognize(lines[i]));
      assert opts[..|opts| - 1] == seq(|init|, i requires 0 <= i < |init| => Recognize(init[i]));
    }
  }

  // Every rule comes from a recognised line.
  lemma RuleFromLine(lines: seq<string>, r: BaseRule)
    requires r in RulesOf(lines)
    ensures exists i | 0 <= i < |lines| :: Recognize(lines[i]) == Some(r)
  {
    var opts := seq(|lines|, i requires 0 <= i < |lines| => Recognize(lines[i]));
    RulesOfPresent(lines);
    PresentMembers(opts, r);
    var i :| 0 <= i < |opts| && opts[i] == Some(r);
    assert Recognize(lines[i]) == Some(r);
  }

  // Every recognised line gives a rule.
  lemma LineGivesRule(lines: seq<string>, i: int)
    requires 0 <= i < |lines| && Recognize(lines[i]).Some?
    ensures Recognize(lines[i]).value in RulesOf(lines)
  {
    var opts := seq(|lines|, i requires 0 <= i < |lines| => Recognize(lines[i]));
    RulesOfPresent(lines);
    assert opts[i] == Recognize(lines[i]);
    PresentMembers(opts, Recognize(lines[i]).value);
  }

  // ---------------------------------------------------------------------
  // The shape of the output

  // The selector family, in the order the source emits it.
  lemma FamilyOrder()
    ensures Family() == [Variant("", ""), Variant("hover-", ":hover"), Variant("focus-", ":focus"),
                         Variant("active-", ":active"), Variant("disabled-", ":disabled"), Variant("group-hover-", "")]
  {
    var f := Family();
    assert f[1] == StateVariant(States[0]) == Variant("hover-", ":hover");
    assert f[2] == StateVariant(States[1]) == Variant("focus-", ":focus");
    assert f[3] == StateVariant(States[2]) == Variant("active-", ":active");
    assert f[4] == StateVariant(States[3]) == Variant("disabled-", ":disabled");
  }

  lemma {:induction false} PairsAt(vs: seq<Variant>, r: BaseRule, k: int)
    requires 0 <= k < |vs|
    ensures Pairs(vs, r)[2 * k] == LightRule("", vs[k], r)
    ensures Pairs(vs, r)[2 * k + 1] == DarkRule("", vs[k], r)
    decreases |vs|
  {
    if k < |vs| - 1 {
      PairsAt(vs[..|vs| - 1], r, k);
    }
  }

  // A rule's base section: twelve rules, the light then the dark form of
  // each member of the family, in family order.
  lemma BaseEntriesLayout(r: BaseRule, k: int)
    requires 0 <= k < 6
    ensures |BaseEntries(r)| == 12
    ensures BaseEntries(r)[2 * k] == LightRule("", Family()[k], r)
    ensures BaseEntries(r)[2 * k + 1] == DarkRule("", Family()[k], r)
  {
    PairsAt(Family(), r, k);
  }

  // The dark form of a rule is its light form behind the dark-theme
  // attribute selector, with `dark-` put in front of the class: the same
  // variant and the same declarations.
  lemma DarkMirrorsLight(scope: string, v: Variant, r: BaseRule)
    ensures LightRule(scope, v, r)[0] == '.'
    ensures DarkRule(scope, v, r) == DarkAttr + " .dark-" + LightRule(scope, v, r)[1..]
  {
    var x := scope + v.prefix + r.cls + v.pseudo + " { " + r.body + " }";
    assert LightRule(scope, v, r) == "." + x;
    assert DarkRule(scope, v, r) == DarkAttr + " .dark-" + x;
    assert ("." + x)[1..] == x;
  }

  // The base section of the output: twelve rules per base rule, grouped by
  // base rule in source order.
  lemma {:induction false} BaseRulesLayout(rules: seq<BaseRule>, i: int, k: int)
    requires 0 <= i < |rules| && 0 <= k < 12
    ensures BaseRules(rules)[12 * i + k] == BaseEntries(rules[i])[k]
    decreases |rules|
  {
    var init := rules[..|rules| - 1];
    if i < |rules| - 1 {
      BaseRulesLayout(init, i, k);
    }
  }

  // A breakpoint's buffers: six rules per base rule, grouped by base rule in
  // source order, each the scoped form of the family member at its place.
  lemma {:induction false} BufferLayout(key: string, rules: seq<BaseRule>, i: int, k: int)
    requires 0 <= i < |rules| && 0 <= k < 6
    ensures LightFor(key, rules)[6 * i + k] == LightRule(key + "-", Family()[k], rules[i])
    ensures DarkFor(key, rules)[6 * i + k] == DarkRule(key + "-", Family()[k], rules[i])
    decreases |rules|
  {
    var init := rules[..|rules| - 1];
    if i < |rules| - 1 {
      BufferLayout(key, init, i, k);
    }
  }

  // The media blocks: for each breakpoint in turn, the block of its light
  // rules and then a separate block, with the same query, of its dark rules.
  lemma {:induction false} RespBlocksLayout(bps: seq<Breakpoint>, rules: seq<BaseRule>, j: int)
    requires 0 <= j < |bps|
    ensures RespBlocks(bps, rules)[2 * j] == MediaBlock(bps[j].query, LightFor(bps[j].key, rules))
    ensures RespBlocks(bps, rules)[2 * j + 1] == MediaBlock(bps[j].query, DarkFor(bps[j].key, rules))
    decreases |bps|
  {
    if j < |bps| - 1 {
      RespBlocksLayout(bps[..|bps| - 1], rules, j);
    }
  }

  // The `min-width` of each breakpoint, in pixels.
  const MinWidths: seq<nat> := [480, 768, 1024, 1280, 1536]

  // The decimal digits of a number.
  function Decimal(n: nat): (d: string)
    ensures |d| >= 1
    decreases n
  {
    if n < 10 then ["0123456789"[n]] else Decimal(n / 10) + ["0123456789"[n % 10]]
  }

  function MinWidthQuery(width: nat): string {
    "@media (min-width: " + Decimal(width) + "px)"
  }

  // Mobile first: the breakpoints are `min-width` queries with strictly
  // growing widths, so each block overrides those before it.
  lemma BreakpointsAscend()
    ensures |MinWidths| == |Breakpoints|
    ensures forall j | 0 <= j < |Breakpoints| :: Breakpoints[j].query == MinWidthQuery(MinWidths[j])
    ensures forall i, j | 0 <= i < j < |MinWidths| :: MinWidths[i] < MinWidths[j]
  {
    forall j | 0 <= j < |Breakpoints| ensures Breakpoints[j].query == MinWidthQuery(MinWidths[j]) {
      BreakpointQuery(j);
    }
  }

  lemma BreakpointQuery(j: int)
    requires 0 <= j < |Breakpoints|
    ensures Breakpoints[j].query == MinWidthQuery(MinWidths[j])
  {
    if j == 0 {
      Decimal480();
    } else if j == 1 {
      Decimal768();
    } else if j == 2 {
      Decimal1024();
    } else if j == 3 {
      Decimal1280();
    } else {
      Decimal1536();
    }
  }

  lemma Decimal480()
    ensures Decimal(480) == "480"
  {
    assert Decimal(48) == "48";
  }

  lemma Decimal768()
    ensures Decimal(768) == "768"
  {
    assert Decimal(76) == "76";
  }

  lemma Decimal1024()
    ensures Decimal(1024) == "1024"
  {
    assert Decimal(10) == "10";
    assert Decimal(102) == "102";
  }

  lemma Decimal1280()
    ensures Decimal(1280) == "1280"
  {
    assert Decimal(12) == "12";
    assert Decimal(128) == "128";
  }

  lemma Decimal1536()
    ensures Decimal(1536) == "1536"
  {
    assert Decimal(15) == "15";
    assert Decimal(153) == "153";
  }

  // Each entry of a rule's base section is a light rule or a dark rule.
  lemma EntryShape(r: BaseRule, k: int)
    requires 0 <= k < 12
    ensures StartsWith(BaseEntries(r)[k], ".") || StartsWith(BaseEntries(r)[k], DarkAttr + " .dark-")
  {
    BaseEntriesLayout(r, k / 2);
    var v := Family()[k / 2];
    DarkMirrorsLight("", v, r);
    if k % 2 == 0 {
      var light := LightRule("", v, r);
      assert BaseEntries(r)[k] == light;
      assert light[..1] == [light[0]];
    } else {
      var dark := DarkRule("", v, r);
      var prefix := DarkAttr + " .dark-";
      assert BaseEntries(r)[k] == dark;
      assert dark[..|prefix|] == prefix;
    }
  }

  // The output is every base section first, then the media blocks: the
  // first twelve entries per rule are light or dark rules ...
  lemma BaseSection(rules: seq<BaseRule>, i: int)
    requires 0 <= i < 12 * |rules|
    ensures var all := BaseRules(rules) + RespBlocks(Breakpoints, rules);
            |all| == 12 * |rules| + 10 && FinalCss(rules) == Join(all, "\n") &&
            (StartsWith(all[i], ".") || StartsWith(all[i], DarkAttr + " .dark-"))
  {
    var q, k := i / 12, i % 12;
    BaseRulesLayout(rules, q, k);
    EntryShape(rules[q], k);
  }

  lemma QueryPrefix(j: int)
    requires 0 <= j < |Breakpoints|
    ensures StartsWith(Breakpoints[j].query, "@media (min-width: ")
  {
  }

  lemma BlockPrefix(query: string, entries: seq<string>, prefix: string)
    requires StartsWith(query, prefix)
    ensures StartsWith(MediaBlock(query, entries), prefix)
  {
    var block := MediaBlock(query, entries);
    assert block[..|query|] == query;
    assert block[..|prefix|] == query[..|prefix|];
  }

  // ... and the ten entries after them are `min-width` media blocks.
  lemma MediaSection(rules: seq<BaseRule>, i: int)
    requires 12 * |rules| <= i < 12 * |rules| + 10
    ensures var all := BaseRules(rules) + RespBlocks(Breakpoints, rules);
            |all| == 12 * |rules| + 10 && StartsWith(all[i], "@media (min-width: ")
  {
    var base := BaseRules(rules);
    var blocks := RespBlocks(Breakpoints, rules);
    assert |base| == 12 * |rules| && |blocks| == 10;
    RespBlockPrefix(rules, i - |base|);
    assert (base + blocks)[i] == blocks[i - |base|];
  }

  // Each of the ten blocks is a `min-width` query.
  lemma RespBlockPrefix(rules: seq<BaseRule>, k: int)
    requires 0 <= k < 2 * |Breakpoints|
    ensures StartsWith(RespBlocks(Breakpoints, rules)[k], "@media (min-width: ")
  {
    var j := k / 2;
    var b := Breakpoints[j];
    RespBlocksLayout(Breakpoints, rules, j);
    QueryPrefix(j);
    if k == 2 * j {
      BlockPrefix(b.query, LightFor(b.key, rules), "@media (min-width: ");
    } else {
      BlockPrefix(b.query, DarkFor(b.key, rules), "@media (min-width: ");
    }
  }

  // ---------------------------------------------------------------------
  // The style map

  // A key has an entry exactly when some base rule's class maps to it.
  lemma {:induction false} StylesKeyFromRule(rules: seq<BaseRule>, key: string)
    requires key in StylesOf(rules)
    ensures exists i | 0 <= i < |rules| :: JsKey(rules[i].cls) == key
  {
    var n := |rules| - 1;
    if JsKey(rules[n].cls) != key {
      var init := rules[..n];
      StylesKeyFromRule(init, key);
      var i :| 0 <= i < |init| && JsKey(init[i].cls) == key;
      assert init[i] == rules[i];
    }
  }

  lemma {:induction false} StylesRuleHasKey(rules: seq<BaseRule>, i: int)
    requires 0 <= i < |rules|
    ensures JsKey(rules[i].cls) in StylesOf(rules)
  {
    var n := |rules| - 1;
    if i < n {
      var init := rules[..n];
      assert init[i] == rules[i];
      StylesRuleHasKey(init, i);
    }
  }

  // A key's entry is the bag of the last rule whose class maps to it: a
  // later rule replaces an earlier bag outright instead of merging into it.
  lemma {:induction false} StylesLastWins(rules: seq<BaseRule>, i: int)
    requires 0 <= i < |rules|
    requires forall j | i < j < |rules| :: JsKey(rules[j].cls) != JsKey(rules[i].cls)
    ensures JsKey(rules[i].cls) in StylesOf(rules) && StylesOf(rules)[JsKey(rules[i].cls)] == Bag(rules[i].body)
  {
    if i < |rules| - 1 {
      var init := rules[..|rules| - 1];
      assert forall j | 0 <= j < |init| :: init[j] == rules[j];
      StylesLastWins(init, i);
    }
  }

  // Class names that differ only in hyphens against underscores share
  // their key, so the later one's bag replaces the earlier one's.
  lemma JsKeyMerges(a: string, b: string)
    requires |a| == |b|
    requires forall i | 0 <= i < |a| :: a[i] == b[i] || (a[i] in "-_" && b[i] in "-_")
    ensures JsKey(a) == JsKey(b)
  {
  }

  // The buffers after a single rule are that rule's entries.
  lemma SingleRuleBuffers(key: string, r: BaseRule)
    ensures LightFor(key, [r]) == LightEntries(key, r) && DarkFor(key, [r]) == DarkEntries(key, r)
  {
    assert [r][..0] == [];
  }

  // ... and the `md` dark rules form a block of their own, right after the
  // light one.
  lemma MdBlocks(rules: seq<BaseRule>)
    ensures var blocks := RespBlocks(Breakpoints, rules);
            blocks[2] == MediaBlock("@media (min-width: 768px)", LightFor("md", rules)) &&
            blocks[3] == MediaBlock("@media (min-width: 768px)", DarkFor("md", rules))
  {
    RespBlocksLayout(Breakpoints, rules, 1);
  }

  // A trimmed text between two spaces is what trimming gives back.
  lemma TrimPadded(x: string)
    requires IsTrimmed(x)
    ensures Trim(" " + x + " ") == x
  {
    var s := " " + x + " ";
    var tail := x + " ";
    assert s[1..] == tail;
    if x == [] {
      assert tail == " " && tail[1..] == [];
      assert LeadingWs(s) == 2;
    } else {
      assert tail[0] == x[0];
      assert LeadingWs(tail) == 0;
      assert LeadingWs(s) == 1;
      assert TrimStart(s) == tail;
      assert tail[..|x|] == x;
      assert TrailingWs(x) == 0;
      assert TrailingWs(tail) == 1;
    }
  }

  // The name of a class followed by white space or `{`.
  lemma {:induction false} NameLengthOf(name: string, rest: string)
    requires forall i | 0 <= i < |name| :: !IsWs(name[i]) && name[i] != '{'
    requires rest != [] && (IsWs(rest[0]) || rest[0] == '{')
    ensures NameLength(name + rest) == |name|
    decreases |name|
  {
    if name != [] {
      assert (name + rest)[1..] == name[1..] + rest;
      NameLengthOf(name[1..], rest);
    }
  }

  // What is recognised is a class name and a trimmed body.
  lemma RecognizedIsWellFormed(line: string)
    requires Recognize(line).Some?
    ensures ClassName(Recognize(line).value.cls) && IsTrimmed(Recognize(line).value.body)
  {
    RecognizeClass(line);
    var t := Trim(line);
    TrimIsTrimmed(Slice(t, IndexOf(t, '{') + 1, LastIndexOf(t, '}')));
  }

  // The body of a printed rule sits between the spaces inside its braces.
  lemma PaddedSlice(cls: string, body: string)
    ensures var t := "." + cls + " { " + body + " }";
            t[|cls| + 3..|t| - 1] == " " + body + " "
  {
    var t := "." + cls + " { " + body + " }";
    var head := "." + cls + " {";
    var mid := " " + body + " ";
    assert t == head + mid + "}" by {
      assert |t| == |head + mid + "}"|;
      forall i | 0 <= i < |t| ensures t[i] == (head + mid + "}")[i] {
      }
    }
    assert (head + mid + "}")[|head|..|head| + |mid|] == mid;
  }

  // Where the braces of a printed rule are, and how far its class name reaches.
  lemma PrintedName(cls: string, body: string)
    requires ClassName(cls)
    ensures var t := "." + cls + " { " + body + " }";
            IsTrimmed(t) && StartsWith(t, ".") && NameLength(t[1..]) == |cls| && t[1..1 + |cls|] == cls
  {
    var rest := " { " + body + " }";
    var t := "." + cls + rest;
    assert t == "." + cls + " { " + body + " }";
    assert t[0] == '.' && t[|t| - 1] == '}';
    assert t[..1] == ".";
    assert t[1..] == cls + rest;
    NameLengthOf(cls, rest);
    assert t[1..1 + |cls|] == cls;
  }

  lemma PrintedBraces(cls: string, body: string)
    requires ClassName(cls)
    ensures var t := "." + cls + " { " + body + " }";
            '{' in t && IndexOf(t, '{') == |cls| + 2 && LastIndexOf(t, '}') == |t| - 1
  {
    var t := "." + cls + " { " + body + " }";
    var n := |cls|;
    assert t[n + 2] == '{' && t[|t| - 1] == '}';
    forall i | 0 <= i < n + 2 ensures t[i] != '{' {
      if 1 <= i < n + 1 {
        assert t[i] == cls[i - 1];
      }
    }
  }

  // A rule printed as `.cls { body }` is recognised as that class and body.
  lemma RecognizePrinted(cls: string, body: string)
    requires ClassName(cls) && IsTrimmed(body)
    ensures Recognize("." + cls + " { " + body + " }") == Some(BaseRule(cls, body))
  {
    var t := "." + cls + " { " + body + " }";
    PrintedName(cls, body);
    PrintedBraces(cls, body);
    TrimOfTrimmed(t);
    PaddedSlice(cls, body);
    assert Slice(t, |cls| + 3, |t| - 1) == " " + body + " ";
    TrimPadded(body);
    assert BodyOf(t) == body;
    assert RuleOf(t) == Some(BaseRule(cls, body));
  }

  // The round trip: the plain rule the generator prints for a base rule is
  // recognised as that same base rule.
  lemma RecognizeEmitted(r: BaseRule)
    requires ClassName(r.cls) && IsTrimmed(r.body)
    ensures Recognize(LightRule("", Variant("", ""), r)) == Some(r)
  {
    PlainRules(r);
    RecognizePrinted(r.cls, r.body);
  }

  // The style map of a single rule.
  lemma StylesOfOne(r: BaseRule)
    ensures StylesOf([r]) == map[JsKey(r.cls) := Bag(r.body)]
  {
    assert [r][..0] == [];
  }
}
