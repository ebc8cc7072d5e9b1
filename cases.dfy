// Worked examples of the variant expander: what it emits for a `.btn`
// rule and what it records in the style map for `.btn-primary`.
module VariantCases {
  import opened Wrappers
  import opened Text
  import opened StyleMap
  import opened Variants


  // A rule with its declaration block.
  function Css(selector: string, body: string): string {
    selector + " { " + body + " }"
  }

  // A `.btn` rule yields, among the rest, `.btn` and `.dark-btn` ...
  lemma BtnPlain(r: BaseRule)
    requires r.cls == "btn"
    ensures BaseEntries(r)[0] == Css(".btn", r.body)
    ensures BaseEntries(r)[1] == Css(DarkAttr + " .dark-btn", r.body)
  {
    BaseEntriesLayout(r, 0);
    assert Family()[0] == Variant("", "");
  }

  // ... `.hover-btn:hover` and its dark form ...
  lemma BtnHover(r: BaseRule)
    requires r.cls == "btn"
    ensures BaseEntries(r)[2] == Css(".hover-btn:hover", r.body)
    ensures BaseEntries(r)[3] == Css(DarkAttr + " .dark-hover-btn:hover", r.body)
  {
    BaseEntriesLayout(r, 1);
    assert Family()[1] == StateVariant(States[0]);
  }

  // ... `.group-hover-btn` ...
  lemma BtnGroupHover(r: BaseRule)
    requires r.cls == "btn"
    ensures BaseEntries(r)[10] == Css(".group-hover-btn", r.body)
  {
    BaseEntriesLayout(r, 5);
  }

  // ... and, in the `md` light block, `.md-btn` and `.md-hover-btn:hover` ...
  lemma BtnMd(r: BaseRule)
    requires r.cls == "btn"
    ensures LightFor("md", [r])[0] == Css(".md-btn", r.body)
    ensures LightFor("md", [r])[1] == Css(".md-hover-btn:hover", r.body)
  {
    SingleRuleBuffers("md", r);
    var e := LightEntries("md", r);
    assert e[0] == LightRule("md-", Variant("", ""), r);
    assert e[1] == LightRule("md-", Variant("hover-", ":hover"), r);
  }

  // ... and `.md-group-hover-btn`.
  lemma BtnMdGroupHover(r: BaseRule)
    requires r.cls == "btn"
    ensures LightFor("md", [r])[5] == Css(".md-group-hover-btn", r.body)
  {
    SingleRuleBuffers("md", r);
    assert LightEntries("md", r)[5] == LightRule("md-", Variant("group-hover-", ""), r);
  }

  lemma BtnPrimaryLine(line: string)
    requires line == ".btn-primary { background-color: blue; }"
    ensures line == "." + "btn-primary" + " { " + "background-color: blue;" + " }"
  {
  }

  // The class name and the body of `.btn-primary { background-color: blue; }`.
  lemma BtnPrimaryRule(line: string)
    requires line == ".btn-primary { background-color: blue; }"
    ensures Recognize(line) == Some(BaseRule("btn-primary", "background-color: blue;"))
  {
    var r := BaseRule("btn-primary", "background-color: blue;");
    BtnPrimaryLine(line);
    PlainRules(r);
    RecognizeEmitted(r);
  }

  // Its style-map entry: the key `btn_primary` with the one property
  // `backgroundColor`.
  lemma BtnPrimaryStyles(r: BaseRule)
    requires r == BaseRule("btn-primary", "background-color: blue;")
    ensures StylesOf([r]) == map["btn_primary" := map["backgroundColor" := "blue"]]
  {
    BtnPrimaryBag(r.body);
    BtnPrimaryKey(r.cls);
    StylesOfOne(r);
  }
}
