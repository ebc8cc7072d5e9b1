// The emptiness test of the build script (`isEmptyRule`): delete the
// comments, find the first `{...}` body with the regular expression
// `/[^{]+\{([^}]*)\}/`, and call the rule empty when that body is blank.
module EmptyRule {
  import opened Wrappers
  import opened Text
  import opened Comments

  // The first position at or after `from` that holds `c`, or -1.
  function FindFrom(s: string, c: char, from: nat): (r: int)
    requires from <= |s|
    ensures r == -1 || (from <= r < |s| && s[r] == c)
    ensures forall i | from <= i < |s| && (r == -1 || i < r) :: s[i] != c
  {
    var k := IndexOf(s[from..], c);
    assert forall i | from <= i < |s| :: s[i] == s[from..][i - from];
    if k < 0 then -1 else from + k
  }

  // The attempt of `/[^{]+\{([^}]*)\}/` at position `p`. Backtracking
  // cannot help either loop: `[^{]+` must run up to the first `{` after
  // `p`, and `[^}]*` up to the first `}` after that; the group is what lies
  // between the two.
  function BodyAt(s: string, p: nat): Option<string>
    requires p <= |s|
  {
    if p < |s| && s[p] != '{' then
      var q := FindFrom(s, '{', p);
      if q < 0 then None
      else
        var e := FindFrom(s, '}', q + 1);
        if e < 0 then None else Some(s[q + 1..e])
    else None
  }

  // `s.match(/[^{]+\{([^}]*)\}/)`, group 1: the leftmost position where
  // the attempt succeeds.
  function Body(s: string, p: nat): Option<string>
    requires p <= |s|
    decreases |s| - p
  {
    if p == |s| then None
    else if BodyAt(s, p).Some? then BodyAt(s, p)
    else Body(s, p + 1)
  }

  // The rule text once both kinds of comment are deleted.
  function Cleaned(rule: string): string {
    StripLineComments(StripBlockComments(rule))
  }

  // `isEmptyRule(rule)`: a body was found and it is blank.
  predicate IsEmptyRule(rule: string) {
    var m := Body(Cleaned(rule), 0);
    m.Some? && Trim(m.value) == ""
  }

  // A body found is text between a `{` (with something other than `{`
  // right before it) and the first `}` after it.
  lemma {:induction false} BodyShape(s: string, p: nat)
    requires p <= |s|
    requires Body(s, p).Some?
    decreases |s| - p
    ensures var b := Body(s, p).value;
            '}' !in b && exists q | 0 < q :: OccursAt(s, "{" + b + "}", q) && s[q - 1] != '{'
  {
    if BodyAt(s, p).Some? {
      BodyAtShape(s, p);
    } else {
      BodyShape(s, p + 1);
    }
  }

  // The same shape for a successful attempt at one position.
  lemma BodyAtShape(s: string, p: nat)
    requires p <= |s|
    requires BodyAt(s, p).Some?
    ensures var b := BodyAt(s, p).value;
            '}' !in b && exists q | 0 < q :: OccursAt(s, "{" + b + "}", q) && s[q - 1] != '{'
  {
    var b := BodyAt(s, p).value;
    var q := FindFrom(s, '{', p);
    var e := FindFrom(s, '}', q + 1);
    assert p < q < e && b == s[q + 1..e];
    assert s[q - 1] != '{';
    assert s[q..e + 1] == "{" + b + "}";
    assert OccursAt(s, "{" + b + "}", q);
  }

  // A `{` at the very start cannot open the body, since `[^{]+` needs a
  // character before it: in `{a}{b}` the body found is `b`.
  lemma LeadingBraceSkipped(s: string)
    requires s == "{a}{b}"
    ensures Body(s, 0) == Some("b")
  {
    assert BodyAt(s, 0) == None;
    assert s[1] != '{' && s[2] != '{' && s[3] == '{';
    assert FindFrom(s, '{', 1) == 3;
    assert s[4] != '}' && s[5] == '}';
    assert FindFrom(s, '}', 4) == 5;
    assert s[4..5] == "b";
    assert BodyAt(s, 1) == Some("b");
    assert Body(s, 1) == Some("b");
  }

  // A position holding `c` with no `c` between `from` and it is the one
  // `FindFrom` returns.
  lemma FindFromFirst(s: string, c: char, from: nat, k: nat)
    requires from <= k < |s| && s[k] == c
    requires forall i | from <= i < k :: s[i] != c
    ensures FindFrom(s, c, from) == k
  {
  }

  // A body is found wherever the text starts with something other than
  // `{`, then has a `{` and, later, a `}`: the body is what lies between.
  lemma BodyFound(pre: string, body: string, post: string)
    requires pre != [] && '{' !in pre && '}' !in body
    ensures Body(pre + "{" + body + "}" + post, 0) == Some(body)
  {
    var s := pre + "{" + body + "}" + post;
    var q := |pre|;
    var e := q + 1 + |body|;
    BraceLayout(s, pre, body, post);
    FindFromFirst(s, '{', 0, q);
    FindFromFirst(s, '}', q + 1, e);
    assert BodyAt(s, 0) == Some(body);
  }

  // Where the parts of `pre{body}post` sit.
  lemma BraceLayout(s: string, pre: string, body: string, post: string)
    requires s == pre + "{" + body + "}" + post
    ensures |pre| + 1 + |body| < |s|
    ensures s[|pre|] == '{' && s[|pre| + 1 + |body|] == '}'
    ensures s[|pre| + 1..|pre| + 1 + |body|] == body
    ensures forall i | 0 <= i < |pre| :: s[i] == pre[i]
    ensures forall i | |pre| + 1 <= i < |pre| + 1 + |body| :: s[i] == body[i - |pre| - 1]
  {
    var q := |pre|;
    assert s[q + 1..q + 1 + |body|] == body;
  }

  // Without a `{` or without a `}` no rule is empty.
  lemma NeedsBraces(rule: string)
    requires IsEmptyRule(rule)
    ensures '{' in rule && '}' in rule
  {
    var s := Cleaned(rule);
    BodyShape(s, 0);
    var b := Body(s, 0).value;
    var q :| 0 < q && OccursAt(s, "{" + b + "}", q) && s[q - 1] != '{';
    var w := "{" + b + "}";
    assert s[q + 0] == w[0] && s[q + |b| + 1] == w[|b| + 1];
    StripLineChars(StripBlockComments(rule), '{');
    StripLineChars(StripBlockComments(rule), '}');
    StripBlockChars(rule, '{');
    StripBlockChars(rule, '}');
  }

  // Text with no `/` has no comment to delete.
  lemma NoCommentsCleaned(rule: string)
    requires '/' !in rule
    ensures Cleaned(rule) == rule
  {
    StripBlockNone(rule);
    StripLineNone(rule);
  }

  // For a rule without comments, `pre { body } post` is empty exactly when
  // its body is blank.
  lemma EmptyIffBlankBody(pre: string, body: string, post: string)
    requires pre != [] && '{' !in pre && '}' !in body
    requires '/' !in pre + "{" + body + "}" + post
    ensures IsEmptyRule(pre + "{" + body + "}" + post) <==> AllWs(body)
  {
    NoCommentsCleaned(pre + "{" + body + "}" + post);
    BodyFound(pre, body, post);
    TrimKeeps(body);
  }

  // A comment inside the braces does not make a body non-blank.
  lemma CommentedBodyIsEmpty(pre: string, ws: string, note: string, post: string)
    requires pre != [] && '{' !in pre && '/' !in pre && '/' !in post
    requires AllWs(ws) && '/' !in ws && '}' !in note && '/' !in note && '*' !in note
    ensures IsEmptyRule(pre + "{" + ws + "/*" + note + "*/" + ws + "}" + post)
  {
    var rule := pre + "{" + ws + "/*" + note + "*/" + ws + "}" + post;
    CommentedCleaned(pre, ws, note, post);
    BodyFound(pre, ws + ws, post);
    TrimKeeps(ws + ws);
  }

  // Deleting the comments leaves the white space on both sides of it.
  lemma CommentedCleaned(pre: string, ws: string, note: string, post: string)
    requires '{' !in pre && '/' !in pre && '/' !in post
    requires '/' !in ws && '/' !in note && '*' !in note
    ensures Cleaned(pre + "{" + ws + "/*" + note + "*/" + ws + "}" + post) == pre + "{" + (ws + ws) + "}" + post
  {
    var head := pre + "{" + ws;
    var tail := ws + "}" + post;
    assert pre + "{" + ws + "/*" + note + "*/" + ws + "}" + post == head + "/*" + note + "*/" + tail;
    assert forall j :: !PairAt(head, j, '/', '*');
    assert forall j :: !PairAt(note, j, '*', '/');
    StripBlockRemoves(head, note, tail);
    assert forall j :: !PairAt(tail, j, '/', '*');
    StripBlockNone(tail);
    var s := head + tail;
    assert s == pre + "{" + (ws + ws) + "}" + post;
    assert forall j :: !PairAt(s, j, '/', '/');
    StripLineNone(s);
  }
}
