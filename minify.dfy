// The built-in minifier of the build script (`minifyCSS`): a fixed chain of
// nine global replacements and a final trim. Each replacement is one
// left-to-right pass: at each position either the pattern matches there and
// is replaced, or the character is kept and the search moves on by one.
module Minify {
  import opened Text
  import opened Comments

  // `s.replace(/\r?\n/g, '')`: every line feed goes, with one carriage
  // return right before it.
  function RemoveNewlines(s: string): (r: string)
    ensures |r| <= |s|
    decreases |s|
  {
    if s == [] then []
    else if s[0] == '\n' then RemoveNewlines(s[1..])
    else if |s| >= 2 && s[0] == '\r' && s[1] == '\n' then RemoveNewlines(s[2..])
    else [s[0]] + RemoveNewlines(s[1..])
  }

  // `/\s*c\s*/` matches at the start of `s`: the white space `s` starts
  // with is followed by `c`.
  predicate MatchesAround(s: string, c: char) {
    LeadingWs(s) < |s| && s[LeadingWs(s)] == c
  }

  // `s.replace(/\s*c\s*/g, 'c')` for one of `{`, `}`, `:`, `;`, `,`: the
  // white space on both sides of each `c` is deleted.
  function Tighten(s: string, c: char): (r: string)
    ensures |r| <= |s|
    decreases |s|
  {
    if s == [] then []
    else if MatchesAround(s, c) then
      var rest := s[LeadingWs(s) + 1..];
      [c] + Tighten(rest[LeadingWs(rest)..], c)
    else [s[0]] + Tighten(s[1..], c)
  }

  // `s.replace(/;\}/g, '}')`: the semicolon before each closing brace goes.
  function DropSemicolons(s: string): (r: string)
    ensures |r| <= |s|
    decreases |s|
  {
    if s == [] then []
    else if |s| >= 2 && s[0] == ';' && s[1] == '}' then ['}'] + DropSemicolons(s[2..])
    else [s[0]] + DropSemicolons(s[1..])
  }

  // `s.replace(/\s+/g, ' ')`: each run of white space becomes one space.
  function CollapseWs(s: string): (r: string)
    ensures |r| <= |s|
    decreases |s|
  {
    if s == [] then []
    else if IsWs(s[0]) then [' '] + CollapseWs(s[LeadingWs(s)..])
    else [s[0]] + CollapseWs(s[1..])
  }

  // `minifyCSS(css)`.
  function MinifyCss(css: string): string {
    var noComments := StripBlockComments(css);
    var oneLine := RemoveNewlines(noComments);
    var tight := Tighten(Tighten(Tighten(Tighten(Tighten(oneLine, '{'), '}'), ':'), ';'), ',');
    Trim(CollapseWs(DropSemicolons(tight)))
  }

  // ---------------------------------------------------------------------
  // What the output looks like

  // No white space right before or right after any `c`.
  predicate Tight(s: string, c: char) {
    forall i | 0 <= i < |s| - 1 :: !(s[i] == c && IsWs(s[i + 1])) && !(IsWs(s[i]) && s[i + 1] == c)
  }

  // No two white-space characters in a row.
  predicate NoWsRun(s: string) {
    forall i | 0 <= i < |s| - 1 :: !(IsWs(s[i]) && IsWs(s[i + 1]))
  }

  // The only white space left is the plain space.
  predicate OnlySpaces(s: string) {
    forall i | 0 <= i < |s| :: IsWs(s[i]) ==> s[i] == ' '
  }

  // What the minifier promises of its output.
  predicate Minified(s: string) {
    && IsTrimmed(s) && '\n' !in s && NoWsRun(s) && OnlySpaces(s)
    && Tight(s, '{') && Tight(s, '}') && Tight(s, ':') && Tight(s, ';') && Tight(s, ',')
  }

  // A string is tight for `c` when its tail is and the first pair is fine.
  lemma TightCons(x: char, t: string, c: char)
    requires Tight(t, c)
    requires t != [] ==> !(x == c && IsWs(t[0])) && !(IsWs(x) && t[0] == c)
    ensures Tight([x] + t, c)
  {
    var s := [x] + t;
    forall i | 0 <= i < |s| - 1 ensures !(s[i] == c && IsWs(s[i + 1])) && !(IsWs(s[i]) && s[i + 1] == c) {
      if i > 0 { assert s[i] == t[i - 1] && s[i + 1] == t[i]; }
    }
  }

  lemma NoWsRunCons(x: char, t: string)
    requires NoWsRun(t)
    requires t != [] ==> !(IsWs(x) && IsWs(t[0]))
    ensures NoWsRun([x] + t)
  {
    var s := [x] + t;
    forall i | 0 <= i < |s| - 1 ensures !(IsWs(s[i]) && IsWs(s[i + 1])) {
      if i > 0 { assert s[i] == t[i - 1] && s[i + 1] == t[i]; }
    }
  }

  // A piece of a tight string is tight.
  lemma TightSlice(s: string, a: int, b: int, c: char)
    requires 0 <= a <= b <= |s| && Tight(s, c)
    ensures Tight(s[a..b], c)
  {
    var t := s[a..b];
    forall i | 0 <= i < |t| - 1 ensures !(t[i] == c && IsWs(t[i + 1])) && !(IsWs(t[i]) && t[i + 1] == c) {
      assert t[i] == s[a + i] && t[i + 1] == s[a + i + 1];
    }
  }

  // After white space, the next other character of a string tight for
  // `c` is not `c`.
  lemma TightAfterWs(s: string, c: char, k: int)
    requires Tight(s, c) && 0 < k < |s| && IsWs(s[k - 1])
    ensures s[k] != c
  {
    assert !(IsWs(s[k - 1]) && s[k] == c);
  }

  // ---------------------------------------------------------------------
  // Tighten

  // After a match, the rest starts with something other than white space.
  lemma SkipWs(s: string)
    ensures s[LeadingWs(s)..] == [] || !IsWs(s[LeadingWs(s)..][0])
  {
    LeadingWsIsWs(s);
  }

  // The first character of the output.
  lemma TightenHead(s: string, c: char)
    requires s != []
    ensures Tighten(s, c) != []
    ensures Tighten(s, c)[0] == if MatchesAround(s, c) then c else s[0]
  {
  }

  // When `s` starts with white space, a match right after it is a match at `s`.
  lemma MatchesAroundWs(s: string, c: char)
    requires s != [] && IsWs(s[0]) && MatchesAround(s[1..], c)
    ensures MatchesAround(s, c)
  {
  }

  // `Tighten(s, c)` leaves no white space next to `c`.
  lemma {:induction false} TightenTight(s: string, c: char)
    requires !IsWs(c)
    ensures Tight(Tighten(s, c), c)
    decreases |s|
  {
    if s == [] {
    } else if MatchesAround(s, c) {
      var rest := s[LeadingWs(s) + 1..];
      var next := rest[LeadingWs(rest)..];
      TightenTight(next, c);
      SkipWs(rest);
      if next != [] { TightenHead(next, c); }
      TightCons(c, Tighten(next, c), c);
    } else {
      var t := s[1..];
      TightenTight(t, c);
      if t != [] {
        TightenHead(t, c);
        assert s[0] != c;
        if IsWs(s[0]) && MatchesAround(t, c) { MatchesAroundWs(s, c); }
      }
      TightCons(s[0], Tighten(t, c), c);
    }
  }

  // `Tighten(s, c)` only deletes white space, so it keeps `s` tight for
  // any other character `d` that `s` was tight for.
  lemma {:induction false} TightenKeeps(s: string, c: char, d: char)
    requires !IsWs(c) && !IsWs(d) && c != d && Tight(s, d)
    ensures Tight(Tighten(s, c), d)
    decreases |s|
  {
    if s == [] {
    } else if MatchesAround(s, c) {
      var rest := s[LeadingWs(s) + 1..];
      var next := rest[LeadingWs(rest)..];
      TightSlice(s, LeadingWs(s) + 1, |s|, d);
      TightSlice(rest, LeadingWs(rest), |rest|, d);
      TightenKeeps(next, c, d);
      SkipWs(rest);
      if next != [] { TightenHead(next, c); }
      TightCons(c, Tighten(next, c), d);
    } else {
      var t := s[1..];
      TightSlice(s, 1, |s|, d);
      TightenKeeps(t, c, d);
      if t != [] {
        TightenHead(t, c);
        if IsWs(s[0]) && MatchesAround(t, c) { MatchesAroundWs(s, c); }
        assert !(s[0] == d && IsWs(s[1])) && !(IsWs(s[0]) && s[1] == d);
      }
      TightCons(s[0], Tighten(t, c), d);
    }
  }

  // ---------------------------------------------------------------------
  // DropSemicolons

  lemma DropSemicolonsHead(s: string)
    requires s != []
    ensures DropSemicolons(s) != []
    ensures DropSemicolons(s)[0] == if |s| >= 2 && s[0] == ';' && s[1] == '}' then '}' else s[0]
  {
  }

  // Dropping a semicolon that has no white space before it keeps every
  // tightness the string had.
  lemma {:induction false} DropSemicolonsKeeps(s: string, d: char)
    requires !IsWs(d) && Tight(s, d) && Tight(s, ';')
    ensures Tight(DropSemicolons(s), d)
    decreases |s|
  {
    if s == [] {
    } else if |s| >= 2 && s[0] == ';' && s[1] == '}' {
      var t := s[2..];
      TightSlice(s, 2, |s|, d);
      TightSlice(s, 2, |s|, ';');
      DropSemicolonsKeeps(t, d);
      if t != [] {
        DropSemicolonsHead(t);
        assert s[2] == t[0];
        assert d == '}' ==> !IsWs(s[2]) by {
          if d == '}' { assert !(s[1] == d && IsWs(s[2])); }
        }
      }
      TightCons('}', DropSemicolons(t), d);
    } else {
      var t := s[1..];
      TightSlice(s, 1, |s|, d);
      TightSlice(s, 1, |s|, ';');
      DropSemicolonsKeeps(t, d);
      if t != [] {
        DropSemicolonsHead(t);
        assert !(s[0] == d && IsWs(s[1])) && !(IsWs(s[0]) && s[1] == d);
        assert !(IsWs(s[0]) && s[1] == ';');
      }
      TightCons(s[0], DropSemicolons(t), d);
    }
  }

  // ---------------------------------------------------------------------
  // CollapseWs

  lemma CollapseWsHead(s: string)
    requires s != []
    ensures CollapseWs(s) != []
    ensures CollapseWs(s)[0] == if IsWs(s[0]) then ' ' else s[0]
  {
  }

  // After collapsing, white space comes one space at a time.
  lemma {:induction false} CollapseWsRuns(s: string)
    ensures NoWsRun(CollapseWs(s)) && OnlySpaces(CollapseWs(s))
    decreases |s|
  {
    if s == [] {
    } else if IsWs(s[0]) {
      var t := s[LeadingWs(s)..];
      CollapseWsRuns(t);
      SkipWs(s);
      if t != [] { CollapseWsHead(t); }
      NoWsRunCons(' ', CollapseWs(t));
      assert CollapseWs(s) == [' '] + CollapseWs(t);
    } else {
      var t := s[1..];
      CollapseWsRuns(t);
      NoWsRunCons(s[0], CollapseWs(t));
      assert CollapseWs(s) == [s[0]] + CollapseWs(t);
    }
  }

  // Collapsing keeps every tightness the string had.
  lemma {:induction false} CollapseWsKeeps(s: string, d: char)
    requires !IsWs(d) && Tight(s, d)
    ensures Tight(CollapseWs(s), d)
    decreases |s|
  {
    if s == [] {
    } else if IsWs(s[0]) {
      var n := LeadingWs(s);
      var t := s[n..];
      TightSlice(s, n, |s|, d);
      CollapseWsKeeps(t, d);
      SkipWs(s);
      LeadingWsIsWs(s);
      if t != [] {
        CollapseWsHead(t);
        TightAfterWs(s, d, n);
      }
      TightCons(' ', CollapseWs(t), d);
    } else {
      var t := s[1..];
      TightSlice(s, 1, |s|, d);
      CollapseWsKeeps(t, d);
      if t != [] {
        CollapseWsHead(t);
        assert !(s[0] == d && IsWs(s[1]));
      }
      TightCons(s[0], CollapseWs(t), d);
    }
  }

  // ---------------------------------------------------------------------
  // The whole chain

  // A piece of a string without white-space runs has none.
  lemma NoWsRunSlice(s: string, a: int, b: int)
    requires 0 <= a <= b <= |s| && NoWsRun(s)
    ensures NoWsRun(s[a..b])
  {
    var r := s[a..b];
    forall i | 0 <= i < |r| - 1 ensures !(IsWs(r[i]) && IsWs(r[i + 1])) {
      assert r[i] == s[a + i] && r[i + 1] == s[a + i + 1];
    }
  }

  // Trimming keeps what holds of every pair of neighbours and every character.
  lemma TrimKeepsShape(s: string)
    requires NoWsRun(s) && OnlySpaces(s)
    requires Tight(s, '{') && Tight(s, '}') && Tight(s, ':') && Tight(s, ';') && Tight(s, ',')
    ensures Minified(Trim(s))
  {
    var a := LeadingWs(s);
    var b := a + |s[a..]| - TrailingWs(s[a..]);
    assert Trim(s) == s[a..b];
    TrimIsTrimmed(s);
    NoWsRunSlice(s, a, b);
    forall i | 0 <= i < b - a ensures IsWs(s[a..b][i]) ==> s[a..b][i] == ' ' {
      assert s[a..b][i] == s[a + i];
    }
    assert '\n' !in s[a..b] by {
      assert '\n' !in s;
      assert forall c | c in s[a..b] :: c in s;
    }
    TightSlice(s, a, b, '{');
    TightSlice(s, a, b, '}');
    TightSlice(s, a, b, ':');
    TightSlice(s, a, b, ';');
    TightSlice(s, a, b, ',');
  }

  // The output of `minifyCSS` is trimmed, holds no line feed and no two
  // white-space characters in a row, has no white space other than the
  // plain space, and none on either side of `{`, `}`, `:`, `;` or `,`.
  lemma MinifyIsMinified(css: string)
    ensures Minified(MinifyCss(css))
  {
    var oneLine := RemoveNewlines(StripBlockComments(css));
    var t1 := Tighten(oneLine, '{');
    var t2 := Tighten(t1, '}');
    var t3 := Tighten(t2, ':');
    var t4 := Tighten(t3, ';');
    var t5 := Tighten(t4, ',');
    TightenTight(oneLine, '{');
    TightenTight(t1, '}');
    TightenKeeps(t1, '}', '{');
    TightenTight(t2, ':');
    TightenKeeps(t2, ':', '{');
    TightenKeeps(t2, ':', '}');
    TightenTight(t3, ';');
    TightenKeeps(t3, ';', '{');
    TightenKeeps(t3, ';', '}');
    TightenKeeps(t3, ';', ':');
    TightenTight(t4, ',');
    TightenKeeps(t4, ',', '{');
    TightenKeeps(t4, ',', '}');
    TightenKeeps(t4, ',', ':');
    TightenKeeps(t4, ',', ';');
    var d := DropSemicolons(t5);
    DropSemicolonsKeeps(t5, '{');
    DropSemicolonsKeeps(t5, '}');
    DropSemicolonsKeeps(t5, ':');
    DropSemicolonsKeeps(t5, ';');
    DropSemicolonsKeeps(t5, ',');
    var c := CollapseWs(d);
    CollapseWsRuns(d);
    CollapseWsKeeps(d, '{');
    CollapseWsKeeps(d, '}');
    CollapseWsKeeps(d, ':');
    CollapseWsKeeps(d, ';');
    CollapseWsKeeps(d, ',');
    TrimKeepsShape(c);
  }

  // `RemoveNewlines` leaves no line feed, whatever carriage returns there are.
  lemma {:induction false} RemoveNewlinesNone(s: string)
    ensures '\n' !in RemoveNewlines(s)
    decreases |s|
  {
    if s == [] {
    } else if s[0] == '\n' {
      RemoveNewlinesNone(s[1..]);
    } else if |s| >= 2 && s[0] == '\r' && s[1] == '\n' {
      RemoveNewlinesNone(s[2..]);
    } else {
      RemoveNewlinesNone(s[1..]);
    }
  }

  // ---------------------------------------------------------------------
  // Minifying minified text

  lemma {:induction false} RemoveNewlinesNoOp(s: string)
    requires '\n' !in s
    ensures RemoveNewlines(s) == s
    decreases |s|
  {
    if s != [] {
      RemoveNewlinesNoOp(s[1..]);
    }
  }

  // Text already tight for `c` is left as it is.
  lemma {:induction false} TightenNoOp(s: string, c: char)
    requires !IsWs(c) && Tight(s, c)
    ensures Tighten(s, c) == s
    decreases |s|
  {
    if s != [] {
      TightSlice(s, 1, |s|, c);
      if MatchesAround(s, c) {
        LeadingWsIsWs(s);
        if LeadingWs(s) > 0 {
          TightAfterWs(s, c, LeadingWs(s));
          assert false;
        }
        var rest := s[1..];
        if LeadingWs(rest) > 0 {
          LeadingWsIsWs(rest);
          assert false;
        }
        assert rest[LeadingWs(rest)..] == rest;
      }
      TightenNoOp(s[1..], c);
    }
  }

  lemma {:induction false} DropSemicolonsNoOp(s: string)
    requires forall j :: !PairAt(s, j, ';', '}')
    ensures DropSemicolons(s) == s
    decreases |s|
  {
    if s != [] {
      assert !PairAt(s, 0, ';', '}');
      assert forall j | 0 <= j :: PairAt(s[1..], j, ';', '}') == PairAt(s, j + 1, ';', '}');
      DropSemicolonsNoOp(s[1..]);
    }
  }

  lemma {:induction false} CollapseWsNoOp(s: string)
    requires NoWsRun(s) && OnlySpaces(s)
    ensures CollapseWs(s) == s
    decreases |s|
  {
    if s != [] {
      var t := s[1..];
      assert NoWsRun(t) && OnlySpaces(t) by {
        forall i | 0 <= i < |t| - 1 ensures !(IsWs(t[i]) && IsWs(t[i + 1])) {
          assert t[i] == s[i + 1] && t[i + 1] == s[i + 2];
        }
      }
      if IsWs(s[0]) {
        assert |s| > 1 ==> !IsWs(s[1]);
        assert LeadingWs(s) == 1;
      }
      CollapseWsNoOp(t);
    }
  }

  // Minified text with no `/*` and no `;}` is a fixed point of the minifier.
  lemma MinifyNoOp(s: string)
    requires Minified(s)
    requires forall j :: !PairAt(s, j, '/', '*')
    requires forall j :: !PairAt(s, j, ';', '}')
    ensures MinifyCss(s) == s
  {
    StripBlockNone(s);
    RemoveNewlinesNoOp(s);
    TightenNoOp(s, '{');
    TightenNoOp(s, '}');
    TightenNoOp(s, ':');
    TightenNoOp(s, ';');
    TightenNoOp(s, ',');
    DropSemicolonsNoOp(s);
    CollapseWsNoOp(s);
    TrimOfTrimmed(s);
  }

  // Minifying twice gives what minifying once gave, unless the first pass
  // left a `/*` or a `;}` behind.
  lemma MinifyIdempotent(css: string)
    requires forall j :: !PairAt(MinifyCss(css), j, '/', '*')
    requires forall j :: !PairAt(MinifyCss(css), j, ';', '}')
    ensures MinifyCss(MinifyCss(css)) == MinifyCss(css)
  {
    MinifyIsMinified(css);
    MinifyNoOp(MinifyCss(css));
  }

  // No character of the text is white space.
  predicate NoWs(s: string) {
    forall i | 0 <= i < |s| :: !IsWs(s[i])
  }

  // Text without white space has every shape the minifier aims at.
  lemma NoWsShape(s: string)
    requires NoWs(s)
    ensures Tight(s, '{') && Tight(s, '}') && Tight(s, ':') && Tight(s, ';') && Tight(s, ',')
    ensures NoWsRun(s) && OnlySpaces(s) && IsTrimmed(s)
  {
  }

  // Dropping semicolons brings in no white space.
  lemma {:induction false} DropSemicolonsNoWs(s: string)
    requires NoWs(s)
    ensures NoWs(DropSemicolons(s))
    decreases |s|
  {
    if s != [] {
      var k := if |s| >= 2 && s[0] == ';' && s[1] == '}' then 2 else 1;
      var rest := s[k..];
      assert forall i | 0 <= i < |rest| :: rest[i] == s[i + k];
      DropSemicolonsNoWs(rest);
      var d := DropSemicolons(s);
      assert d == [d[0]] + DropSemicolons(rest);
      forall i | 0 <= i < |d| ensures !IsWs(d[i]) {
        if i > 0 {
          assert d[i] == DropSemicolons(rest)[i - 1];
        }
      }
    }
  }

  // Text without white space or `/*` is only touched by the removal of `;`
  // before `}`.
  lemma MinifyWithoutWs(s: string)
    requires NoWs(s)
    requires forall j :: !PairAt(s, j, '/', '*')
    ensures MinifyCss(s) == DropSemicolons(s)
  {
    StripBlockNone(s);
    assert StripBlockComments(s) == s;
    forall i | 0 <= i < |s| ensures s[i] != '\n' {
      assert !IsWs(s[i]);
    }
    RemoveNewlinesNoOp(s);
    NoWsShape(s);
    TightenNoOp(s, '{');
    TightenNoOp(s, '}');
    TightenNoOp(s, ':');
    TightenNoOp(s, ';');
    TightenNoOp(s, ',');
    var d := DropSemicolons(s);
    DropSemicolonsNoWs(s);
    NoWsShape(d);
    CollapseWsNoOp(d);
    TrimOfTrimmed(d);
  }

  // Text without `/` holds no `/*`.
  lemma NoSlashNoComment(s: string)
    requires '/' !in s
    ensures forall j :: !PairAt(s, j, '/', '*')
  {
  }

  // Two semicolons before a brace lose only one of them per pass, so the
  // minifier is not always a fixed point on its own output.
  lemma MinifyTwiceDiffers(once: string, twice: string)
    requires once == "a{b:c;;}" && twice == "a{b:c;}"
    ensures MinifyCss(once) == twice
    ensures MinifyCss(twice) == "a{b:c}"
  {
    MinifyPlain(once);
    MinifyPlain(twice);
    DropOnce(once);
    DropTwice(twice);
  }

  // The two sample texts hold no white space and no `/`.
  lemma MinifyPlain(s: string)
    requires s == "a{b:c;;}" || s == "a{b:c;}"
    ensures MinifyCss(s) == DropSemicolons(s)
  {
    NoSlashNoComment(s);
    assert NoWs(s);
    MinifyWithoutWs(s);
  }

  lemma DropOnce(s: string)
    requires s == "a{b:c;;}"
    ensures DropSemicolons(s) == "a{b:c;}"
  {
    assert DropSemicolons(s[7..]) == "}";
    assert DropSemicolons(s[5..]) == ";}";
    assert DropSemicolons(s[4..]) == "c;}";
    assert DropSemicolons(s[3..]) == ":c;}";
    assert DropSemicolons(s[2..]) == "b:c;}";
    assert DropSemicolons(s[1..]) == "{b:c;}";
  }

  lemma DropTwice(s: string)
    requires s == "a{b:c;}"
    ensures DropSemicolons(s) == "a{b:c}"
  {
    assert DropSemicolons(s[5..]) == "}";
    assert DropSemicolons(s[4..]) == "c}";
    assert DropSemicolons(s[3..]) == ":c}";
    assert DropSemicolons(s[2..]) == "b:c}";
    assert DropSemicolons(s[1..]) == "{b:c}";
  }
}
