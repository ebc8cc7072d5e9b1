// The two comment-deleting replacements of the build script:
// `/\/\*[\s\S]*?\*\//g`, which deletes block comments (used by both the
// emptiness test and the minifier), and `/\/\/.*$/gm`, which deletes line
// comments (used by the emptiness test). Each is a single left-to-right
// pass of the regular-expression engine: at each position either a match
// starts there and is deleted, or the character is kept and the search
// moves one position on.
module Comments {
  import opened Text

  // `s` holds the two characters `a`, `b` at positions `j` and `j + 1`.
  predicate PairAt(s: string, j: int, a: char, b: char) {
    0 <= j < |s| - 1 && s[j] == a && s[j + 1] == b
  }

  // How far the lazy `[\s\S]*?\*\/` reaches after an opening `/*`: the
  // length of the shortest prefix of `s` that ends with `*/`, or -1 when
  // `s` holds no `*/` at all.
  function CommentEnd(s: string): (n: int)
    ensures n == -1 || (2 <= n <= |s| && PairAt(s, n - 2, '*', '/'))
    ensures forall j | 0 <= j && (n == -1 || j < n - 2) :: !PairAt(s, j, '*', '/')
  {
    if |s| < 2 then -1
    else if s[0] == '*' && s[1] == '/' then 2
    else
      var k := CommentEnd(s[1..]);
      assert forall j | 1 <= j :: PairAt(s, j, '*', '/') == PairAt(s[1..], j - 1, '*', '/');
      if k < 0 then -1 else k + 1
  }

  // `s.replace(/\/\*[\s\S]*?\*\//g, '')`. An opening `/*` that is never
  // closed is not a match: it is kept like any other text.
  function StripBlockComments(s: string): (r: string)
    ensures |r| <= |s|
    decreases |s|
  {
    if s == [] then []
    else if PairAt(s, 0, '/', '*') && CommentEnd(s[2..]) >= 0 then StripBlockComments(s[2 + CommentEnd(s[2..])..])
    else [s[0]] + StripBlockComments(s[1..])
  }

  // The number of characters before the first line terminator, or all of
  // them: how far the greedy `.*` reaches.
  function LineLength(s: string): (n: nat)
    ensures n <= |s|
    ensures n < |s| ==> IsLineTerminator(s[n])
    ensures forall i | 0 <= i < n :: !IsLineTerminator(s[i])
  {
    if s == [] || IsLineTerminator(s[0]) then 0 else 1 + LineLength(s[1..])
  }

  // `s.replace(/\/\/.*$/gm, '')`: from each `//` to the end of its line.
  function StripLineComments(s: string): (r: string)
    ensures |r| <= |s|
    decreases |s|
  {
    if s == [] then []
    else if PairAt(s, 0, '/', '/') then StripLineComments(s[LineLength(s)..])
    else [s[0]] + StripLineComments(s[1..])
  }

  // ---------------------------------------------------------------------
  // Block comments

  // Deleting block comments invents no character.
  lemma {:induction false} StripBlockChars(s: string, c: char)
    requires c in StripBlockComments(s)
    ensures c in s
  {
    if PairAt(s, 0, '/', '*') && CommentEnd(s[2..]) >= 0 {
      StripBlockChars(s[2 + CommentEnd(s[2..])..], c);
    } else if s != [] && c != s[0] {
      StripBlockChars(s[1..], c);
    }
  }

  // Text with no `/*` is left as it is.
  lemma {:induction false} StripBlockNone(s: string)
    requires forall j :: !PairAt(s, j, '/', '*')
    ensures StripBlockComments(s) == s
  {
    if s != [] {
      assert forall j | 0 <= j :: PairAt(s[1..], j, '/', '*') == PairAt(s, j + 1, '/', '*');
      StripBlockNone(s[1..]);
    }
  }

  // The first comment is deleted whole, from its `/*` to the first `*/`
  // after it, and the text before it is kept.
  lemma {:induction false} StripBlockRemoves(pre: string, body: string, post: string)
    requires forall j :: !PairAt(pre, j, '/', '*')
    requires forall j :: !PairAt(body, j, '*', '/')
    ensures StripBlockComments(pre + "/*" + body + "*/" + post) == pre + StripBlockComments(post)
  {
    if pre == [] {
      assert pre + "/*" + body + "*/" + post == "/*" + body + "*/" + post;
      StripBlockAtStart(body, post);
    } else {
      var rest := pre[1..] + "/*" + body + "*/" + post;
      assert pre + "/*" + body + "*/" + post == [pre[0]] + rest;
      assert forall j :: !PairAt(pre[1..], j, '/', '*') by {
        forall j ensures !PairAt(pre[1..], j, '/', '*') {
          assert !PairAt(pre, j + 1, '/', '*');
        }
      }
      StripBlockRemoves(pre[1..], body, post);
      assert rest[0] == (if |pre| == 1 then '/' else pre[1]);
      assert !PairAt(pre, 0, '/', '*');
      StripBlockKeeps(pre[0], rest);
      assert [pre[0]] + pre[1..] == pre;
    }
  }

  // A first character that does not open a comment is kept.
  lemma StripBlockKeeps(c: char, rest: string)
    requires !(c == '/' && rest != [] && rest[0] == '*')
    ensures StripBlockComments([c] + rest) == [c] + StripBlockComments(rest)
  {
    assert ([c] + rest)[1..] == rest;
  }

  // A comment at the very start is deleted whole.
  lemma StripBlockAtStart(body: string, post: string)
    requires forall j :: !PairAt(body, j, '*', '/')
    ensures StripBlockComments("/*" + body + "*/" + post) == StripBlockComments(post)
  {
    var s := "/*" + body + "*/" + post;
    var t := body + "*/" + post;
    assert s[2..] == t;
    forall j | 0 <= j < |body| ensures !PairAt(t, j, '*', '/') {
      assert !PairAt(body, j, '*', '/');
      if j + 1 == |body| { assert t[j + 1] == '*'; }
    }
    assert PairAt(t, |body|, '*', '/');
    assert CommentEnd(t) == |body| + 2;
    assert s[2 + |body| + 2..] == post;
  }

  // ---------------------------------------------------------------------
  // Line comments

  // Deleting line comments invents no character.
  lemma {:induction false} StripLineChars(s: string, c: char)
    requires c in StripLineComments(s)
    ensures c in s
  {
    if PairAt(s, 0, '/', '/') {
      StripLineChars(s[LineLength(s)..], c);
    } else if s != [] && c != s[0] {
      StripLineChars(s[1..], c);
    }
  }

  // Text with no `//` is left as it is.
  lemma {:induction false} StripLineNone(s: string)
    requires forall j :: !PairAt(s, j, '/', '/')
    ensures StripLineComments(s) == s
  {
    if s != [] {
      assert forall j | 0 <= j :: PairAt(s[1..], j, '/', '/') == PairAt(s, j + 1, '/', '/');
      StripLineNone(s[1..]);
    }
  }

  // The first character left: a kept character, or the line terminator
  // that ended a deleted comment.
  lemma {:induction false} StripLineHead(s: string)
    requires StripLineComments(s) != []
    ensures var r := StripLineComments(s);
            if PairAt(s, 0, '/', '/') then IsLineTerminator(r[0]) else r[0] == s[0]
  {
    if PairAt(s, 0, '/', '/') {
      var t := s[LineLength(s)..];
      assert !PairAt(t, 0, '/', '/');
    }
  }

  // No `//` survives: a deleted comment always reaches the end of its line.
  lemma {:induction false} StripLineLeavesNone(s: string)
    ensures forall j :: !PairAt(StripLineComments(s), j, '/', '/')
  {
    var r := StripLineComments(s);
    if s == [] {
    } else if PairAt(s, 0, '/', '/') {
      StripLineLeavesNone(s[LineLength(s)..]);
    } else {
      var rest := StripLineComments(s[1..]);
      StripLineLeavesNone(s[1..]);
      assert r == [s[0]] + rest;
      forall j | 0 <= j ensures !PairAt(r, j, '/', '/') {
        if j == 0 {
          if rest != [] { StripLineHead(s[1..]); }
        } else {
          assert PairAt(r, j, '/', '/') == PairAt(rest, j - 1, '/', '/');
        }
      }
    }
  }

  // Deleting line comments keeps every line break, so the lines stay where they were.
  lemma {:induction false} StripLineKeepsBreaks(s: string)
    ensures CountChar(StripLineComments(s), '\n') == CountChar(s, '\n')
  {
    if s == [] {
    } else if PairAt(s, 0, '/', '/') {
      StripLineKeepsBreaks(s[LineLength(s)..]);
      CountSkipped(s, LineLength(s));
    } else {
      StripLineKeepsBreaks(s[1..]);
    }
  }

  lemma {:induction false} CountSkipped(s: string, n: nat)
    requires n <= |s|
    requires forall i | 0 <= i < n :: !IsLineTerminator(s[i])
    ensures CountChar(s[n..], '\n') == CountChar(s, '\n')
  {
    if n > 0 {
      assert s[1..][n - 1..] == s[n..];
      CountSkipped(s[1..], n - 1);
    }
  }
}
