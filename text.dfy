/** The JavaScript string operations the two build scripts rely on
    (trim, includes, startsWith, indexOf, lastIndexOf, slice, split, join),
    stated over `seq<char>`. */
module Text {

  /** The characters that `String.prototype.trim` and the regular-expression
      class `\s` treat as white space. */
  predicate IsWs(c: char) {
    || c == ' ' || c == '\t' || c == '\n' || c == '\U{000B}' || c == '\U{000C}' || c == '\r'
    || c == '\U{00A0}' || c == '\U{1680}' || ('\U{2000}' <= c <= '\U{200A}')
    || c == '\U{2028}' || c == '\U{2029}' || c == '\U{202F}' || c == '\U{205F}'
    || c == '\U{3000}' || c == '\U{FEFF}'
  }

  /** The characters at which `.` stops and `$` matches in a multi-line regular expression. */
  predicate IsLineTerminator(c: char) {
    c == '\n' || c == '\r' || c == '\U{2028}' || c == '\U{2029}'
  }

  predicate AllWs(s: string) {
    forall i | 0 <= i < |s| :: IsWs(s[i])
  }

  predicate IsTrimmed(s: string) {
    s == [] || (!IsWs(s[0]) && !IsWs(s[|s| - 1]))
  }

  /** The number of white-space characters `s` starts with. */
  function LeadingWs(s: string): (n: nat)
    ensures n <= |s|
  {
    if s != [] && IsWs(s[0]) then 1 + LeadingWs(s[1..]) else 0
  }

  lemma {:induction false} LeadingWsIsWs(s: string)
    ensures forall i | 0 <= i < LeadingWs(s) :: IsWs(s[i])
    ensures LeadingWs(s) < |s| ==> !IsWs(s[LeadingWs(s)])
  {
    if s != [] && IsWs(s[0]) {
      LeadingWsIsWs(s[1..]);
      assert forall i | 1 <= i < |s| :: s[i] == s[1..][i - 1];
    }
  }

  /** The number of white-space characters `s` ends with. */
  function TrailingWs(s: string): (n: nat)
    ensures n <= |s|
  {
    if s != [] && IsWs(s[|s| - 1]) then 1 + TrailingWs(s[..|s| - 1]) else 0
  }

  lemma {:induction false} TrailingWsIsWs(s: string)
    ensures forall i | |s| - TrailingWs(s) <= i < |s| :: IsWs(s[i])
    ensures TrailingWs(s) < |s| ==> !IsWs(s[|s| - TrailingWs(s) - 1])
  {
    if s != [] && IsWs(s[|s| - 1]) {
      TrailingWsIsWs(s[..|s| - 1]);
    }
  }

  /** `s.trimStart()`. */
  function TrimStart(s: string): string {
    s[LeadingWs(s)..]
  }

  /** `s.trimEnd()`. */
  function TrimEnd(s: string): string {
    s[..|s| - TrailingWs(s)]
  }

  /** `s.trim()`. */
  function Trim(s: string): string {
    TrimEnd(TrimStart(s))
  }

  /** The trimmed string has no white space at either end. */
  lemma TrimIsTrimmed(s: string)
    ensures IsTrimmed(Trim(s))
  {
    LeadingWsIsWs(s);
    TrailingWsIsWs(TrimStart(s));
  }

  /** Trimming drops only white space and keeps every other character, so it
      leaves nothing exactly when the string is all white space. */
  lemma TrimKeeps(s: string)
    ensures forall c | c in Trim(s) :: c in s
    ensures forall c | c in s && !IsWs(c) :: c in Trim(s)
    ensures Trim(s) == [] <==> AllWs(s)
  {
    var a := LeadingWs(s);
    var u := TrimStart(s);
    var r := Trim(s);
    LeadingWsIsWs(s);
    TrailingWsIsWs(u);
    assert forall k | 0 <= k < |r| :: r[k] == s[a + k];
    forall c | c in s && !IsWs(c) ensures c in r {
      var k :| 0 <= k < |s| && s[k] == c;
      assert u[k - a] == c;
    }
  }

  /** A character of the trimmed string is a character of the string. */
  lemma TrimCharIn(s: string, c: char)
    requires c in Trim(s)
    ensures c in s
  {
    var k :| 0 <= k < |Trim(s)| && Trim(s)[k] == c;
    assert s[LeadingWs(s) + k] == c;
  }

  /** A string with a character other than white space does not trim to nothing. */
  lemma TrimNotBlank(s: string, i: int)
    requires 0 <= i < |s| && !IsWs(s[i])
    ensures Trim(s) != ""
  {
    LeadingWsIsWs(s);
    TrailingWsIsWs(TrimStart(s));
    assert i >= LeadingWs(s);
    assert TrimStart(s)[i - LeadingWs(s)] == s[i];
  }

  /** A line feed after a trimmed text is trimmed away again. */
  lemma TrimNewline(s: string)
    requires IsTrimmed(s) && s != []
    ensures Trim(s + "\n") == s
  {
    var u := s + "\n";
    assert u[0] == s[0];
    assert LeadingWs(u) == 0;
    assert u[..|u| - 1] == s;
    assert TrailingWs(u) == 1;
  }

  /** Trimming a trimmed string changes nothing. */
  lemma TrimOfTrimmed(s: string)
    requires IsTrimmed(s)
    ensures Trim(s) == s
  {
  }

  predicate StartsWith(s: string, prefix: string) {
    |prefix| <= |s| && s[..|prefix|] == prefix
  }

  /** `p` occurs in `s` at position `i`. */
  predicate OccursAt(s: string, p: string, i: int) {
    0 <= i && i + |p| <= |s| && forall k | 0 <= k < |p| :: s[i + k] == p[k]
  }

  /** `s.includes(p)`. */
  function Contains(s: string, p: string): (r: bool)
    ensures r <==> exists i :: OccursAt(s, p, i)
  {
    if StartsWith(s, p) then
      assert OccursAt(s, p, 0);
      true
    else if s == [] then false
    else
      ShiftOccurrence(s, p);
      Contains(s[1..], p)
  }

  lemma ShiftOccurrence(s: string, p: string)
    requires s != [] && !StartsWith(s, p)
    ensures (exists i :: OccursAt(s, p, i)) <==> (exists i :: OccursAt(s[1..], p, i))
  {
    var t := s[1..];
    forall i | OccursAt(t, p, i) ensures OccursAt(s, p, i + 1) {
    }
    forall i | OccursAt(s, p, i) ensures OccursAt(t, p, i - 1) {
      assert i != 0;
    }
  }

  /** A string that lacks the first character of `p` does not contain `p`. */
  lemma AbsentHead(s: string, p: string)
    requires p != [] && p[0] !in s
    ensures !Contains(s, p)
  {
  }

  /** The number of occurrences of `c`, as `(s.match(/c/g) || []).length` counts them. */
  function CountChar(s: string, c: char): (n: nat)
    ensures n <= |s|
    ensures n == 0 <==> c !in s
  {
    if s == [] then 0
    else (if s[0] == c then 1 else 0) + CountChar(s[1..], c)
  }

  /** `s.indexOf(c)`: the first position of `c`, or -1. */
  function IndexOf(s: string, c: char): (r: int)
    ensures -1 <= r < |s|
    ensures r == -1 <==> c !in s
    ensures r >= 0 ==> s[r] == c && c !in s[..r]
  {
    if s == [] then -1
    else if s[0] == c then 0
    else
      var k := IndexOf(s[1..], c);
      if k < 0 then -1
      else
        assert s[..k + 1] == [s[0]] + s[1..][..k];
        k + 1
  }

  /** `s.lastIndexOf(c)`: the last position of `c`, or -1. */
  function LastIndexOf(s: string, c: char): (r: int)
    ensures -1 <= r < |s|
    ensures r == -1 <==> c !in s
    ensures r >= 0 ==> s[r] == c && c !in s[r + 1..]
  {
    if s == [] then -1
    else if s[|s| - 1] == c then |s| - 1
    else
      var k := LastIndexOf(s[..|s| - 1], c);
      assert s == s[..|s| - 1] + [s[|s| - 1]];
      assert k >= 0 ==> s[k + 1..] == s[..|s| - 1][k + 1..] + [s[|s| - 1]];
      k
  }

  /** `s.slice(start, end)`: a negative bound counts from the end, bounds are
      clamped to the string, and a range that ends before it starts is empty. */
  function Slice(s: string, start: int, end: int): (r: string)
    ensures |r| <= |s|
    ensures 0 <= start <= end <= |s| ==> r == s[start..end]
    ensures 0 <= start <= |s| <= end ==> r == s[start..]
    ensures 0 <= end <= start || |s| <= start ==> r == []
    ensures 0 <= start <= |s| + end && end < 0 ==> r == s[start..|s| + end]
    ensures 0 <= start && |s| + end <= start && end < 0 ==> r == []
    ensures start < 0 ==> r == Slice(s, if |s| + start < 0 then 0 else |s| + start, end)
    decreases if start < 0 then 1 else 0
  {
    var from := if start < 0 then (if |s| + start < 0 then 0 else |s| + start)
                else (if start < |s| then start else |s|);
    var to := if end < 0 then (if |s| + end < 0 then 0 else |s| + end)
              else (if end < |s| then end else |s|);
    if from < to then s[from..to] else []
  }

  /** `s.split(c)` for a one-character separator: the pieces between the separators, at least one. */
  function Split(s: string, c: char): (parts: seq<string>)
    ensures |parts| == CountChar(s, c) + 1
    ensures forall k | 0 <= k < |parts| :: c !in parts[k]
  {
    if s == [] then [""]
    else
      var rest := Split(s[1..], c);
      if s[0] == c then [""] + rest
      else [[s[0]] + rest[0]] + rest[1..]
  }

  /** `parts.join(sep)`. */
  function Join(parts: seq<string>, sep: string): string {
    if |parts| == 0 then ""
    else if |parts| == 1 then parts[0]
    else parts[0] + sep + Join(parts[1..], sep)
  }

  /** Splitting at `c` and joining with `c` gives back the string. */
  lemma {:induction false} JoinSplit(s: string, c: char)
    ensures Join(Split(s, c), [c]) == s
  {
    if s != [] {
      var rest := Split(s[1..], c);
      JoinSplit(s[1..], c);
      if s[0] != c {
        if |rest| == 1 {
          assert Split(s, c) == [[s[0]] + rest[0]];
        } else {
          assert Split(s, c) == [[s[0]] + rest[0]] + rest[1..];
          assert Split(s, c)[1..] == rest[1..];
          assert Join(rest, [c]) == rest[0] + [c] + Join(rest[1..], [c]);
        }
      } else {
        assert Split(s, c)[1..] == rest;
      }
    }
  }

  /** Splitting at `c` after a first piece without `c` gives that piece, then the rest's pieces. */
  lemma {:induction false} SplitFirst(a: string, rest: string, c: char)
    requires c !in a
    ensures Split(a + [c] + rest, c) == [a] + Split(rest, c)
  {
    if a == [] {
      assert a + [c] + rest == [c] + rest;
      assert ([c] + rest)[1..] == rest;
    } else {
      var s := a + [c] + rest;
      assert s[1..] == a[1..] + [c] + rest;
      SplitFirst(a[1..], rest, c);
      var r := Split(s[1..], c);
      assert r[0] == a[1..] && r[1..] == Split(rest, c);
      assert s[0] == a[0] && s[0] != c;
      assert [a[0]] + a[1..] == a;
    }
  }

  /** A piece without `c` is its own single piece. */
  lemma {:induction false} SplitNone(a: string, c: char)
    requires c !in a
    ensures Split(a, c) == [a]
  {
    if a != [] {
      SplitNone(a[1..], c);
      assert [a[0]] + a[1..] == a;
    }
  }

  /** Drops one trailing carriage return. */
  function DropCr(s: string): (r: string)
    ensures r == s || (s == r + ['\r'])
  {
    if s != [] && s[|s| - 1] == '\r' then s[..|s| - 1] else s
  }

  /** `s.split(/\r?\n/)`: split at every line feed; a piece that a line feed
      ends loses one carriage return just before it, the last piece keeps its own. */
  function SplitLines(s: string): (lines: seq<string>)
    ensures |lines| == CountChar(s, '\n') + 1
    ensures forall k | 0 <= k < |lines| :: '\n' !in lines[k]
  {
    var parts := Split(s, '\n');
    seq(|parts|, k requires 0 <= k < |parts| => if k < |parts| - 1 then DropCr(parts[k]) else parts[k])
  }

  /** `s.replace(/a/g, b)` for single characters. */
  function ReplaceChar(s: string, a: char, b: char): (r: string)
    ensures |r| == |s|
    ensures forall i | 0 <= i < |s| :: r[i] == if s[i] == a then b else s[i]
  {
    if s == [] then [] else [if s[0] == a then b else s[0]] + ReplaceChar(s[1..], a, b)
  }

  /** The characters of `s` that are not white space, in order. */
  function Ink(s: string): (r: string)
    ensures |r| <= |s|
  {
    if s == [] then [] else (if IsWs(s[0]) then [] else [s[0]]) + Ink(s[1..])
  }

  /** Concatenation is associative. */
  lemma Assoc<T>(a: seq<T>, b: seq<T>, c: seq<T>)
    ensures (a + b) + c == a + (b + c)
  {
  }

  lemma {:induction false} InkAppend(a: string, b: string)
    ensures Ink(a + b) == Ink(a) + Ink(b)
  {
    if a == [] {
      assert a + b == b;
    } else {
      assert (a + b)[1..] == a[1..] + b;
      InkAppend(a[1..], b);
      Assoc(if IsWs(a[0]) then [] else [a[0]], Ink(a[1..]), Ink(b));
    }
  }

  /** A string has no ink exactly when it is all white space. */
  lemma {:induction false} InkEmpty(s: string)
    ensures Ink(s) == [] <==> AllWs(s)
  {
    if s != [] {
      InkEmpty(s[1..]);
      assert forall i | 1 <= i < |s| :: s[i] == s[1..][i - 1];
    }
  }

  /** Trimming drops white space only, so it keeps the ink. */
  lemma InkTrim(s: string)
    ensures Ink(Trim(s)) == Ink(s)
  {
    InkTrimStart(s);
    InkTrimEnd(TrimStart(s));
  }

  lemma InkTrimStart(s: string)
    ensures Ink(TrimStart(s)) == Ink(s)
  {
    var a := LeadingWs(s);
    LeadingWsIsWs(s);
    assert AllWs(s[..a]);
    InkEmpty(s[..a]);
    InkAppend(s[..a], s[a..]);
    assert s[..a] + s[a..] == s;
  }

  lemma InkTrimEnd(s: string)
    ensures Ink(TrimEnd(s)) == Ink(s)
  {
    var m := |s| - TrailingWs(s);
    TrailingWsIsWs(s);
    assert AllWs(s[m..]);
    InkEmpty(s[m..]);
    InkAppend(s[..m], s[m..]);
    assert s[..m] + s[m..] == s;
  }

  /** The ink of the pieces, one after the other. */
  function InkOfAll(parts: seq<string>): string {
    if parts == [] then [] else Ink(parts[0]) + InkOfAll(parts[1..])
  }

  lemma {:induction false} InkOfAllSnoc(parts: seq<string>, p: string)
    ensures InkOfAll(parts + [p]) == InkOfAll(parts) + Ink(p)
  {
    if parts == [] {
      assert parts + [p] == [p];
    } else {
      assert (parts + [p])[1..] == parts[1..] + [p];
      InkOfAllSnoc(parts[1..], p);
      Assoc(Ink(parts[0]), InkOfAll(parts[1..]), Ink(p));
    }
  }

  /** Appending `emitted` and `pending2` in place of `pending`, where
      `emitted + pending2 == pending + line`, appends `line` to the whole. */
  lemma Regroup<T>(done: seq<T>, emitted: seq<T>, pending: seq<T>, pending2: seq<T>, line: seq<T>, whole: seq<T>)
    requires done + pending == whole
    requires emitted + pending2 == pending + line
    ensures (done + emitted) + pending2 == whole + line
  {
    calc {
      (done + emitted) + pending2;
      done + (emitted + pending2);
      done + (pending + line);
      (done + pending) + line;
    }
  }

  /** The ink of all the pieces is that of all but the last, then the last's. */
  lemma InkOfAllLast(parts: seq<string>)
    requires parts != []
    ensures InkOfAll(parts) == InkOfAll(parts[..|parts| - 1]) + Ink(parts[|parts| - 1])
  {
    assert parts == parts[..|parts| - 1] + [parts[|parts| - 1]];
    InkOfAllSnoc(parts[..|parts| - 1], parts[|parts| - 1]);
  }

  /** Joining with white space adds no ink. */
  lemma {:induction false} InkJoin(parts: seq<string>, sep: string)
    requires AllWs(sep)
    ensures Ink(Join(parts, sep)) == InkOfAll(parts)
  {
    InkEmpty(sep);
    if |parts| == 1 {
      assert parts[1..] == [];
    } else if |parts| > 1 {
      InkJoin(parts[1..], sep);
      InkAppend(parts[0], sep);
      InkAppend(parts[0] + sep, Join(parts[1..], sep));
      assert Ink(parts[0] + sep) == Ink(parts[0]);
    }
  }

  /** The lines of a text hold its ink: line feeds and the carriage returns
      before them are white space. */
  lemma InkSplitLines(s: string)
    ensures InkOfAll(SplitLines(s)) == Ink(s)
  {
    var parts := Split(s, '\n');
    JoinSplit(s, '\n');
    InkJoin(parts, "\n");
    forall i | 0 <= i < |parts| ensures Ink(SplitLines(s)[i]) == Ink(parts[i]) {
      if SplitLines(s)[i] != parts[i] {
        InkAppend(SplitLines(s)[i], ['\r']);
      }
    }
    InkOfAllPointwise(SplitLines(s), parts);
  }

  lemma {:induction false} InkOfAllPointwise(a: seq<string>, b: seq<string>)
    requires |a| == |b|
    requires forall i | 0 <= i < |a| :: Ink(a[i]) == Ink(b[i])
    ensures InkOfAll(a) == InkOfAll(b)
  {
    if a != [] {
      InkOfAllPointwise(a[1..], b[1..]);
    }
  }
}
