/** The line-oriented block scanner of the CSS aggregator (`parseCSS`).

    Between two lines the scanner keeps four variables: the pending text
    `current`, the kind of the pending block (unset, or rule, at-rule,
    comment), a brace counter and a comment flag. Each line updates them and
    may emit blocks; at the end of the input the pending text is emitted.
    `Step` states what one line does, `Run` folds it over a prefix of the
    lines, `Parse` is the whole scan, and `ParseCss` is the loop that
    computes it. */
module Scanner {
  import opened Wrappers
  import opened Text

  datatype Kind = Rule | AtRule | Comment | Import

  /** A classified unit of source text; its content is the trimmed text. */
  datatype Block = Block(kind: Kind, content: string)

  /** `current`, `type`, `brace` and `inComment` between two lines. */
  datatype ScanState = ScanState(current: string, kind: Option<Kind>, brace: int, inComment: bool)

  /** The state after some lines, with the blocks emitted so far. */
  datatype Scan = Scan(state: ScanState, blocks: seq<Block>)

  const Start := ScanState("", None, 0, false)

  /** `type || 'rule'`: a block whose kind was never set is a rule. */
  function KindOrRule(k: Option<Kind>): Kind {
    if k.Some? then k.value else Rule
  }

  /** The block pushed for the pending text, when that text is not blank. */
  function Flush(st: ScanState): seq<Block> {
    if Trim(st.current) != "" then [Block(KindOrRule(st.kind), Trim(st.current))] else []
  }

  /** `/^@media|^@keyframes|^@supports|^@font-face/`. */
  predicate IsAtRuleLine(t: string) {
    StartsWith(t, "@media") || StartsWith(t, "@keyframes") || StartsWith(t, "@supports") || StartsWith(t, "@font-face")
  }

  /** The comment flag after a trimmed line: `/*` sets it, then `*/` on the same line clears it. */
  function CommentFlag(inComment: bool, t: string): bool {
    if Contains(t, "*/") then false else if Contains(t, "/*") then true else inComment
  }

  /** What one line does to the scanner: its new state and the blocks it
      emits. The branches are tried in order on the trimmed line `t`, once
      the comment flag `c` has been updated from it. */
  function Step(st: ScanState, line: string): Scan {
    var t := Trim(line);
    var c := CommentFlag(st.inComment, t);
    if c || StartsWith(t, "//") then OnComment(st, line, c)
    else if StartsWith(t, "@import") then OnImport(st, t, c)
    else if IsAtRuleLine(t) then OnAtRule(st, line, t, c)
    else if '{' in t then OnOpen(st, line, t, c)
    else if '}' in t then OnClose(st, line, t, c)
    else OnText(st, line, t, c)
  }

  /** A line inside a comment, or a `//` line: appended to the pending text,
      which becomes a comment if it had no kind yet. */
  function OnComment(st: ScanState, line: string, c: bool): Scan {
    Scan(ScanState(st.current + line + "\n", if st.kind.None? then Some(Comment) else st.kind, st.brace, c), [])
  }

  /** An `@import` line: the pending text is flushed and the line becomes a
      block of its own; the brace count is kept. */
  function OnImport(st: ScanState, t: string, c: bool): Scan {
    Scan(ScanState("", None, st.brace, c), Flush(st) + [Block(Import, t)])
  }

  /** An at-rule line: the pending text is flushed and an at-rule starts with
      this line, counting its opening braces on top of the old count. */
  function OnAtRule(st: ScanState, line: string, t: string, c: bool): Scan {
    Scan(ScanState(line + "\n", Some(AtRule), st.brace + CountChar(t, '{'), c), Flush(st))
  }

  /** A line with `{`: appended, a rule if the pending text had no kind yet,
      and its opening braces counted. */
  function OnOpen(st: ScanState, line: string, t: string, c: bool): Scan {
    Scan(ScanState(st.current + line + "\n", if st.kind.None? then Some(Rule) else st.kind,
                   st.brace + CountChar(t, '{'), c), [])
  }

  /** A line with `}` and no `{`: appended and its closing braces counted;
      once the count is down to zero or below, the pending text is emitted. */
  function OnClose(st: ScanState, line: string, t: string, c: bool): Scan {
    var current := st.current + line + "\n";
    var brace := st.brace - CountChar(t, '}');
    if brace <= 0 then Scan(ScanState("", None, 0, c), [Block(KindOrRule(st.kind), Trim(current))])
    else Scan(ScanState(current, st.kind, brace, c), [])
  }

  /** Any other line: appended to a pending block, or starting a rule when it is not blank. */
  function OnText(st: ScanState, line: string, t: string, c: bool): Scan {
    if st.kind.Some? then Scan(ScanState(st.current + line + "\n", st.kind, st.brace, c), [])
    else if t != "" then Scan(ScanState(st.current + line + "\n", Some(Rule), st.brace, c), [])
    else Scan(st.(inComment := c), [])
  }

  /** The scanner after the given lines, starting from the initial state. */
  function Run(lines: seq<string>): Scan {
    if lines == [] then Scan(Start, [])
    else
      var before := Run(lines[..|lines| - 1]);
      var step := Step(before.state, lines[|lines| - 1]);
      Scan(step.state, before.blocks + step.blocks)
  }

  lemma RunAppend(lines: seq<string>, i: int)
    requires 0 <= i < |lines|
    ensures var before := Run(lines[..i]);
            var step := Step(before.state, lines[i]);
            Run(lines[..i + 1]) == Scan(step.state, before.blocks + step.blocks)
  {
    assert lines[..i + 1][..i] == lines[..i];
  }

  /** `parseCSS(content)`: scan every line, then emit what is pending. */
  function Parse(content: string): seq<Block> {
    var scan := Run(SplitLines(content));
    scan.blocks + Flush(scan.state)
  }

  /** The body of the loop of `parseCSS`: one line updates the four scanner
      variables and may emit blocks. */
  method ScanLine(current0: string, kind0: Option<Kind>, brace0: int, inComment0: bool, line: string)
    returns (current: string, kind: Option<Kind>, brace: int, inComment: bool, emitted: seq<Block>)
    ensures Scan(ScanState(current, kind, brace, inComment), emitted) == Step(ScanState(current0, kind0, brace0, inComment0), line)
  {
    var trimmed := Trim(line);
    inComment := inComment0;
    if Contains(trimmed, "/*") { inComment := true; }
    if Contains(trimmed, "*/") { inComment := false; }
    assert inComment == CommentFlag(inComment0, trimmed);
    if inComment || StartsWith(trimmed, "//") {
      current, kind, brace, emitted := CommentBranch(current0, kind0, brace0, inComment0, line, trimmed, inComment);
    } else if StartsWith(trimmed, "@import") {
      current, kind, brace, emitted := ImportBranch(current0, kind0, brace0, inComment0, line, trimmed, inComment);
    } else if IsAtRuleLine(trimmed) {
      current, kind, brace, emitted := AtRuleBranch(current0, kind0, brace0, inComment0, line, trimmed, inComment);
    } else if '{' in trimmed {
      current, kind, brace, emitted := OpenBranch(current0, kind0, brace0, inComment0, line, trimmed, inComment);
    } else if '}' in trimmed {
      current, kind, brace, emitted := CloseBranch(current0, kind0, brace0, inComment0, line, trimmed, inComment);
    } else {
      current, kind, brace, emitted := TextBranch(current0, kind0, brace0, inComment0, line, trimmed, inComment);
    }
  }

  /** A line inside a comment, or a `//` line: appended to the pending text. */
  method CommentBranch(current0: string, kind0: Option<Kind>, brace0: int, inComment0: bool,
      line: string, trimmed: string, inComment: bool)
    returns (current: string, kind: Option<Kind>, brace: int, emitted: seq<Block>)
    ensures Scan(ScanState(current, kind, brace, inComment), emitted)
         == OnComment(ScanState(current0, kind0, brace0, inComment0), line, inComment)
  {
    current, kind, brace, emitted := current0, kind0, brace0, [];
    if kind.None? { kind := Some(Comment); }
    current := current + line + "\n";
  }

  /** An `@import` line: the pending text is flushed and the line becomes a block of its own. */
  method ImportBranch(current0: string, kind0: Option<Kind>, brace0: int, inComment0: bool,
      line: string, trimmed: string, inComment: bool)
    returns (current: string, kind: Option<Kind>, brace: int, emitted: seq<Block>)
    ensures Scan(ScanState(current, kind, brace, inComment), emitted)
         == OnImport(ScanState(current0, kind0, brace0, inComment0), trimmed, inComment)
  {
    current, kind, brace, emitted := current0, kind0, brace0, [];
    if Trim(current) != "" { emitted := emitted + [Block(KindOrRule(kind), Trim(current))]; }
    emitted := emitted + [Block(Import, trimmed)];
    current, kind := "", None;
  }

  /** An at-rule line: the pending text is flushed and an at-rule starts with this line. */
  method AtRuleBranch(current0: string, kind0: Option<Kind>, brace0: int, inComment0: bool,
      line: string, trimmed: string, inComment: bool)
    returns (current: string, kind: Option<Kind>, brace: int, emitted: seq<Block>)
    ensures Scan(ScanState(current, kind, brace, inComment), emitted)
         == OnAtRule(ScanState(current0, kind0, brace0, inComment0), line, trimmed, inComment)
  {
    current, kind, brace, emitted := current0, kind0, brace0, [];
    if Trim(current) != "" { emitted := emitted + [Block(KindOrRule(kind), Trim(current))]; }
    kind := Some(AtRule);
    current := line + "\n";
    brace := brace + CountChar(trimmed, '{');
  }

  /** A line with `{`: appended, and its opening braces counted. */
  method OpenBranch(current0: string, kind0: Option<Kind>, brace0: int, inComment0: bool,
      line: string, trimmed: string, inComment: bool)
    returns (current: string, kind: Option<Kind>, brace: int, emitted: seq<Block>)
    ensures Scan(ScanState(current, kind, brace, inComment), emitted)
         == OnOpen(ScanState(current0, kind0, brace0, inComment0), line, trimmed, inComment)
  {
    current, kind, brace, emitted := current0, kind0, brace0, [];
    if kind.None? { kind := Some(Rule); }
    current := current + line + "\n";
    brace := brace + CountChar(trimmed, '{');
  }

  /** A line with `}` and no `{`: appended, its closing braces counted, and the block emitted once the count is back to zero or below. */
  method CloseBranch(current0: string, kind0: Option<Kind>, brace0: int, inComment0: bool,
      line: string, trimmed: string, inComment: bool)
    returns (current: string, kind: Option<Kind>, brace: int, emitted: seq<Block>)
    ensures Scan(ScanState(current, kind, brace, inComment), emitted)
         == OnClose(ScanState(current0, kind0, brace0, inComment0), line, trimmed, inComment)
  {
    current, kind, brace, emitted := current0, kind0, brace0, [];
    current := current + line + "\n";
    brace := brace - CountChar(trimmed, '}');
    if brace <= 0 {
      emitted := emitted + [Block(KindOrRule(kind), Trim(current))];
      current, kind, brace := "", None, 0;
    }
  }

  /** Any other line: appended to a pending block, or starting a rule when it is not blank. */
  method TextBranch(current0: string, kind0: Option<Kind>, brace0: int, inComment0: bool,
      line: string, trimmed: string, inComment: bool)
    returns (current: string, kind: Option<Kind>, brace: int, emitted: seq<Block>)
    ensures Scan(ScanState(current, kind, brace, inComment), emitted)
         == OnText(ScanState(current0, kind0, brace0, inComment0), line, trimmed, inComment)
  {
    current, kind, brace, emitted := current0, kind0, brace0, [];
    if kind.Some? {
      current := current + line + "\n";
    } else if trimmed != "" {
      current := current + line + "\n";
      kind := Some(Rule);
    }
  }

  /** The loop of `parseCSS`, over the four scanner variables. */
  method ParseCss(content: string) returns (blocks: seq<Block>)
    ensures blocks == Parse(content)
  {
    var lines := SplitLines(content);
    blocks := [];
    var current: string, kind: Option<Kind>, brace: int, inComment: bool := "", None, 0, false;
    for i := 0 to |lines|
      invariant Run(lines[..i]) == Scan(ScanState(current, kind, brace, inComment), blocks)
    {
      var emitted;
      current, kind, brace, inComment, emitted := ScanLine(current, kind, brace, inComment, lines[i]);
      blocks := blocks + emitted;
      RunAppend(lines, i);
    }
    assert lines[..|lines|] == lines;
    if Trim(current) != "" { blocks := blocks + [Block(KindOrRule(kind), Trim(current))]; }
  }

  // ---------------------------------------------------------------------
  // What the scan keeps: no text is lost or invented, blocks are trimmed,
  // and every `@import` line outside a comment becomes one block.

  /** The ink (non-white-space characters) of the blocks' contents, in order. */
  function InkOfBlocks(blocks: seq<Block>): string {
    if blocks == [] then [] else Ink(blocks[0].content) + InkOfBlocks(blocks[1..])
  }

  lemma {:induction false} InkOfBlocksAppend(a: seq<Block>, b: seq<Block>)
    ensures InkOfBlocks(a + b) == InkOfBlocks(a) + InkOfBlocks(b)
  {
    if a == [] {
      assert a + b == b;
    } else {
      assert (a + b)[1..] == a[1..] + b;
      InkOfBlocksAppend(a[1..], b);
      Assoc(Ink(a[0].content), InkOfBlocks(a[1..]), InkOfBlocks(b));
    }
  }

  /** A block holds trimmed, non-blank text. */
  predicate Trimmed(b: Block) {
    b.content != "" && IsTrimmed(b.content)
  }

  /** Between lines the brace count is never negative and no import is pending. */
  predicate Valid(st: ScanState) {
    st.brace >= 0 && st.kind != Some(Import)
  }

  /** The contents of the import blocks, in order. */
  function Imports(blocks: seq<Block>): seq<string> {
    if blocks == [] then []
    else (if blocks[0].kind == Import then [blocks[0].content] else []) + Imports(blocks[1..])
  }

  lemma {:induction false} ImportsAppend(a: seq<Block>, b: seq<Block>)
    ensures Imports(a + b) == Imports(a) + Imports(b)
  {
    if a == [] {
      assert a + b == b;
    } else {
      assert (a + b)[1..] == a[1..] + b;
      ImportsAppend(a[1..], b);
      Assoc(if a[0].kind == Import then [a[0].content] else [], Imports(a[1..]), Imports(b));
    }
  }

  /** A trimmed line `t` that is an import, given the comment flag `c` after it. */
  predicate IsImport(t: string, c: bool) {
    !c && StartsWith(t, "@import")
  }

  /** What one step `s` on `line` keeps: the ink of the old pending text and
      of the line ends up in the emitted blocks and the new pending text;
      every emitted block is trimmed; the new comment flag is `c`; and from a
      valid state the new state is valid and the step emits the import block
      `t` when `imp` holds and no import block otherwise. */
  predicate StepKeeps(st: ScanState, line: string, t: string, c: bool, imp: bool, s: Scan) {
    && InkOfBlocks(s.blocks) + Ink(s.state.current) == Ink(st.current) + Ink(line)
    && (forall i | 0 <= i < |s.blocks| :: Trimmed(s.blocks[i]))
    && s.state.inComment == c
    && (Valid(st) ==> Valid(s.state) && Imports(s.blocks) == if imp then [t] else [])
  }

  lemma InkAppendLine(current: string, line: string)
    ensures Ink(current + line + "\n") == Ink(current) + Ink(line)
  {
    InkAppend(current, line);
    InkAppend(current + line, "\n");
  }

  /** Flushing moves the ink of the pending text into the emitted block, which is trimmed. */
  lemma FlushKeeps(st: ScanState)
    ensures InkOfBlocks(Flush(st)) == Ink(st.current)
    ensures forall i | 0 <= i < |Flush(st)| :: Trimmed(Flush(st)[i])
    ensures Valid(st) ==> Imports(Flush(st)) == []
  {
    InkTrim(st.current);
    TrimIsTrimmed(st.current);
  }

  lemma CommentKeeps(st: ScanState, line: string, t: string, c: bool)
    ensures StepKeeps(st, line, t, c, false, OnComment(st, line, c))
  {
    InkAppendLine(st.current, line);
  }

  lemma ImportKeeps(st: ScanState, line: string, t: string, c: bool)
    requires Ink(t) == Ink(line) && t != "" && IsTrimmed(t)
    ensures StepKeeps(st, line, t, c, true, OnImport(st, t, c))
  {
    var s := OnImport(st, t, c);
    assert InkOfBlocks(s.blocks) + Ink(s.state.current) == Ink(st.current) + Ink(line) by {
      FlushKeeps(st);
      InkOfBlocksAppend(Flush(st), [Block(Import, t)]);
    }
    assert forall i | 0 <= i < |s.blocks| :: Trimmed(s.blocks[i]) by {
      FlushKeeps(st);
    }
    assert Valid(st) ==> Imports(s.blocks) == [t] by {
      FlushKeeps(st);
      ImportsAppend(Flush(st), [Block(Import, t)]);
    }
  }

  lemma AtRuleKeeps(st: ScanState, line: string, t: string, c: bool)
    ensures StepKeeps(st, line, t, c, false, OnAtRule(st, line, t, c))
  {
    FlushKeeps(st);
    InkAppend(line, "\n");
  }

  lemma OpenKeeps(st: ScanState, line: string, t: string, c: bool)
    ensures StepKeeps(st, line, t, c, false, OnOpen(st, line, t, c))
  {
    InkAppendLine(st.current, line);
  }

  /** The block emitted for pending text that holds a `}` carries that text's ink and is trimmed. */
  lemma ClosedBlockKeeps(kind: Kind, current: string, k: int)
    requires 0 <= k < |current| && current[k] == '}'
    ensures InkOfBlocks([Block(kind, Trim(current))]) == Ink(current)
    ensures Trimmed(Block(kind, Trim(current)))
  {
    assert [Block(kind, Trim(current))][1..] == [];
    InkTrim(current);
    TrimNotBlank(current, k);
    TrimIsTrimmed(current);
  }

  lemma CloseKeeps(st: ScanState, line: string, t: string, c: bool)
    requires '}' in line
    ensures StepKeeps(st, line, t, c, false, OnClose(st, line, t, c))
  {
    var current := st.current + line + "\n";
    InkAppendLine(st.current, line);
    if st.brace - CountChar(t, '}') <= 0 {
      var k :| 0 <= k < |line| && line[k] == '}';
      assert current[|st.current| + k] == '}';
      ClosedBlockKeeps(KindOrRule(st.kind), current, |st.current| + k);
    }
  }

  lemma TextKeeps(st: ScanState, line: string, t: string, c: bool)
    requires t == "" ==> Ink(line) == []
    ensures StepKeeps(st, line, t, c, false, OnText(st, line, t, c))
  {
    var s := OnText(st, line, t, c);
    assert s.blocks == [] && InkOfBlocks(s.blocks) == [] && Imports(s.blocks) == [];
    if st.kind.Some? || t != "" {
      InkAppendLine(st.current, line);
      assert s.state.current == st.current + line + "\n";
    } else {
      assert s.state.current == st.current;
      assert Ink(st.current) + Ink(line) == Ink(st.current);
    }
  }

  /** Every step keeps what `StepKeeps` says, and emits an import block exactly for an import line. */
  lemma StepKeepsAll(st: ScanState, line: string)
    ensures var t := Trim(line);
            var c := CommentFlag(st.inComment, t);
            StepKeeps(st, line, t, c, IsImport(t, c), Step(st, line))
  {
    var t := Trim(line);
    var c := CommentFlag(st.inComment, t);
    if c || StartsWith(t, "//") {
      assert !IsImport(t, c) by {
        if !c { assert t[0] == '/'; }
      }
      CommentKeeps(st, line, t, c);
    } else if StartsWith(t, "@import") {
      InkTrim(line);
      TrimIsTrimmed(line);
      ImportKeeps(st, line, t, c);
    } else if IsAtRuleLine(t) {
      AtRuleKeeps(st, line, t, c);
    } else if '{' in t {
      OpenKeeps(st, line, t, c);
    } else if '}' in t {
      TrimCharIn(line, '}');
      CloseKeeps(st, line, t, c);
    } else {
      InkTrim(line);
      TextKeeps(st, line, t, c);
    }
  }

  /** Whether the lines leave a comment open, by the flag rule alone. */
  function CommentAfter(lines: seq<string>): bool {
    if lines == [] then false
    else CommentFlag(CommentAfter(lines[..|lines| - 1]), Trim(lines[|lines| - 1]))
  }

  /** The trimmed `@import` lines that lie outside comments, in order. */
  function ImportLines(lines: seq<string>): seq<string> {
    if lines == [] then []
    else
      var t := Trim(lines[|lines| - 1]);
      var c := CommentFlag(CommentAfter(lines[..|lines| - 1]), t);
      ImportLines(lines[..|lines| - 1]) + (if IsImport(t, c) then [t] else [])
  }

  /** The scan after some lines: its ink is theirs, its blocks are trimmed,
      its state is valid and follows the comment flag, and its import blocks
      are the import lines. */
  lemma {:induction false} RunKeeps(lines: seq<string>)
    ensures InkOfBlocks(Run(lines).blocks) + Ink(Run(lines).state.current) == InkOfAll(lines)
    ensures forall i | 0 <= i < |Run(lines).blocks| :: Trimmed(Run(lines).blocks[i])
    ensures Valid(Run(lines).state)
    ensures Run(lines).state.inComment == CommentAfter(lines)
    ensures Imports(Run(lines).blocks) == ImportLines(lines)
  {
    if lines != [] {
      var init := lines[..|lines| - 1];
      var line := lines[|lines| - 1];
      var before := Run(init);
      var step := Step(before.state, line);
      RunKeeps(init);
      StepKeepsAll(before.state, line);
      assert Run(lines) == Scan(step.state, before.blocks + step.blocks);
      assert InkOfBlocks(Run(lines).blocks) + Ink(Run(lines).state.current) == InkOfAll(lines) by {
        InkOfBlocksAppend(before.blocks, step.blocks);
        InkOfAllLast(lines);
        Regroup(InkOfBlocks(before.blocks), InkOfBlocks(step.blocks), Ink(before.state.current),
                Ink(step.state.current), Ink(line), InkOfAll(init));
      }
      assert Imports(Run(lines).blocks) == ImportLines(lines) by {
        ImportsAppend(before.blocks, step.blocks);
      }
    }
  }

  /** `parseCSS` loses no text and invents none: apart from white space, the
      blocks' contents put end to end are the stylesheet. */
  lemma ParseKeepsInk(content: string)
    ensures InkOfBlocks(Parse(content)) == Ink(content)
  {
    var scan := Run(SplitLines(content));
    RunKeeps(SplitLines(content));
    InkSplitLines(content);
    FlushKeeps(scan.state);
    InkOfBlocksAppend(scan.blocks, Flush(scan.state));
  }

  /** Every block `parseCSS` returns holds trimmed, non-blank text. */
  lemma ParseBlocksTrimmed(content: string)
    ensures forall i | 0 <= i < |Parse(content)| :: Trimmed(Parse(content)[i])
  {
    var scan := Run(SplitLines(content));
    RunKeeps(SplitLines(content));
    FlushKeeps(scan.state);
  }

  /** `parseCSS` turns each `@import` line outside a comment into one import
      block holding that trimmed line, in order, and makes no other import block. */
  lemma ParseImports(content: string)
    ensures Imports(Parse(content)) == ImportLines(SplitLines(content))
  {
    var scan := Run(SplitLines(content));
    RunKeeps(SplitLines(content));
    FlushKeeps(scan.state);
    ImportsAppend(scan.blocks, Flush(scan.state));
  }

  /** Each import line found is a single line starting with `@import`. */
  lemma {:induction false} ImportLinesShape(lines: seq<string>)
    requires forall k | 0 <= k < |lines| :: '\n' !in lines[k]
    ensures forall k | 0 <= k < |ImportLines(lines)| ::
              StartsWith(ImportLines(lines)[k], "@import") && '\n' !in ImportLines(lines)[k]
  {
    if lines != [] {
      ImportLinesShape(lines[..|lines| - 1]);
      TrimKeeps(lines[|lines| - 1]);
    }
  }

  /** Inside a comment that the line does not close, the line is appended and
      nothing else happens, whatever braces or `@import` it holds. */
  lemma CommentLineAppends(st: ScanState, line: string)
    requires st.inComment && !Contains(Trim(line), "*/")
    ensures Step(st, line).blocks == []
    ensures Step(st, line).state
         == ScanState(st.current + line + "\n", if st.kind.None? then Some(Comment) else st.kind, st.brace, true)
  {
  }

  /** A rule written on one line, outside any comment, does not close: the
      `{` branch is taken before the `}` branch, so only its opening braces
      are counted and the line joins the pending block. Each such line adds
      at least one to the count, so consecutive one-line rules pile up in one
      block until a line with only closing braces brings it back down. */
  lemma OneLineRuleStaysOpen(st: ScanState, line: string)
    requires !st.inComment
    requires var t := Trim(line);
             '{' in t && !Contains(t, "/*") && !Contains(t, "*/") && t[0] != '/' && t[0] != '@'
    ensures var t := Trim(line);
            Step(st, line) == Scan(ScanState(st.current + line + "\n", if st.kind.None? then Some(Rule) else st.kind,
                                             st.brace + CountChar(t, '{'), false), [])
    ensures CountChar(Trim(line), '{') >= 1
  {
    var t := Trim(line);
    assert !StartsWith(t, "//") && !StartsWith(t, "@import") && !IsAtRuleLine(t);
  }

  /** The lines of a one-line text written twice with a blank line between. */
  lemma TwiceLines(line: string)
    requires IsTrimmed(line) && line != [] && '\n' !in line
    ensures SplitLines(line + "\n\n" + line) == [line, "", line]
  {
    SplitFirst(line, "\n" + line, '\n');
    SplitFirst("", line, '\n');
    SplitNone(line, '\n');
    assert line + "\n\n" + line == line + ['\n'] + ("\n" + line);
    assert "\n" + line == "" + ['\n'] + line;
    assert Split(line + "\n\n" + line, '\n') == [line, "", line];
    assert DropCr(line) == line;
  }

  /** A blank line inside an open block is appended to it. */
  lemma BlankLineAppends(st: ScanState)
    requires st.kind.Some? && !st.inComment
    ensures Step(st, "") == Scan(st.(current := st.current + "\n"), [])
  {
    assert Trim("") == "";
    assert !Contains("", "*/") && !Contains("", "/*");
  }

  /** Three lines that each emit nothing leave the scanner in the state the
      third one reaches, with no block emitted. */
  lemma RunOfThree(a: string, b: string, c: string, s1: ScanState, s2: ScanState, s3: ScanState)
    requires Step(Start, a) == Scan(s1, [])
    requires Step(s1, b) == Scan(s2, [])
    requires Step(s2, c) == Scan(s3, [])
    ensures Run([a, b, c]) == Scan(s3, [])
  {
    var lines := [a, b, c];
    assert lines[..2] == [a, b] && [a, b][..1] == [a] && [a][..0] == [];
    assert Run([a]) == Scan(s1, []);
    assert Run([a, b]) == Scan(s2, []);
  }

  /** The same one-line rule written twice, with a blank line between, is
      one block: the second copy joins the block the first left open, so
      the two copies reach deduplication as a single key. */
  lemma RepeatedOneLineRule(line: string)
    requires IsTrimmed(line) && '\n' !in line
    requires '{' in line && !Contains(line, "/*") && !Contains(line, "*/") && line[0] != '/' && line[0] != '@'
    ensures Parse(line + "\n\n" + line) == [Block(Rule, line + "\n\n" + line)]
  {
    var content := line + "\n\n" + line;
    TwiceLines(line);
    RunTwice(line);
    TrimNewline(content);
  }

  /** The scan of the two copies leaves one open rule holding both. */
  lemma RunTwice(line: string)
    requires IsTrimmed(line)
    requires '{' in line && !Contains(line, "/*") && !Contains(line, "*/") && line[0] != '/' && line[0] != '@'
    ensures Run([line, "", line]) == Scan(ScanState(line + "\n\n" + line + "\n", Some(Rule), 2 * CountChar(line, '{'), false), [])
  {
    TrimOfTrimmed(line);
    var n := CountChar(line, '{');
    var s1 := ScanState(line + "\n", Some(Rule), n, false);
    var s2 := ScanState(line + "\n" + "\n", Some(Rule), n, false);
    var s3 := ScanState(line + "\n\n" + line + "\n", Some(Rule), n + n, false);
    OneLineRuleStaysOpen(Start, line);
    BlankLineAppends(s1);
    OneLineRuleStaysOpen(s2, line);
    assert s2.current + line + "\n" == s3.current;
    RunOfThree(line, "", line, s1, s2, s3);
  }
}
