// The first-occurrence deduplicator of the build script (`buildAndDedupe`).
//
// The file system is a map from path to what reading it gives: a path that
// is not a key does not exist, `None` is a file whose read fails, and
// `Some(text)` is its contents. Both kinds of failure skip the file without
// counting it. The blocks of the readable files are visited in order; an
// import is kept the first time its key is seen among imports, and a
// comment, rule or at-rule the first time its key is seen among those three
// kinds, except that a rule or at-rule whose body is blank is dropped
// without being recorded.
module Dedupe {
  import opened Wrappers
  import opened Text
  import opened Scanner
  import opened EmptyRule

  type FileSystem = map<string, Option<string>>

  // ---------------------------------------------------------------------
  // Distinct paths

  // `[...new Set(files)]`: each path once, at its first occurrence.
  function Unique(paths: seq<string>): seq<string> {
    if paths == [] then []
    else
      var u := Unique(paths[..|paths| - 1]);
      if paths[|paths| - 1] in u then u else u + [paths[|paths| - 1]]
  }

  predicate Distinct<T(==)>(s: seq<T>) {
    forall i, j | 0 <= i < j < |s| :: s[i] != s[j]
  }

  // No path twice, and the same paths as the input.
  lemma {:induction false} UniqueDistinct(paths: seq<string>)
    ensures Distinct(Unique(paths))
    ensures forall p :: p in Unique(paths) <==> p in paths
  {
    if paths != [] {
      var init := paths[..|paths| - 1];
      UniqueDistinct(init);
      assert paths == init + [paths[|paths| - 1]];
    }
  }

  // Paths given without repetition are kept as they are, in their order.
  lemma {:induction false} UniqueOfDistinct(paths: seq<string>)
    requires Distinct(paths)
    ensures Unique(paths) == paths
  {
    if paths != [] {
      var init := paths[..|paths| - 1];
      UniqueOfDistinct(init);
      assert paths == init + [paths[|paths| - 1]];
    }
  }

  // Appending paths that were already listed changes nothing.
  lemma {:induction false} UniqueRepeat(paths: seq<string>, more: seq<string>)
    requires forall p | p in more :: p in paths
    ensures Unique(paths + more) == Unique(paths)
  {
    if more == [] {
      assert paths + more == paths;
    } else {
      var init := more[..|more| - 1];
      var all := paths + more;
      UniqueRepeat(paths, init);
      assert all[..|all| - 1] == paths + init;
      assert all[|all| - 1] == more[|more| - 1];
      assert more[|more| - 1] in more;
      UniqueDistinct(paths);
      assert all[|all| - 1] in Unique(all[..|all| - 1]);
    }
  }

  // ---------------------------------------------------------------------
  // Files read and blocks visited

  predicate Readable(fs: FileSystem, path: string) {
    path in fs && fs[path].Some?
  }

  // The contents of the readable paths, in order.
  function Contents(fs: FileSystem, paths: seq<string>): seq<string> {
    if paths == [] then []
    else
      var last := paths[|paths| - 1];
      Contents(fs, paths[..|paths| - 1]) + (if Readable(fs, last) then [fs[last].value] else [])
  }

  // The blocks of the given files, file after file.
  function AllBlocks(contents: seq<string>): seq<Block> {
    if contents == [] then [] else AllBlocks(contents[..|contents| - 1]) + Parse(contents[|contents| - 1])
  }

  lemma ContentsStep(fs: FileSystem, paths: seq<string>, i: int)
    requires 0 <= i < |paths|
    ensures Contents(fs, paths[..i + 1])
         == Contents(fs, paths[..i]) + (if Readable(fs, paths[i]) then [fs[paths[i]].value] else [])
  {
    assert paths[..i + 1][..i] == paths[..i];
  }

  lemma AllBlocksStep(contents: seq<string>, text: string)
    ensures AllBlocks(contents + [text]) == AllBlocks(contents) + Parse(text)
  {
    assert (contents + [text])[..|contents|] == contents;
  }

  // ---------------------------------------------------------------------
  // Which blocks are kept: the reference definition

  // What deduplication looks at in a block: its key `block.content.trim()`,
  // the seen-set it is checked against, and whether it takes part at all.
  datatype Entry = Entry(key: string, isImport: bool, counts: bool)

  // A block takes part when its key is not blank and it is not a rule or
  // at-rule with a blank body; imports are checked against their own set,
  // comments, rules and at-rules against a shared one.
  function EntryOf(b: Block): Entry {
    var key := Trim(b.content);
    Entry(key, b.kind == Import, key != "" && (b.kind == Import || b.kind == Comment || !IsEmptyRule(key)))
  }

  function Entries(bs: seq<Block>): (es: seq<Entry>)
    ensures |es| == |bs|
    ensures forall i | 0 <= i < |bs| :: es[i] == EntryOf(bs[i])
  {
    seq(|bs|, i requires 0 <= i < |bs| => EntryOf(bs[i]))
  }

  lemma EntriesStep(bs: seq<Block>, k: int)
    requires 0 <= k < |bs|
    ensures Entries(bs[..k + 1]) == Entries(bs[..k]) + [EntryOf(bs[k])]
  {
  }

  lemma EntriesAppend(a: seq<Block>, b: seq<Block>)
    ensures Entries(a + b) == Entries(a) + Entries(b)
  {
  }

  // Entry `i` is kept: it takes part, and no earlier entry that takes part
  // in the same set has its key.
  predicate FirstAt(es: seq<Entry>, i: int)
    requires 0 <= i < |es|
  {
    es[i].counts && forall j | 0 <= j < i :: !(es[j].counts && es[j].isImport == es[i].isImport && es[j].key == es[i].key)
  }

  // The keys of the kept entries, in order.
  function Kept(es: seq<Entry>): seq<string> {
    if es == [] then []
    else Kept(es[..|es| - 1]) + (if FirstAt(es, |es| - 1) then [es[|es| - 1].key] else [])
  }

  // The keys recorded in one set: the imports (`imports`) or the others.
  function Seen(es: seq<Entry>, imports: bool): set<string> {
    set j | 0 <= j < |es| && es[j].counts && es[j].isImport == imports :: es[j].key
  }

  // Recording one more entry adds its key to its set when it takes part, and nothing else.
  lemma SeenStep(es: seq<Entry>, e: Entry, imports: bool)
    ensures Seen(es + [e], imports) == Seen(es, imports) + (if e.counts && e.isImport == imports then {e.key} else {})
  {
    var s := es + [e];
    forall k | k in Seen(s, imports)
      ensures k in Seen(es, imports) || (e.counts && e.isImport == imports && k == e.key)
    {
      var j :| 0 <= j < |s| && s[j].counts && s[j].isImport == imports && s[j].key == k;
      if j < |es| { assert s[j] == es[j]; }
    }
    forall k | k in Seen(es, imports) ensures k in Seen(s, imports) {
      var j :| 0 <= j < |es| && es[j].counts && es[j].isImport == imports && es[j].key == k;
      assert s[j] == es[j];
    }
    if e.counts && e.isImport == imports {
      assert s[|es|] == e;
    }
  }

  // The last entry is kept exactly when it takes part and its key is new to its set.
  lemma FirstAtLast(es: seq<Entry>, e: Entry)
    ensures FirstAt(es + [e], |es|) <==> e.counts && e.key !in Seen(es, e.isImport)
  {
    var s := es + [e];
    if e.counts && !FirstAt(s, |es|) {
      var j :| 0 <= j < |es| && s[j].counts && s[j].isImport == e.isImport && s[j].key == e.key;
      assert s[j] == es[j];
    }
    if e.key in Seen(es, e.isImport) {
      var j :| 0 <= j < |es| && es[j].counts && es[j].isImport == e.isImport && es[j].key == e.key;
      assert s[j] == es[j];
    }
  }

  // One more entry: it is kept exactly when it takes part and its key is
  // new to its set, and only then is its key recorded.
  lemma KeptStep(es: seq<Entry>, e: Entry)
    ensures var isNew := e.counts && e.key !in Seen(es, e.isImport);
            Kept(es + [e]) == Kept(es) + (if isNew then [e.key] else [])
    ensures Seen(es + [e], false) == Seen(es, false) + (if e.counts && !e.isImport then {e.key} else {})
    ensures Seen(es + [e], true) == Seen(es, true) + (if e.counts && e.isImport then {e.key} else {})
  {
    assert (es + [e])[..|es|] == es;
    FirstAtLast(es, e);
    SeenStep(es, e, false);
    SeenStep(es, e, true);
  }

  // `result.length === seenRules.size + seenImports.size`: no key is kept
  // twice within its set, and every recorded key was kept.
  lemma {:induction false} KeptCount(es: seq<Entry>)
    ensures |Kept(es)| == |Seen(es, false)| + |Seen(es, true)|
  {
    if es != [] {
      var init := es[..|es| - 1];
      var e := es[|es| - 1];
      assert es == init + [e];
      KeptCount(init);
      KeptStep(init, e);
    }
  }

  // Every kept key was recorded in its set, and every recorded key was kept.
  lemma {:induction false} KeptIsSeen(es: seq<Entry>)
    ensures forall k :: k in Kept(es) <==> k in Seen(es, false) || k in Seen(es, true)
  {
    if es != [] {
      var init := es[..|es| - 1];
      var e := es[|es| - 1];
      assert es == init + [e];
      KeptIsSeen(init);
      KeptStep(init, e);
    }
  }

  // Kept keys are distinct within a set: a key kept for an import is kept
  // once among imports, and likewise for the other set.
  lemma {:induction false} KeptOnce(es: seq<Entry>, i: int, j: int)
    requires 0 <= i < j < |es| && FirstAt(es, i) && FirstAt(es, j)
    ensures es[i].isImport == es[j].isImport ==> es[i].key != es[j].key
  {
  }

  // A block that does not take part (a blank key, or a rule with a blank
  // body) is neither kept nor recorded.
  lemma EmptyRuleIgnored(es: seq<Entry>, b: Block)
    requires b.kind == Rule || b.kind == AtRule
    requires IsEmptyRule(Trim(b.content))
    ensures Kept(es + [EntryOf(b)]) == Kept(es)
    ensures Seen(es + [EntryOf(b)], false) == Seen(es, false)
  {
    KeptStep(es, EntryOf(b));
  }

  // A rule whose key was already recorded, by a comment, a rule or an
  // at-rule, is dropped; so is a comment whose key was recorded by a rule.
  lemma RepeatedKeyDropped(es: seq<Entry>, b: Block)
    requires b.kind != Import && Trim(b.content) in Seen(es, false)
    ensures Kept(es + [EntryOf(b)]) == Kept(es)
  {
    KeptStep(es, EntryOf(b));
  }

  // The scanner's blocks already hold trimmed, non-blank text, so their key
  // is their content.
  lemma ParsedKeys(content: string)
    ensures forall i | 0 <= i < |Parse(content)| :: EntryOf(Parse(content)[i]).key == Parse(content)[i].content != ""
  {
    ParseBlocksTrimmed(content);
    forall i | 0 <= i < |Parse(content)| ensures Trim(Parse(content)[i].content) == Parse(content)[i].content {
      TrimOfTrimmed(Parse(content)[i].content);
    }
  }

  // ---------------------------------------------------------------------
  // The build

  // What the build writes: the kept keys separated by blank lines.
  function Output(fs: FileSystem, files: seq<string>): string {
    Join(Kept(Entries(AllBlocks(Contents(fs, Unique(files))))), "\n\n")
  }

  // Listing files again changes nothing.
  lemma RepeatedFilesIgnored(fs: FileSystem, files: seq<string>, more: seq<string>)
    requires forall p | p in more :: p in files
    ensures Output(fs, files + more) == Output(fs, files)
  {
    UniqueRepeat(files, more);
  }

  // One block of the inner loop, with the two seen-sets and the result.
  method AddBlock(seenRules: set<string>, seenImports: set<string>, result: seq<string>, block: Block, ghost es: seq<Entry>)
    returns (seenRules': set<string>, seenImports': set<string>, result': seq<string>)
    requires seenRules == Seen(es, false) && seenImports == Seen(es, true) && result == Kept(es)
    ensures seenRules' == Seen(es + [EntryOf(block)], false) && seenImports' == Seen(es + [EntryOf(block)], true)
    ensures result' == Kept(es + [EntryOf(block)])
  {
    KeptStep(es, EntryOf(block));
    seenRules', seenImports', result' := seenRules, seenImports, result;
    var key := Trim(block.content);
    if key == "" {
      return;
    }
    if block.kind == Import {
      if key !in seenImports {
        seenImports' := seenImports + {key};
        result' := result + [key];
      }
    } else if block.kind == Comment {
      if key !in seenRules {
        seenRules' := seenRules + {key};
        result' := result + [key];
      }
    } else if !IsEmptyRule(key) && key !in seenRules {
      seenRules' := seenRules + {key};
      result' := result + [key];
    }
  }

  // The inner loop: the blocks of one file, one after the other.
  method AddBlocks(seenRules: set<string>, seenImports: set<string>, result: seq<string>, blocks: seq<Block>, ghost es: seq<Entry>)
    returns (seenRules': set<string>, seenImports': set<string>, result': seq<string>)
    requires seenRules == Seen(es, false) && seenImports == Seen(es, true) && result == Kept(es)
    ensures seenRules' == Seen(es + Entries(blocks), false) && seenImports' == Seen(es + Entries(blocks), true)
    ensures result' == Kept(es + Entries(blocks))
  {
    seenRules', seenImports', result' := seenRules, seenImports, result;
    assert es + Entries(blocks[..0]) == es;
    for k := 0 to |blocks|
      invariant seenRules' == Seen(es + Entries(blocks[..k]), false) && seenImports' == Seen(es + Entries(blocks[..k]), true)
      invariant result' == Kept(es + Entries(blocks[..k]))
    {
      EntriesStep(blocks, k);
      assert es + Entries(blocks[..k + 1]) == (es + Entries(blocks[..k])) + [EntryOf(blocks[k])];
      seenRules', seenImports', result' := AddBlock(seenRules', seenImports', result', blocks[k], es + Entries(blocks[..k]));
    }
    assert blocks[..|blocks|] == blocks;
  }

  // The three registries after the blocks of the given files.
  predicate Tracks(contents: seq<string>, seenRules: set<string>, seenImports: set<string>, result: seq<string>) {
    var es := Entries(AllBlocks(contents));
    seenRules == Seen(es, false) && seenImports == Seen(es, true) && result == Kept(es)
  }

  // The body of the outer loop for a readable file: parse it and add its blocks.
  method AddFile(seenRules: set<string>, seenImports: set<string>, result: seq<string>, content: string, ghost contents: seq<string>)
    returns (seenRules': set<string>, seenImports': set<string>, result': seq<string>)
    requires Tracks(contents, seenRules, seenImports, result)
    ensures Tracks(contents + [content], seenRules', seenImports', result')
  {
    var blocks := ParseCss(content);
    seenRules', seenImports', result' := AddBlocks(seenRules, seenImports, result, blocks, Entries(AllBlocks(contents)));
    AllBlocksStep(contents, content);
    EntriesAppend(AllBlocks(contents), blocks);
  }

  // `buildAndDedupe(files, outFile)`: the text written, the number of files
  // read, and the number of rules reported.
  method BuildAndDedupe(fs: FileSystem, files: seq<string>) returns (output: string, total: nat, reported: nat)
    ensures output == Output(fs, files)
    ensures total == |Contents(fs, Unique(files))|
    ensures reported == |Kept(Entries(AllBlocks(Contents(fs, Unique(files)))))|
  {
    var seenRules: set<string> := {};
    var seenImports: set<string> := {};
    var result: seq<string> := [];
    var uniqueFiles := Unique(files);
    total := 0;
    ghost var contents: seq<string> := [];
    for i := 0 to |uniqueFiles|
      invariant contents == Contents(fs, uniqueFiles[..i])
      invariant Tracks(contents, seenRules, seenImports, result)
      invariant total == |contents|
    {
      var filePath := uniqueFiles[i];
      ContentsStep(fs, uniqueFiles, i);
      if filePath in fs && fs[filePath].Some? {
        seenRules, seenImports, result := AddFile(seenRules, seenImports, result, fs[filePath].value, contents);
        contents := contents + [fs[filePath].value];
        total := total + 1;
      }
    }
    assert uniqueFiles[..|uniqueFiles|] == uniqueFiles;
    KeptCount(Entries(AllBlocks(contents)));
    reported := |seenRules| + |seenImports|;
    output := Join(result, "\n\n");
  }

  // ---------------------------------------------------------------------
  // A repeated rule that is not deduplicated

  // A file holding `.x { color: red; }` twice, with a blank line between,
  // is written out unchanged: the scanner hands both copies over as one
  // block, so there is no second key to drop.
  lemma RepeatedRuleWrittenTwice(path: string, line: string)
    requires line == ".x { color: red; }"
    ensures var content := line + "\n\n" + line;
            Output(map[path := Some(content)], [path]) == content
  {
    var content := line + "\n\n" + line;
    RedRuleParse(line);
    RedRuleNotEmpty(line, content);
    SingleRuleFile(path, content);
  }

  // A file that parses to one non-empty rule holding all of it is written
  // out as it is.
  lemma SingleRuleFile(path: string, content: string)
    requires Parse(content) == [Block(Rule, content)]
    requires Trim(content) == content && content != "" && !IsEmptyRule(content)
    ensures Output(map[path := Some(content)], [path]) == content
  {
    var b := Block(Rule, content);
    SingleFileBlocks(path, content);
    var e := EntryOf(b);
    assert e.key == content && e.counts;
    assert Entries([b]) == [e];
    SingleEntryKept(e);
    assert Kept(Entries(AllBlocks(Contents(map[path := Some(content)], Unique([path]))))) == [content];
  }

  // The blocks read from a build of one readable file are that file's blocks.
  lemma SingleFileBlocks(path: string, content: string)
    ensures AllBlocks(Contents(map[path := Some(content)], Unique([path]))) == Parse(content)
  {
    assert Unique([path]) == [path];
    assert [path][..0] == [];
    assert Contents(map[path := Some(content)], [path]) == [content];
    assert [content][..0] == [];
  }

  // A single entry that takes part is kept.
  lemma SingleEntryKept(e: Entry)
    requires e.counts
    ensures Kept([e]) == [e.key]
  {
    KeptStep([], e);
    assert [] + [e] == [e];
  }

  // The scanner makes one rule block of the doubled rule.
  lemma RedRuleParse(line: string)
    requires line == ".x { color: red; }"
    ensures Parse(line + "\n\n" + line) == [Block(Rule, line + "\n\n" + line)]
  {
    RedRuleChars(line);
    AbsentHead(line, "/*");
    AbsentHead(line, "*/");
    RepeatedOneLineRule(line);
  }

  // The characters of `.x { color: red; }` that the scanner looks at.
  lemma RedRuleChars(line: string)
    requires line == ".x { color: red; }"
    ensures IsTrimmed(line) && '\n' !in line && '{' in line && line[0] == '.'
    ensures '/' !in line && '*' !in line
  {
  }

  // The doubled rule has a body that is not blank.
  lemma RedRuleNotEmpty(line: string, content: string)
    requires line == ".x { color: red; }" && content == line + "\n\n" + line
    ensures Trim(content) == content && content != "" && !IsEmptyRule(content)
  {
    var body := " color: red; ";
    RedRuleParts(line, content);
    EmptyIffBlankBody(".x ", body, "\n\n" + line);
    assert !IsWs(body[1]);
    TrimOfTrimmed(content);
  }

  // The doubled rule cut at its first braces.
  lemma RedRuleParts(line: string, content: string)
    requires line == ".x { color: red; }" && content == line + "\n\n" + line
    ensures content == ".x " + "{" + " color: red; " + "}" + ("\n\n" + line)
    ensures '/' !in content && IsTrimmed(content)
  {
    RedRuleChars(line);
  }
}
