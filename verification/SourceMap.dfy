/** The script shellcheck reads, and the way back from its lines to the taskfile's
    (`Preamble`, `Script` and `findings`, tools/taskshell/main.go). */
module SourceMap {
  import opened Wrappers
  import opened Ordering
  import opened Text
  import opened Templates

  const SHEBANG := "#!/usr/bin/env bash"
  const DIALECT := "# shellcheck shell=bash"
  const ASSIGNMENT := "TASK_TEMPLATE=\"${1:-}\""

  datatype Block = Block(taskfile: string, task: string, line: nat, shell: string)

  /** A line above the block, and the taskfile line it came from: zero for one of the program's own. */
  datatype PreambleLine = PreambleLine(text: string, line: nat)

  /** A multi-line variable the block interpolates. */
  predicate Included(b: Block, vars: Vars, name: string) {
    name in vars && !OneLine(vars[name].value) && Contains(b.shell, "{{." + name + "}}")
  }

  function VariableLines(v: Var, vars: Vars): seq<string> {
    Split(TrimRight(Resolve(v.value, vars)))
  }

  function Numbered(lines: seq<string>, first: nat): (r: seq<PreambleLine>)
    ensures |r| == |lines|
    ensures forall i :: 0 <= i < |lines| ==> r[i] == PreambleLine(lines[i], first + i)
  {
    seq(|lines|, i requires 0 <= i < |lines| => PreambleLine(lines[i], first + i))
  }

  function Declared(name: string, vars: Vars): seq<PreambleLine>
    requires name in vars
  {
    [PreambleLine("# " + name, 0)] + Numbered(VariableLines(vars[name], vars), vars[name].line)
  }

  /** What one variable contributes. */
  function Chunk(b: Block, vars: Vars, name: string): seq<PreambleLine>
    requires name in vars
  {
    if Included(b, vars, name) then Declared(name, vars) else []
  }

  function Chunks(b: Block, vars: Vars, names: seq<string>): (r: seq<seq<PreambleLine>>)
    requires forall name :: name in names ==> name in vars
    ensures |r| == |names|
    ensures forall i :: 0 <= i < |names| ==> r[i] == Chunk(b, vars, names[i])
  {
    seq(|names|, i requires 0 <= i < |names| => Chunk(b, vars, names[i]))
  }

  ghost function Flatten(chunks: seq<seq<PreambleLine>>): seq<PreambleLine> {
    if chunks == [] then [] else Flatten(chunks[..|chunks| - 1]) + chunks[|chunks| - 1]
  }

  function Opening(b: Block, vars: Vars): seq<PreambleLine> {
    [PreambleLine(SHEBANG, 0), PreambleLine(DIALECT, 0)]
    + if Contains(Resolve(b.shell, vars), PLACEHOLDER) then [PreambleLine(ASSIGNMENT, 0)] else []
  }

  ghost function Inherited(b: Block, vars: Vars): seq<PreambleLine> {
    Flatten(Chunks(b, vars, SortedKeys(vars.Keys)))
  }

  ghost function PreambleOf(b: Block, vars: Vars): seq<PreambleLine> {
    Opening(b, vars) + Inherited(b, vars)
  }

  /** The inner loop: the variable's lines, numbered from its declaration. */
  method NumberLines(texts: seq<string>, first: nat) returns (lines: seq<PreambleLine>)
    ensures lines == Numbered(texts, first)
  {
    lines := [];
    var i := 0;
    while i < |texts|
      invariant 0 <= i <= |texts| && |lines| == i
      invariant forall k :: 0 <= k < i ==> lines[k] == PreambleLine(texts[k], first + k)
    {
      lines := lines + [PreambleLine(texts[i], first + i)];
      i := i + 1;
    }
  }

  /** The body of the outer loop. */
  method AddVariable(b: Block, vars: Vars, name: string) returns (lines: seq<PreambleLine>)
    requires name in vars
    ensures lines == Chunk(b, vars, name)
  {
    if OneLine(vars[name].value) || !Contains(b.shell, "{{." + name + "}}") {
      return [];
    }
    var numbered := NumberLines(VariableLines(vars[name], vars), vars[name].line);
    lines := [PreambleLine("# " + name, 0)] + numbered;
  }

  /** The outer loop over the sorted names. */
  method AddVariables(b: Block, vars: Vars, names: seq<string>) returns (lines: seq<PreambleLine>)
    requires forall name :: name in names ==> name in vars
    ensures lines == Flatten(Chunks(b, vars, names))
  {
    lines := [];
    ghost var chunks := Chunks(b, vars, names);
    var n := 0;
    while n < |names|
      invariant 0 <= n <= |names|
      invariant lines == Flatten(chunks[..n])
    {
      var more := AddVariable(b, vars, names[n]);
      assert chunks[..n + 1][..n] == chunks[..n] && chunks[..n + 1][n] == more;
      lines := lines + more;
      n := n + 1;
    }
    assert chunks[..n] == chunks;
  }

  /** `Preamble`. */
  method Preamble(b: Block, vars: Vars) returns (lines: seq<PreambleLine>)
    ensures lines == PreambleOf(b, vars)
  {
    var names := KeysInOrder(vars.Keys);
    var inherited := AddVariables(b, vars, names);
    lines := Opening(b, vars) + inherited;
  }

  function Texts(lines: seq<PreambleLine>): (r: seq<string>)
    ensures |r| == |lines|
    ensures forall i :: 0 <= i < |lines| ==> r[i] == lines[i].text
  {
    seq(|lines|, i requires 0 <= i < |lines| => lines[i].text)
  }

  /** `Script`. */
  ghost function Script(b: Block, vars: Vars): string {
    Join(Texts(PreambleOf(b, vars))) + "\n" + Resolve(b.shell, vars) + "\n"
  }

  // The way back.

  datatype Comment = Comment(file: string, line: nat, column: nat, code: nat)

  datatype Placed = Placed(block: Block, preamble: seq<PreambleLine>)

  datatype Finding = Finding(block: Block, line: int, column: nat, code: nat)

  /** Where `findings` reports a comment on this line of the script. */
  function Reported(b: Block, preamble: seq<PreambleLine>, line: nat): int
    requires line >= 1
  {
    if line <= |preamble| then
      if preamble[line - 1].line == 0 then b.line else preamble[line - 1].line
    else
      b.line + line - |preamble| - 1
  }

  /** The loop of `findings`: every comment on a written file, in shellcheck's order. */
  method Findings(comments: seq<Comment>, written: map<string, Placed>) returns (r: Result<seq<Finding>, string>)
    requires forall i :: 0 <= i < |comments| ==> comments[i].line >= 1
    ensures r.Ok? <==> forall i :: 0 <= i < |comments| ==> comments[i].file in written
    ensures r.Ok? ==> |r.value| == |comments| && forall i :: 0 <= i < |comments| ==>
      var from := written[comments[i].file];
      r.value[i] == Finding(from.block, Reported(from.block, from.preamble, comments[i].line),
                            comments[i].column, comments[i].code)
    ensures r.Err? ==> r.error !in written && exists i :: 0 <= i < |comments| && comments[i].file == r.error
  {
    var found: seq<Finding> := [];
    var i := 0;
    while i < |comments|
      invariant 0 <= i <= |comments| && |found| == i
      invariant forall k :: 0 <= k < i ==> comments[k].file in written
      invariant forall k :: 0 <= k < i ==>
        var from := written[comments[k].file];
        found[k] == Finding(from.block, Reported(from.block, from.preamble, comments[k].line),
                            comments[k].column, comments[k].code)
    {
      var comment := comments[i];
      if comment.file !in written {
        return Err(comment.file);
      }
      var from := written[comment.file];
      var line := from.block.line + comment.line - |from.preamble| - 1;
      if comment.line <= |from.preamble| {
        line := from.preamble[comment.line - 1].line;
        if line == 0 {
          line := from.block.line;
        }
      }
      found := found + [Finding(from.block, line, comment.column, comment.code)];
      i := i + 1;
    }
    r := Ok(found);
  }

  // Lines of the script.

  /** How many lines the texts take up when joined. */
  ghost function Height(texts: seq<string>): nat {
    if texts == [] then 0 else |Split(texts[0])| + Height(texts[1..])
  }

  lemma {:induction false} JoinedHeight(texts: seq<string>)
    requires texts != []
    ensures |Split(Join(texts))| == Height(texts)
    decreases |texts|
  {
    if |texts| > 1 {
      JoinedHeight(texts[1..]);
      SplitAtNewline(texts[0], Join(texts[1..]));
    } else {
      assert texts[1..] == [];
    }
  }

  lemma {:induction false} HeightExactly(texts: seq<string>)
    ensures Height(texts) >= |texts|
    ensures Height(texts) == |texts| <==> forall i :: 0 <= i < |texts| ==> OneLine(texts[i])
    decreases |texts|
  {
    if texts != [] {
      var rest := texts[1..];
      HeightExactly(rest);
      OneLineExactly(texts[0]);
      assert (forall i :: 0 <= i < |texts| ==> OneLine(texts[i]))
          <==> OneLine(texts[0]) && forall i :: 0 <= i < |rest| ==> OneLine(rest[i]) by {
        if forall i :: 0 <= i < |texts| ==> OneLine(texts[i]) {
          forall i | 0 <= i < |rest| ensures OneLine(rest[i]) { assert rest[i] == texts[i + 1]; }
        }
        if OneLine(texts[0]) && forall i :: 0 <= i < |rest| ==> OneLine(rest[i]) {
          forall i | 0 <= i < |texts| ensures OneLine(texts[i]) { if i > 0 { assert rest[i - 1] == texts[i]; } }
        }
      }
    }
  }

  lemma OneLineExactly(s: string)
    ensures |Split(s)| == 1 <==> OneLine(s)
  {
  }

  /** The script is the preamble's lines, then the shell's own, each resolved, then the end. */
  lemma ScriptLines(b: Block, vars: Vars)
    ensures Split(Script(b, vars))
            == Split(Join(Texts(PreambleOf(b, vars)))) + ResolveLines(Split(b.shell), vars) + [""]
  {
    var head, shell := Join(Texts(PreambleOf(b, vars))), Resolve(b.shell, vars);
    SplitAtNewline(head + "\n" + shell, "");
    assert Script(b, vars) == (head + "\n" + shell) + "\n" + "";
    SplitAtNewline(head, shell);
    ResolveLinewise(b.shell, vars);
  }

  /** Every name the preamble mentions is a single line. */
  ghost predicate OneLineNames(b: Block, vars: Vars) {
    forall name :: Included(b, vars, name) ==> OneLine(name)
  }

  ghost predicate AllOneLine(lines: seq<PreambleLine>) {
    forall i :: 0 <= i < |lines| ==> OneLine(lines[i].text)
  }

  lemma AllOneLineAppend(x: seq<PreambleLine>, y: seq<PreambleLine>)
    ensures AllOneLine(x + y) <==> AllOneLine(x) && AllOneLine(y)
  {
    var z := x + y;
    if AllOneLine(z) {
      forall i | 0 <= i < |x| ensures OneLine(x[i].text) { assert z[i] == x[i]; }
      forall i | 0 <= i < |y| ensures OneLine(y[i].text) { assert z[|x| + i] == y[i]; }
    }
  }

  lemma {:induction false} FlattenOneLine(chunks: seq<seq<PreambleLine>>)
    ensures AllOneLine(Flatten(chunks)) <==> forall c :: 0 <= c < |chunks| ==> AllOneLine(chunks[c])
    decreases |chunks|
  {
    if chunks != [] {
      var n := |chunks| - 1;
      var before := chunks[..n];
      FlattenOneLine(before);
      AllOneLineAppend(Flatten(before), chunks[n]);
      assert chunks == before + [chunks[n]];
    }
  }

  lemma NameLineOneLine(name: string)
    ensures OneLine("# " + name) <==> OneLine(name)
  {
  }

  lemma NumberedOneLine(texts: seq<string>, first: nat)
    requires forall i :: 0 <= i < |texts| ==> OneLine(texts[i])
    ensures AllOneLine(Numbered(texts, first))
  {
  }

  lemma SingleOneLine(line: PreambleLine)
    ensures AllOneLine([line]) <==> OneLine(line.text)
  {
    assert [line][0] == line;
  }

  lemma DeclaredOneLine(name: string, vars: Vars)
    requires name in vars
    ensures AllOneLine(Declared(name, vars)) <==> OneLine(name)
  {
    var texts := VariableLines(vars[name], vars);
    SplitLinesOneLine(TrimRight(Resolve(vars[name].value, vars)));
    NumberedOneLine(texts, vars[name].line);
    NameLineOneLine(name);
    AllOneLineAppend([PreambleLine("# " + name, 0)], Numbered(texts, vars[name].line));
    SingleOneLine(PreambleLine("# " + name, 0));
  }

  lemma ChunkOneLine(b: Block, vars: Vars, name: string)
    requires name in vars
    ensures AllOneLine(Chunk(b, vars, name)) <==> (Included(b, vars, name) ==> OneLine(name))
  {
    if Included(b, vars, name) { DeclaredOneLine(name, vars); }
  }

  lemma InheritedOneLine(b: Block, vars: Vars)
    ensures AllOneLine(Inherited(b, vars)) <==> OneLineNames(b, vars)
  {
    var names := SortedKeys(vars.Keys);
    var chunks := Chunks(b, vars, names);
    FlattenOneLine(chunks);
    forall c | 0 <= c < |names|
      ensures AllOneLine(chunks[c]) <==> (Included(b, vars, names[c]) ==> OneLine(names[c]))
    {
      ChunkOneLine(b, vars, names[c]);
    }
    NamesCover(b, vars, names);
  }

  lemma NamesCover(b: Block, vars: Vars, names: seq<string>)
    requires forall name :: name in names <==> name in vars
    ensures OneLineNames(b, vars)
            <==> forall c :: 0 <= c < |names| ==> Included(b, vars, names[c]) ==> OneLine(names[c])
  {
  }

  lemma OpeningOneLine(b: Block, vars: Vars)
    ensures AllOneLine(Opening(b, vars))
  {
    assert OneLine(SHEBANG) && OneLine(DIALECT) && OneLine(ASSIGNMENT);
  }

  lemma PreambleHeight(b: Block, vars: Vars)
    ensures |PreambleOf(b, vars)| >= 2
    ensures Height(Texts(PreambleOf(b, vars))) >= |PreambleOf(b, vars)|
    ensures Height(Texts(PreambleOf(b, vars))) == |PreambleOf(b, vars)| <==> OneLineNames(b, vars)
  {
    OpeningOneLine(b, vars);
    InheritedOneLine(b, vars);
    AllOneLineAppend(Opening(b, vars), Inherited(b, vars));
    HeightOfLines(PreambleOf(b, vars));
  }

  lemma HeightOfLines(lines: seq<PreambleLine>)
    ensures Height(Texts(lines)) >= |lines|
    ensures Height(Texts(lines)) == |lines| <==> AllOneLine(lines)
  {
    HeightExactly(Texts(lines));
    assert forall i :: 0 <= i < |lines| ==> Texts(lines)[i] == lines[i].text;
  }

  /** The line of the script, counted from one, that carries line k of the block's shell. */
  ghost function ShellLine(b: Block, vars: Vars, k: nat): nat {
    Height(Texts(PreambleOf(b, vars))) + k + 1
  }

  /** A comment on the script line that carries line k of the shell is reported at that very
      line of the taskfile, exactly when no interpolated multi-line variable's name breaks a line. */
  lemma ShellRoundTrip(b: Block, vars: Vars, k: nat)
    requires k < |Split(b.shell)|
    ensures ShellLine(b, vars, k) <= |Split(Script(b, vars))|
    ensures Split(Script(b, vars))[ShellLine(b, vars, k) - 1] == Resolve(Split(b.shell)[k], vars)
    ensures Reported(b, PreambleOf(b, vars), ShellLine(b, vars, k)) == b.line + k <==> OneLineNames(b, vars)
  {
    var texts := Texts(PreambleOf(b, vars));
    ScriptLines(b, vars);
    JoinedHeight(texts);
    PreambleHeight(b, vars);
  }

  const SPLIT_NAME := "a\nb"

  /** A name that breaks a line puts every line of the shell one too far down. */
  lemma SplitNameMisreports() returns (b: Block, vars: Vars)
    ensures Included(b, vars, SPLIT_NAME)
    ensures Reported(b, PreambleOf(b, vars), ShellLine(b, vars, 0)) != b.line
  {
    var shell := "{{." + SPLIT_NAME + "}}";
    b, vars := Block("Taskfile.yml", "task", 7, shell), map[SPLIT_NAME := Var("x\ny", 1)];
    assert SPLIT_NAME[1] == '\n' && "x\ny"[1] == '\n';
    assert shell[0..|shell|] == shell;
    assert At(b.shell, 0, shell);
    assert Included(b, vars, SPLIT_NAME) && !OneLine(SPLIT_NAME);
    assert !OneLineNames(b, vars);
    hide *;
    ShellRoundTrip(b, vars, 0);
  }

  // Lines of the preamble.

  /** What stands around a chunk of the flattened list. */
  lemma {:induction false} FlattenAround(chunks: seq<seq<PreambleLine>>, c: nat) returns (after: seq<PreambleLine>)
    requires c < |chunks|
    ensures Flatten(chunks) == Flatten(chunks[..c]) + chunks[c] + after
    decreases |chunks|
  {
    var n := |chunks| - 1;
    if c == n {
      after := [];
    } else {
      after := FlattenAround(chunks[..n], c);
      assert chunks[..n][..c] == chunks[..c];
      assert Flatten(chunks) == Flatten(chunks[..c]) + chunks[c] + (after + chunks[n]);
      after := after + chunks[n];
    }
  }

  lemma VariableLineText(v: Var, vars: Vars, i: nat)
    requires i < |VariableLines(v, vars)|
    ensures i < |Split(v.value)| && VariableLines(v, vars)[i] == Resolve(Split(v.value)[i], vars)
    ensures OneLine(VariableLines(v, vars)[i])
  {
    TrimKeepsLines(Resolve(v.value, vars));
    ResolveLinewise(v.value, vars);
    SplitLinesOneLine(TrimRight(Resolve(v.value, vars)));
  }

  /** No included name that sorts before this one breaks a line. */
  ghost predicate OneLineBefore(b: Block, vars: Vars, name: string) {
    forall other :: Included(b, vars, other) && Le(other, name) && other != name ==> OneLine(other)
  }

  /** The preamble around one variable's declaration. */
  lemma PreambleAround(b: Block, vars: Vars, name: string)
    returns (before: seq<PreambleLine>, after: seq<PreambleLine>)
    requires Included(b, vars, name)
    ensures PreambleOf(b, vars) == before + Declared(name, vars) + after
    ensures AllOneLine(before) <==> OneLineBefore(b, vars, name)
  {
    var names := SortedKeys(vars.Keys);
    var chunks := Chunks(b, vars, names);
    var c :| 0 <= c < |names| && names[c] == name;
    after := FlattenAround(chunks, c);
    before := Opening(b, vars) + Flatten(chunks[..c]);
    assert chunks[c] == Declared(name, vars);
    PreambleInTwo(b, vars);
    hide *;
    AroundText(Opening(b, vars), Flatten(chunks[..c]), Declared(name, vars), after);
    OpeningOneLine(b, vars);
    AllOneLineAppend(Opening(b, vars), Flatten(chunks[..c]));
    ChunksOneLine(b, vars, names, c);
    NamesBefore(b, vars, names, c);
  }

  lemma PreambleInTwo(b: Block, vars: Vars)
    ensures PreambleOf(b, vars) == Opening(b, vars) + Flatten(Chunks(b, vars, SortedKeys(vars.Keys)))
  {
  }

  lemma ChunksOneLine(b: Block, vars: Vars, names: seq<string>, c: nat)
    requires c <= |names| && forall name :: name in names ==> name in vars
    ensures AllOneLine(Flatten(Chunks(b, vars, names)[..c]))
            <==> forall k :: 0 <= k < c ==> Included(b, vars, names[k]) ==> OneLine(names[k])
  {
    var chunks := Chunks(b, vars, names);
    hide *;
    FlattenOneLine(chunks[..c]);
    forall k | 0 <= k < c
      ensures AllOneLine(chunks[..c][k]) <==> (Included(b, vars, names[k]) ==> OneLine(names[k]))
    {
      ChunkOneLine(b, vars, names[k]);
    }
  }

  lemma AroundText(x: seq<PreambleLine>, y: seq<PreambleLine>, z: seq<PreambleLine>, w: seq<PreambleLine>)
    ensures x + (y + z + w) == x + y + z + w
  {
  }

  lemma NamesBefore(b: Block, vars: Vars, names: seq<string>, c: nat)
    requires names == SortedKeys(vars.Keys) && c < |names|
    ensures (forall k :: 0 <= k < c ==> Included(b, vars, names[k]) ==> OneLine(names[k]))
            <==> OneLineBefore(b, vars, names[c])
  {
    hide Le, SortedKeys, Included, OneLine;
    SortedKeysSorted(vars.Keys);
    forall k | 0 <= k < |names|
      ensures k < c <==> Le(names[k], names[c]) && names[k] != names[c]
    {
      if k > c && Le(names[k], names[c]) {
        LeAntisymmetric(names[k], names[c]);
      }
    }
    forall other | Included(b, vars, other)
      ensures other in names
    {
      IncludedKnown(b, vars, other);
    }
    if forall k :: 0 <= k < c ==> Included(b, vars, names[k]) ==> OneLine(names[k]) {
      forall other | Included(b, vars, other) && Le(other, names[c]) && other != names[c]
        ensures OneLine(other)
      {
        var k :| 0 <= k < |names| && names[k] == other;
      }
    }
  }

  lemma IncludedKnown(b: Block, vars: Vars, name: string)
    requires Included(b, vars, name)
    ensures name in vars
  {
  }

  /** A text that is one line stands, in the joined text, below the lines of the texts before it. */
  lemma {:induction false} LineAtHeight(texts: seq<string>, p: nat)
    requires p < |texts| && OneLine(texts[p])
    ensures Height(texts[..p]) < |Split(Join(texts))|
    ensures Split(Join(texts))[Height(texts[..p])] == texts[p]
    decreases p
  {
    if p == 0 {
      SplitOneLine(texts[0]);
      if |texts| > 1 { SplitAtNewline(texts[0], Join(texts[1..])); }
    } else {
      LineAtHeight(texts[1..], p - 1);
      SplitAtNewline(texts[0], Join(texts[1..]));
      assert texts[..p][1..] == texts[1..][..p - 1];
    }
  }

  /** A one-line entry of the preamble, and the script line that carries it. */
  lemma EntryOfScript(b: Block, vars: Vars, p: nat) returns (line: nat)
    requires p < |PreambleOf(b, vars)| && OneLine(PreambleOf(b, vars)[p].text)
    ensures p + 1 <= line <= |Split(Script(b, vars))|
    ensures Split(Script(b, vars))[line - 1] == PreambleOf(b, vars)[p].text
    ensures line == p + 1 <==> AllOneLine(PreambleOf(b, vars)[..p])
  {
    hide PreambleOf, Script, AllOneLine;
    var lines := PreambleOf(b, vars);
    ScriptLines(b, vars);
    LineAtHeight(Texts(lines), p);
    assert Texts(lines)[..p] == Texts(lines[..p]);
    HeightOfLines(lines[..p]);
    line := Height(Texts(lines[..p])) + 1;
  }

  /** The script line with line i of a multi-line variable maps to the preamble's entry for that
      very line, and so is reported at line i of the declaration, exactly when neither the
      variable's name nor one declared above it in the preamble breaks a line. */
  lemma VariableRoundTrip(b: Block, vars: Vars, name: string, i: nat) returns (p: nat, line: nat)
    requires Included(b, vars, name) && i < |VariableLines(vars[name], vars)| && vars[name].line >= 1
    ensures p < |PreambleOf(b, vars)| && i < |Split(vars[name].value)|
    ensures PreambleOf(b, vars)[p] == PreambleLine(Resolve(Split(vars[name].value)[i], vars), vars[name].line + i)
    ensures 1 <= line <= |Split(Script(b, vars))| && Split(Script(b, vars))[line - 1] == PreambleOf(b, vars)[p].text
    ensures line == p + 1 <==> OneLine(name) && OneLineBefore(b, vars, name)
    ensures line == p + 1 ==> Reported(b, PreambleOf(b, vars), line) == vars[name].line + i
  {
    hide *;
    IncludedKnown(b, vars, name);
    VariableLineText(vars[name], vars, i);
    p := VariablePlace(b, vars, name, i);
    ReportedWithin(b, PreambleOf(b, vars));
    line := EntryOfScript(b, vars, p);
  }

  lemma VariablePlace(b: Block, vars: Vars, name: string, i: nat) returns (p: nat)
    requires Included(b, vars, name) && name in vars && i < |VariableLines(vars[name], vars)|
    ensures p < |PreambleOf(b, vars)|
    ensures PreambleOf(b, vars)[p] == PreambleLine(VariableLines(vars[name], vars)[i], vars[name].line + i)
    ensures AllOneLine(PreambleOf(b, vars)[..p]) <==> OneLine(name) && OneLineBefore(b, vars, name)
  {
    hide *;
    var before, after := PreambleAround(b, vars, name);
    DeclaredEntry(name, vars, i);
    DeclaredUpTo(name, vars, i);
    EntryBetween(before, Declared(name, vars), after, i + 1);
    AllOneLineAppend(before, Declared(name, vars)[..i + 1]);
    p := |before| + (i + 1);
  }

  lemma ReportedWithin(b: Block, preamble: seq<PreambleLine>)
    ensures forall p: nat :: p < |preamble| && preamble[p].line > 0 ==> Reported(b, preamble, p + 1) == preamble[p].line
  {
  }

  lemma EntryBetween(before: seq<PreambleLine>, declared: seq<PreambleLine>, after: seq<PreambleLine>, k: nat)
    requires k < |declared|
    ensures var lines := before + declared + after;
      |before| + k < |lines| && lines[|before| + k] == declared[k] && lines[..|before| + k] == before + declared[..k]
  {
  }

  lemma DeclaredEntry(name: string, vars: Vars, i: nat)
    requires name in vars && i < |VariableLines(vars[name], vars)|
    ensures i + 1 < |Declared(name, vars)|
    ensures Declared(name, vars)[i + 1] == PreambleLine(VariableLines(vars[name], vars)[i], vars[name].line + i)
  {
    assert Declared(name, vars)[i + 1] == Numbered(VariableLines(vars[name], vars), vars[name].line)[i];
  }

  lemma DeclaredUpTo(name: string, vars: Vars, i: nat)
    requires name in vars && i < |VariableLines(vars[name], vars)|
    ensures i + 1 < |Declared(name, vars)| && (AllOneLine(Declared(name, vars)[..i + 1]) <==> OneLine(name))
  {
    var texts := VariableLines(vars[name], vars);
    SplitLinesOneLine(TrimRight(Resolve(vars[name].value, vars)));
    NameLineOneLine(name);
    var head, body := [PreambleLine("# " + name, 0)], Numbered(texts, vars[name].line);
    NumberedOneLine(texts, vars[name].line);
    assert Declared(name, vars)[..i + 1] == head + body[..i];
    AllOneLineAppend(head, body[..i]);
    SingleOneLine(head[0]);
  }
}
