/** The placeholder of the script and the line that assigns it (`Preamble`, tools/taskshell/main.go):
    when every use stands below its assignment. */
module PlaceholderUse {
  import opened Text
  import opened Templates
  import opened SourceMap

  /** The test the program makes: the block's own shell, resolved, uses the placeholder. */
  predicate ShellUses(b: Block, vars: Vars) {
    Contains(Resolve(b.shell, vars), PLACEHOLDER)
  }

  /** What it does not look at: a variable put above the block uses it, or is called so. */
  ghost predicate InheritedUses(b: Block, vars: Vars) {
    exists name :: Included(b, vars, name) && VariableUses(vars, name)
  }

  ghost predicate VariableUses(vars: Vars, name: string)
    requires name in vars
  {
    Contains(name, PLACEHOLDER) || Contains(Resolve(vars[name].value, vars), PLACEHOLDER)
  }

  /** Every line of the script that uses the placeholder stands below the one that assigns it. */
  ghost predicate AssignedFirst(b: Block, vars: Vars) {
    forall k :: 0 <= k < |Split(Script(b, vars))| && Contains(Split(Script(b, vars))[k], PLACEHOLDER) ==>
      k > 2 && Split(Script(b, vars))[2] == ASSIGNMENT
  }

  // Who uses it.

  lemma PlaceholderShape()
    ensures |PLACEHOLDER| == 16 && PLACEHOLDER[0] == '$' && PLACEHOLDER[2] == 'T'
  {
  }

  lemma LacksPlaceholder(line: string)
    requires forall i :: 0 <= i < |line| - 2 && line[i] == '$' ==> line[i + 2] != 'T'
    ensures !Contains(line, PLACEHOLDER)
  {
    PlaceholderShape();
    hide PLACEHOLDER;
    forall i | 0 <= i <= |line| - |PLACEHOLDER|
      ensures !At(line, i, PLACEHOLDER)
    {
      var window := line[i..i + |PLACEHOLDER|];
      assert window[0] == line[i] && window[2] == line[i + 2];
    }
  }

  lemma ShebangLacks()
    ensures !Contains(SHEBANG, PLACEHOLDER)
  {
    hide Contains, PLACEHOLDER;
    LacksPlaceholder(SHEBANG);
  }

  lemma DialectLacks()
    ensures !Contains(DIALECT, PLACEHOLDER)
  {
    hide Contains, PLACEHOLDER;
    LacksPlaceholder(DIALECT);
  }

  lemma AssignmentLacks()
    ensures !Contains(ASSIGNMENT, PLACEHOLDER)
  {
    hide Contains, PLACEHOLDER;
    LacksPlaceholder(ASSIGNMENT);
  }

  lemma PlaceholderPlain()
    ensures OneLine(PLACEHOLDER) && PLACEHOLDER != ""
  {
  }

  lemma {:induction false} FlattenMember(chunks: seq<seq<PreambleLine>>, line: PreambleLine)
    ensures line in Flatten(chunks) <==> exists c :: 0 <= c < |chunks| && line in chunks[c]
    decreases |chunks|
  {
    if chunks != [] {
      var n := |chunks| - 1;
      FlattenMember(chunks[..n], line);
      assert forall c :: 0 <= c < n ==> chunks[..n][c] == chunks[c];
    }
  }

  lemma NameLineUses(name: string)
    ensures Contains("# " + name, PLACEHOLDER) <==> Contains(name, PLACEHOLDER)
  {
    var line := "# " + name;
    if i :| 0 <= i <= |line| - |PLACEHOLDER| && At(line, i, PLACEHOLDER) {
      assert line[i..i + |PLACEHOLDER|][0] == line[i] && PLACEHOLDER[0] == '$';
      assert name[i - 2..i - 2 + |PLACEHOLDER|] == line[i..i + |PLACEHOLDER|];
      assert At(name, i - 2, PLACEHOLDER);
    }
    if Contains(name, PLACEHOLDER) {
      ContainsWithin("# ", name, "", PLACEHOLDER);
      assert "# " + name + "" == line;
    }
  }

  lemma NumberedUses(texts: seq<string>, first: nat)
    ensures (exists line :: line in Numbered(texts, first) && Contains(line.text, PLACEHOLDER))
            <==> exists i :: 0 <= i < |texts| && Contains(texts[i], PLACEHOLDER)
  {
    hide Contains, PLACEHOLDER;
    if i :| 0 <= i < |texts| && Contains(texts[i], PLACEHOLDER) {
      assert Numbered(texts, first)[i] in Numbered(texts, first);
    }
  }

  /** A variable's lines use the placeholder exactly when the variable does. */
  lemma DeclaredUses(name: string, vars: Vars)
    requires name in vars
    ensures (exists line :: line in Declared(name, vars) && Contains(line.text, PLACEHOLDER)) <==> VariableUses(vars, name)
  {
    var resolved := Resolve(vars[name].value, vars);
    var texts, first := VariableLines(vars[name], vars), vars[name].line;
    PlaceholderPlain();
    LineHolds(TrimRight(resolved), PLACEHOLDER);
    TrimHolds(resolved, PLACEHOLDER);
    assert texts == Split(TrimRight(resolved));
    assert Declared(name, vars) == [PreambleLine("# " + name, 0)] + Numbered(texts, first);
    hide Contains, PLACEHOLDER, Resolve, Declared, VariableLines, Numbered, Split, TrimRight;
    NameLineUses(name);
    NumberedUses(texts, first);
    HeadOrBody(PreambleLine("# " + name, 0), Numbered(texts, first));
  }

  lemma HeadOrBody(head: PreambleLine, body: seq<PreambleLine>)
    ensures (exists line :: line in [head] + body && Contains(line.text, PLACEHOLDER))
            <==> Contains(head.text, PLACEHOLDER) || exists line :: line in body && Contains(line.text, PLACEHOLDER)
  {
    hide Contains, PLACEHOLDER;
    assert forall line :: line in [head] + body <==> line == head || line in body;
    assert head in [head] + body;
  }

  /** Some line of the preamble uses the placeholder exactly when an inherited variable does. */
  lemma PreambleUses(b: Block, vars: Vars)
    ensures (exists line :: line in PreambleOf(b, vars) && Contains(line.text, PLACEHOLDER)) <==> InheritedUses(b, vars)
  {
    hide Contains, PLACEHOLDER, VariableUses, Declared, Opening, Resolve;
    if line :| line in PreambleOf(b, vars) && Contains(line.text, PLACEHOLDER) {
      var name := InheritedFrom(b, vars, line);
      DeclaredUses(name, vars);
    }
    if name :| Included(b, vars, name) && VariableUses(vars, name) {
      DeclaredUses(name, vars);
      var line :| line in Declared(name, vars) && Contains(line.text, PLACEHOLDER);
      var before, after := PreambleAround(b, vars, name);
      assert line in before + Declared(name, vars) + after;
    }
  }

  lemma InheritedFrom(b: Block, vars: Vars, line: PreambleLine) returns (name: string)
    requires line in PreambleOf(b, vars) && Contains(line.text, PLACEHOLDER)
    ensures Included(b, vars, name) && line in Declared(name, vars)
  {
    hide Contains, PLACEHOLDER, Declared, Opening, Resolve;
    OpeningShape(b, vars);
    var chunks := Chunks(b, vars, Ordering.SortedKeys(vars.Keys));
    FlattenMember(chunks, line);
    var c :| 0 <= c < |chunks| && line in chunks[c];
    name := Ordering.SortedKeys(vars.Keys)[c];
  }

  lemma OpeningShape(b: Block, vars: Vars)
    ensures 2 <= |Opening(b, vars)| <= 3
    ensures |Opening(b, vars)| == 3 <==> Contains(Resolve(b.shell, vars), PLACEHOLDER)
    ensures |Opening(b, vars)| == 3 ==> Opening(b, vars)[2].text == ASSIGNMENT
    ensures forall i :: 0 <= i < |Opening(b, vars)| ==> !Contains(Opening(b, vars)[i].text, PLACEHOLDER)
  {
    ShebangLacks();
    DialectLacks();
    AssignmentLacks();
    hide Contains, PLACEHOLDER, SHEBANG, DIALECT, ASSIGNMENT, Resolve;
  }

  lemma AssignmentThird(b: Block, vars: Vars)
    requires Contains(Resolve(b.shell, vars), PLACEHOLDER)
    ensures |PreambleOf(b, vars)| > 2 && PreambleOf(b, vars)[2].text == ASSIGNMENT
    ensures forall i :: 0 <= i <= 2 ==> !Contains(PreambleOf(b, vars)[i].text, PLACEHOLDER)
  {
    hide Contains, Opening, Inherited, PLACEHOLDER, ASSIGNMENT, Resolve;
    OpeningShape(b, vars);
    var opening := Opening(b, vars);
    assert forall i :: 0 <= i < |opening| ==> PreambleOf(b, vars)[i] == opening[i];
  }

  // The three parts of the script.

  /** The script's opening lines are the preamble's. */
  lemma OpeningOfScript(b: Block, vars: Vars, p: nat)
    requires p < |Opening(b, vars)|
    ensures p < |Split(Script(b, vars))| && p < |PreambleOf(b, vars)|
    ensures Split(Script(b, vars))[p] == PreambleOf(b, vars)[p].text
  {
    OpeningOneLine(b, vars);
    var opening := Opening(b, vars);
    assert PreambleOf(b, vars)[p] == opening[p] && PreambleOf(b, vars)[..p] == opening[..p];
    hide Script, PreambleOf, Opening, OneLine;
    assert AllOneLine(opening[..p]);
    var line := EntryOfScript(b, vars, p);
  }

  /** Some line of the script uses it exactly when the shell or the preamble does. */
  lemma ScriptUses(b: Block, vars: Vars)
    ensures (exists k :: 0 <= k < |Split(Script(b, vars))| && Contains(Split(Script(b, vars))[k], PLACEHOLDER))
            <==> ShellUses(b, vars) || InheritedUses(b, vars)
  {
    PlaceholderPlain();
    hide Contains, PLACEHOLDER, Resolve, Split, PreambleOf, Join;
    var texts, shell := Texts(PreambleOf(b, vars)), Resolve(b.shell, vars);
    PreambleNotEmpty(b, vars);
    PreambleUses(b, vars);
    TextHolds(texts, PLACEHOLDER);
    LineHolds(Script(b, vars), PLACEHOLDER);
    TextHolds([Join(texts), shell, ""], PLACEHOLDER);
    ThreeParts(texts, shell);
    EmptyLacks();
    TextsHold(PreambleOf(b, vars));
    var parts := [Join(texts), shell, ""];
    assert parts[0] == Join(texts) && parts[1] == shell && parts[2] == "";
  }

  lemma PreambleNotEmpty(b: Block, vars: Vars)
    ensures PreambleOf(b, vars) != []
  {
  }

  lemma ThreeParts(texts: seq<string>, shell: string)
    ensures Join([Join(texts), shell, ""]) == Join(texts) + "\n" + shell + "\n"
  {
    var parts := [Join(texts), shell, ""];
    assert parts[1..] == [shell, ""] && parts[1..][1..] == [""];
    assert Join([shell, ""]) == shell + "\n" + "";
    assert Join(texts) + "\n" + (shell + "\n" + "") == Join(texts) + "\n" + shell + "\n";
  }

  lemma EmptyLacks()
    ensures !Contains("", PLACEHOLDER)
  {
  }

  lemma TextsHold(lines: seq<PreambleLine>)
    ensures (exists line :: line in lines && Contains(line.text, PLACEHOLDER))
            <==> exists i :: 0 <= i < |Texts(lines)| && Contains(Texts(lines)[i], PLACEHOLDER)
  {
    hide Contains, PLACEHOLDER;
    if line :| line in lines && Contains(line.text, PLACEHOLDER) {
      var i :| 0 <= i < |lines| && lines[i] == line;
      assert Texts(lines)[i] == line.text;
    }
    if i :| 0 <= i < |Texts(lines)| && Contains(Texts(lines)[i], PLACEHOLDER) {
      assert lines[i] in lines;
    }
  }

  // Without the assignment.

  lemma FirstOfSplit(s: string)
    requires s != "" && s[0] != '\n'
    ensures Split(s)[0] != "" && Split(s)[0][0] == s[0]
  {
  }

  /** The first variable's name line heads what is inherited. */
  lemma {:induction false} FlattenHead(chunks: seq<seq<PreambleLine>>)
    requires forall c :: 0 <= c < |chunks| ==> chunks[c] == [] || (chunks[c][0].text != "" && chunks[c][0].text[0] == '#')
    ensures var lines := Flatten(chunks); lines == [] || (lines[0].text != "" && lines[0].text[0] == '#')
    decreases |chunks|
  {
    if chunks != [] {
      FlattenHead(chunks[..|chunks| - 1]);
    }
  }

  lemma InheritedHead(b: Block, vars: Vars)
    ensures var lines := Inherited(b, vars); lines == [] || (lines[0].text != "" && lines[0].text[0] == '#')
  {
    hide Resolve, Contains, VariableLines, Numbered;
    FlattenHead(Chunks(b, vars, Ordering.SortedKeys(vars.Keys)));
  }

  /** Where the shell does not use the placeholder, the script's third line is no assignment. */
  lemma ThirdLineOther(b: Block, vars: Vars)
    requires !ShellUses(b, vars) && Inherited(b, vars) != []
    ensures |Split(Script(b, vars))| > 2 && Split(Script(b, vars))[2] != ASSIGNMENT
  {
    InheritedHead(b, vars);
    var rest := Texts(Inherited(b, vars));
    var tail := Join(rest) + "\n" + Resolve(b.shell, vars) + "\n";
    FirstOfJoin(rest);
    FirstOfSplit(tail);
    HeadersOneLine();
    hide *;
    ScriptFromThird(b, vars);
    BelowTwo(SHEBANG, DIALECT, tail);
  }

  lemma BelowTwo(x: string, y: string, tail: string)
    requires OneLine(x) && OneLine(y)
    ensures Split(x + "\n" + (y + "\n" + tail)) == [x, y] + Split(tail)
  {
    hide *;
    SplitAtNewline(x, y + "\n" + tail);
    SplitAtNewline(y, tail);
    SplitOneLine(x);
    SplitOneLine(y);
    assert [x] + ([y] + Split(tail)) == [x, y] + Split(tail);
  }

  lemma HeadersOneLine()
    ensures OneLine(SHEBANG) && OneLine(DIALECT) && ASSIGNMENT[0] == 'T'
  {
  }

  lemma FirstOfJoin(texts: seq<string>)
    requires texts != [] && texts[0] != ""
    ensures Join(texts) != "" && Join(texts)[0] == texts[0][0]
  {
  }

  lemma ScriptFromThird(b: Block, vars: Vars)
    requires !ShellUses(b, vars) && Inherited(b, vars) != []
    ensures Script(b, vars)
            == SHEBANG + "\n" + (DIALECT + "\n" + (Join(Texts(Inherited(b, vars))) + "\n" + Resolve(b.shell, vars) + "\n"))
  {
    var lines, rest := PreambleOf(b, vars), Texts(Inherited(b, vars));
    hide Contains, Resolve, Inherited;
    var texts := Texts(lines);
    assert texts == [SHEBANG, DIALECT] + rest;
    assert texts[1..] == [DIALECT] + rest && texts[1..][1..] == rest;
    JoinTwo(SHEBANG, DIALECT, rest);
    FiveParts(SHEBANG, DIALECT, Join(rest), Resolve(b.shell, vars));
  }

  lemma JoinTwo(x: string, y: string, rest: seq<string>)
    requires rest != []
    ensures Join([x, y] + rest) == x + "\n" + (y + "\n" + Join(rest))
  {
    var texts := [x, y] + rest;
    assert texts[1..] == [y] + rest && texts[1..][1..] == rest;
  }

  lemma FiveParts(x: string, y: string, z: string, w: string)
    ensures x + "\n" + (y + "\n" + z) + "\n" + w + "\n" == x + "\n" + (y + "\n" + (z + "\n" + w + "\n"))
  {
  }

  /** Every use of the placeholder stands below its assignment exactly when the shell, which is
      all the program looks at, uses it, or no variable put above the shell does. */
  lemma AssignedExactly(b: Block, vars: Vars)
    ensures AssignedFirst(b, vars) <==> ShellUses(b, vars) || !InheritedUses(b, vars)
  {
    hide Contains, PLACEHOLDER, Script, Split, Resolve, Inherited, PreambleOf;
    ScriptUses(b, vars);
    if ShellUses(b, vars) {
      AssignmentThird(b, vars);
      OpeningShape(b, vars);
      forall p: nat | p <= 2 {
        OpeningOfScript(b, vars, p);
      }
    } else if InheritedUses(b, vars) {
      InheritedSome(b, vars);
      ThirdLineOther(b, vars);
    }
  }

  lemma InheritedSome(b: Block, vars: Vars)
    requires InheritedUses(b, vars)
    ensures Inherited(b, vars) != []
  {
    hide Contains, PLACEHOLDER, Resolve;
    PreambleUses(b, vars);
    OpeningShape(b, vars);
    var line :| line in PreambleOf(b, vars) && Contains(line.text, PLACEHOLDER);
    hide Opening, Inherited;
    assert line !in Opening(b, vars);
  }

  /** A variable whose name is plain is named by an action of the shell that no pass resolves
      inline, so the shell uses the placeholder. */
  lemma PlainNameUses(b: Block, vars: Vars, name: string)
    requires Included(b, vars, name) && OneLine(name) && '}' !in name
    ensures ShellUses(b, vars)
  {
    var i :| 0 <= i <= |b.shell| - |"{{." + name + "}}"| && At(b.shell, i, "{{." + name + "}}");
    ActionSurvives(b.shell, i, name, vars);
    SecondPassPlaces(FirstPass(b.shell, vars));
  }

  /** So with names that break no line and close no action every use is assigned. */
  lemma AssignedBeforeUse(b: Block, vars: Vars)
    requires forall name :: Included(b, vars, name) ==> OneLine(name) && '}' !in name
    ensures AssignedFirst(b, vars)
  {
    hide Contains, PLACEHOLDER, Resolve, AssignedFirst, ShellUses;
    AssignedExactly(b, vars);
    if name :| Included(b, vars, name) && VariableUses(vars, name) {
      PlainNameUses(b, vars, name);
    }
  }

  // A name with `}}` in it can be included by text that, as an action, names another variable.

  const BRACED_SHELL := "{{.a}}}}"
  const BRACED_VALUE := "y\n{{z}}"

  function BracedVars(): Vars {
    map["a" := Var("x", 1), "a}}" := Var(BRACED_VALUE, 2)]
  }

  lemma BracedShellResolved()
    ensures Resolve(BRACED_SHELL, BracedVars()) == "x}}"
  {
    hide Resolve;
    ResolveVariable("a", "}}", BracedVars());
    assert "{{." + "a" + "}}" + "}}" == BRACED_SHELL;
    ResolvePlain("}}", "", BracedVars());
    ResolveNothing(BracedVars());
    assert "}}" + "" == "}}" && "x" + "}}" == "x}}";
  }

  lemma ResolveNothing(vars: Vars)
    ensures Resolve("", vars) == ""
  {
    assert FirstPass("", vars) == "";
  }

  lemma BracedValueResolved()
    ensures Resolve(BRACED_VALUE, BracedVars()) == "y" + "\n" + PLACEHOLDER
  {
    hide Resolve;
    ResolvePlaced("z", "", BracedVars());
    assert "{{" + "z" + "}}" + "" == "{{z}}";
    ResolveNothing(BracedVars());
    assert Resolve("{{z}}", BracedVars()) == PLACEHOLDER;
    ResolvePlain("y\n", "{{z}}", BracedVars());
    assert "y\n" + "{{z}}" == BRACED_VALUE;
  }

  lemma BracedIncluded(b: Block)
    requires b.shell == BRACED_SHELL
    ensures Included(b, BracedVars(), "a}}")
  {
    assert "{{." + "a}}" + "}}" == BRACED_SHELL;
    assert At(b.shell, 0, BRACED_SHELL);
    assert BRACED_VALUE[1] == '\n';
  }

  lemma BracedUses()
    ensures VariableUses(BracedVars(), "a}}")
  {
    BracedValueResolved();
    PlaceholderHeld("y" + "\n");
  }

  lemma PlaceholderHeld(head: string)
    ensures Contains(head + PLACEHOLDER, PLACEHOLDER)
  {
    hide PLACEHOLDER;
    assert (head + PLACEHOLDER)[|head|..|head| + |PLACEHOLDER|] == PLACEHOLDER;
    assert At(head + PLACEHOLDER, |head|, PLACEHOLDER);
  }

  lemma BracedShellLacks(b: Block)
    requires b.shell == BRACED_SHELL
    ensures !ShellUses(b, BracedVars())
  {
    BracedShellResolved();
    PlaceholderShape();
    hide Resolve, PLACEHOLDER, BRACED_SHELL;
  }

  /** A use of the placeholder that nothing assigns. */
  lemma BracedNameUnassigned() returns (b: Block)
    ensures !AssignedFirst(b, BracedVars())
  {
    b := Block("Taskfile.yml", "task", 1, BRACED_SHELL);
    hide *;
    BracedIncluded(b);
    BracedShellLacks(b);
    BracedUses();
    AssignedExactly(b, BracedVars());
    BracedInherited(b);
  }

  lemma BracedInherited(b: Block)
    requires Included(b, BracedVars(), "a}}") && VariableUses(BracedVars(), "a}}")
    ensures InheritedUses(b, BracedVars())
  {
  }
}
