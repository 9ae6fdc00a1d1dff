/** What stands above the block, line by line (`Preamble`, tools/taskshell/main.go). */
module PreambleBlocks {
  import opened Ordering
  import opened Text
  import opened Templates
  import opened SourceMap

  /** A variable of several lines that the block's shell names. */
  ghost predicate Named(b: Block, vars: Vars, name: string) {
    && name in vars && '\n' in vars[name].value
    && exists i: nat :: Reads(b.shell, i, "{{." + name + "}}")
  }

  predicate Reads(s: string, i: nat, action: string) {
    i + |action| <= |s| && forall k :: 0 <= k < |action| ==> s[i + k] == action[k]
  }

  lemma NamedIncluded(b: Block, vars: Vars, name: string)
    ensures Included(b, vars, name) <==> Named(b, vars, name)
  {
    var action := "{{." + name + "}}";
    if Contains(b.shell, action) {
      var i :| 0 <= i <= |b.shell| - |action| && At(b.shell, i, action);
      var part := b.shell[i..i + |action|];
      assert forall k :: 0 <= k < |action| ==> b.shell[i + k] == part[k];
      assert Reads(b.shell, i, action);
    }
    if i: nat :| Reads(b.shell, i, action) {
      assert b.shell[i..i + |action|] == action;
      assert At(b.shell, i, action);
    }
  }

  /** `t` is `s` without the newlines it ends in. */
  ghost predicate Bare(s: string, t: string) {
    && t <= s && (forall k :: |t| <= k < |s| ==> s[k] == '\n')
    && (t != "" ==> t[|t| - 1] != '\n')
  }

  lemma {:induction false} TrimBare(s: string)
    ensures Bare(s, TrimRight(s))
    decreases |s|
  {
    if s != "" && s[|s| - 1] == '\n' { TrimBare(s[..|s| - 1]); }
  }

  /** The lines from `at` to `end` are the variable's: its name, then the lines of its resolved
      value, numbered from its declaration. */
  ghost predicate BlockAt(lines: seq<PreambleLine>, at: nat, end: nat, name: string, vars: Vars)
    requires name in vars
  {
    exists text :: Bare(Resolve(vars[name].value, vars), text) && BlockOf(lines, at, end, name, vars, text)
  }

  ghost predicate BlockOf(lines: seq<PreambleLine>, at: nat, end: nat, name: string, vars: Vars, text: string)
    requires name in vars
  {
    && end == at + 1 + |Split(text)| <= |lines|
    && lines[at] == PreambleLine("# " + name, 0)
    && forall i :: 0 <= i < |Split(text)| ==> lines[at + 1 + i] == PreambleLine(Split(text)[i], vars[name].line + i)
  }

  /** One block after the other, from `starts[0]` to the end. */
  ghost predicate InBlocks(lines: seq<PreambleLine>, names: seq<string>, starts: seq<nat>, vars: Vars) {
    && |starts| == |names| + 1 && starts[|names|] == |lines|
    && forall c :: 0 <= c < |names| ==> names[c] in vars && BlockAt(lines, starts[c], starts[c + 1], names[c], vars)
  }

  ghost predicate Increasing(names: seq<string>) {
    forall c, d :: 0 <= c < d < |names| ==> Smaller(names[c], names[d])
  }

  lemma DeclaredBlock(before: seq<PreambleLine>, name: string, vars: Vars)
    requires name in vars
    ensures var lines := before + Declared(name, vars); BlockAt(lines, |before|, |lines|, name, vars)
  {
    var resolved := Resolve(vars[name].value, vars);
    TrimBare(resolved);
    var text, lines := TrimRight(resolved), before + Declared(name, vars);
    var numbered := Numbered(Split(text), vars[name].line);
    assert Declared(name, vars) == [PreambleLine("# " + name, 0)] + numbered;
    hide Declared, Resolve, TrimRight, Split, Bare;
    forall i | 0 <= i < |Split(text)|
      ensures lines[|before| + 1 + i] == numbered[i]
    {
    }
    assert BlockOf(lines, |before|, |lines|, name, vars, text);
  }

  lemma BlockStays(lines: seq<PreambleLine>, more: seq<PreambleLine>, at: nat, end: nat, name: string, vars: Vars)
    requires name in vars && BlockAt(lines, at, end, name, vars)
    ensures BlockAt(lines + more, at, end, name, vars)
  {
    hide Bare, Resolve, Split;
    var text :| Bare(Resolve(vars[name].value, vars), text) && BlockOf(lines, at, end, name, vars, text);
    assert BlockOf(lines + more, at, end, name, vars, text);
  }

  lemma InBlocksMore(lines: seq<PreambleLine>, names: seq<string>, starts: seq<nat>, name: string, vars: Vars)
    requires InBlocks(lines, names, starts, vars) && name in vars
    ensures var longer := lines + Declared(name, vars); InBlocks(longer, names + [name], starts + [|longer|], vars)
  {
    var longer := lines + Declared(name, vars);
    var names', starts' := names + [name], starts + [|longer|];
    hide Declared, BlockAt;
    DeclaredBlock(lines, name, vars);
    forall c | 0 <= c < |names'|
      ensures names'[c] in vars && BlockAt(longer, starts'[c], starts'[c + 1], names'[c], vars)
    {
      if c < |names| { BlockStays(lines, Declared(name, vars), starts[c], starts[c + 1], names[c], vars); }
    }
  }

  /** What the first names of the table contribute. */
  ghost predicate Contributed(
    b: Block, vars: Vars, lines: seq<PreambleLine>, upTo: seq<string>, names: seq<string>, starts: seq<nat>)
  {
    && InBlocks(lines, names, starts, vars) && Increasing(names)
    && forall name :: name in names <==> name in upTo && Included(b, vars, name)
  }

  lemma NoneContributed(b: Block, vars: Vars, head: seq<PreambleLine>)
    ensures Contributed(b, vars, head, [], [], [|head|])
  {
  }

  lemma OneContributed(b: Block, vars: Vars, lines: seq<PreambleLine>, upTo: seq<string>, names: seq<string>,
                       starts: seq<nat>, name: string)
    returns (names': seq<string>, starts': seq<nat>)
    requires Contributed(b, vars, lines, upTo, names, starts) && name in vars
    requires forall x :: x in upTo ==> Smaller(x, name)
    ensures Contributed(b, vars, lines + Chunk(b, vars, name), upTo + [name], names', starts')
    ensures |starts| > 0 && |starts'| > 0 && starts'[0] == starts[0]
  {
    hide Included, Declared, BlockAt, Smaller;
    if Included(b, vars, name) {
      InBlocksMore(lines, names, starts, name, vars);
      hide InBlocks;
      names', starts' := names + [name], starts + [|lines + Declared(name, vars)|];
    } else {
      names', starts' := names, starts;
      assert lines + [] == lines;
    }
  }

  ghost predicate Known(vars: Vars, names: seq<string>) {
    Increasing(names) && forall name :: name in names ==> name in vars
  }

  lemma LastKnown(vars: Vars, names: seq<string>)
    requires Known(vars, names) && names != []
    ensures var n := |names| - 1;
      Known(vars, names[..n]) && names[n] in vars && (forall x :: x in names[..n] ==> Smaller(x, names[n]))
      && names == names[..n] + [names[n]]
  {
    hide Smaller;
    var n := |names| - 1;
    forall x | x in names[..n]
      ensures Smaller(x, names[n])
    {
      var i :| 0 <= i < n && names[..n][i] == x;
    }
  }

  ghost function Above(b: Block, vars: Vars, names: seq<string>): seq<PreambleLine>
    requires Known(vars, names)
  {
    Flatten(Chunks(b, vars, names))
  }

  lemma AboveLast(b: Block, vars: Vars, head: seq<PreambleLine>, names: seq<string>)
    requires Known(vars, names) && names != []
    ensures var n := |names| - 1;
      Known(vars, names[..n]) && names[n] in vars
      && head + Above(b, vars, names) == (head + Above(b, vars, names[..n])) + Chunk(b, vars, names[n])
  {
    var n, chunks := |names| - 1, Chunks(b, vars, names);
    LastKnown(vars, names);
    assert chunks[..n] == Chunks(b, vars, names[..n]);
    hide Chunk, Known;
  }

  lemma {:induction false} BlocksUpTo(b: Block, vars: Vars, head: seq<PreambleLine>, all: seq<string>)
    returns (names: seq<string>, starts: seq<nat>)
    requires Known(vars, all)
    ensures Contributed(b, vars, head + Above(b, vars, all), all, names, starts)
    ensures |starts| > 0 && starts[0] == |head|
    decreases |all|
  {
    if all == [] {
      names, starts := [], [|head|];
      NoneContributed(b, vars, head);
      assert head + Above(b, vars, all) == head;
    } else {
      hide *;
      var n := |all| - 1;
      AboveLast(b, vars, head, all);
      LastKnown(vars, all);
      names, starts := BlocksUpTo(b, vars, head, all[..n]);
      names, starts := OneContributed(b, vars, head + Above(b, vars, all[..n]), all[..n], names, starts, all[n]);
    }
  }

  lemma SortedKnown(vars: Vars)
    ensures Known(vars, SortedKeys(vars.Keys))
  {
    var all := SortedKeys(vars.Keys);
    SortedKeysSorted(vars.Keys);
    hide SortedKeys, Smaller, Le;
    forall c, d | 0 <= c < d < |all|
      ensures Smaller(all[c], all[d])
    {
      LeIsSmaller(all[c], all[d]);
    }
  }

  /** The lines above the block: two of the program's own, the assignment when the resolved shell
      uses the placeholder, and then each variable of several lines the shell names, in the order
      of their names, with nothing between them and nothing after. */
  lemma PreambleExactly(b: Block, vars: Vars) returns (names: seq<string>, starts: seq<nat>)
    ensures var lines := PreambleOf(b, vars);
      && |lines| >= 2 && lines[0] == PreambleLine("#!/usr/bin/env bash", 0)
      && lines[1] == PreambleLine("# shellcheck shell=bash", 0)
      && InBlocks(lines, names, starts, vars)
      && if Contains(Resolve(b.shell, vars), "${TASK_TEMPLATE}")
         then starts[0] == 3 && |lines| > 2 && lines[2] == PreambleLine("TASK_TEMPLATE=\"${1:-}\"", 0) else starts[0] == 2
    ensures Increasing(names)
    ensures forall name :: name in names <==> Named(b, vars, name)
  {
    names, starts := PreambleContributed(b, vars);
    forall name
      ensures Included(b, vars, name) <==> Named(b, vars, name)
    {
      NamedIncluded(b, vars, name);
    }
    OpeningExactly(b, vars);
    IncludedSorted(b, vars);
    OpeningFirst(b, vars);
    hide *;
    ContributedMeans(b, vars, PreambleOf(b, vars), SortedKeys(vars.Keys), names, starts);
  }

  lemma OpeningFirst(b: Block, vars: Vars)
    ensures Opening(b, vars) <= PreambleOf(b, vars)
  {
  }

  lemma IncludedSorted(b: Block, vars: Vars)
    ensures forall name :: Included(b, vars, name) ==> name in SortedKeys(vars.Keys)
  {
    hide OneLine, Contains;
  }

  lemma ContributedMeans(b: Block, vars: Vars, lines: seq<PreambleLine>, upTo: seq<string>, names: seq<string>,
                         starts: seq<nat>)
    requires Contributed(b, vars, lines, upTo, names, starts)
    ensures InBlocks(lines, names, starts, vars) && Increasing(names) && |starts| > 0
    ensures forall name :: name in names <==> name in upTo && Included(b, vars, name)
  {
  }

  lemma PreambleContributed(b: Block, vars: Vars) returns (names: seq<string>, starts: seq<nat>)
    ensures Contributed(b, vars, PreambleOf(b, vars), SortedKeys(vars.Keys), names, starts)
    ensures |starts| > 0 && starts[0] == |Opening(b, vars)|
  {
    var all := SortedKeys(vars.Keys);
    SortedKnown(vars);
    assert PreambleOf(b, vars) == Opening(b, vars) + Above(b, vars, all);
    hide *;
    names, starts := BlocksUpTo(b, vars, Opening(b, vars), all);
  }

  lemma OpeningExactly(b: Block, vars: Vars)
    ensures var lines := Opening(b, vars);
      && |lines| >= 2 && lines[0] == PreambleLine("#!/usr/bin/env bash", 0)
      && lines[1] == PreambleLine("# shellcheck shell=bash", 0)
      && if Contains(Resolve(b.shell, vars), "${TASK_TEMPLATE}")
         then |lines| == 3 && lines[2] == PreambleLine("TASK_TEMPLATE=\"${1:-}\"", 0) else |lines| == 2
  {
    hide Resolve, Contains;
  }

  /** The program's own lines are reported at the block, the others where they were written. */
  lemma OwnAtBlock(b: Block, vars: Vars, p: nat)
    requires p < |PreambleOf(b, vars)|
    ensures PreambleOf(b, vars)[p].line == 0 ==> Reported(b, PreambleOf(b, vars), p + 1) == b.line
    ensures PreambleOf(b, vars)[p].line > 0 ==> Reported(b, PreambleOf(b, vars), p + 1) == PreambleOf(b, vars)[p].line
  {
  }
}
