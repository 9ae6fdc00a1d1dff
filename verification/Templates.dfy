/** Template resolution (tools/taskshell/main.go): two passes that replace every action
    `{{...}}` of a shell scalar without moving a line. */
module Templates {
  import opened Wrappers
  import opened Text

  /** How much of `s` reaches to the end of its first `}}`, if one comes before a newline. */
  function CloseLen(s: string): (r: Option<nat>)
    ensures r.Some? ==> 2 <= r.value <= |s|
  {
    if |s| < 2 || s[0] == '\n' then None
    else if s[0] == '}' && s[1] == '}' then Some(2)
    else match CloseLen(s[1..])
      case None => None
      case Some(n) => Some(n + 1)
  }

  /** The length of the action `s` starts with: `{{`, the shortest stretch of one line, `}}`. */
  function ActionLen(s: string): (r: Option<nat>)
    ensures r.Some? ==> 4 <= r.value <= |s|
  {
    if |s| < 2 || s[0] != '{' || s[1] != '{' then None
    else match CloseLen(s[2..])
      case None => None
      case Some(n) => Some(n + 2)
  }

  predicate Letter(c: char) {
    'a' <= c <= 'z' || 'A' <= c <= 'Z' || c == '_'
  }

  predicate Identifier(s: string) {
    s != "" && Letter(s[0]) && forall i :: 0 <= i < |s| ==> Letter(s[i]) || '0' <= s[i] <= '9'
  }

  /** `simpleReference`: an action that is nothing but a variable. */
  predicate SimpleReference(action: string) {
    |action| > 5 && action[..3] == "{{." && action[|action| - 2..] == "}}" && Identifier(action[3..|action| - 2])
  }

  datatype Var = Var(value: string, line: nat)

  type Vars = map<string, Var>

  const PLACEHOLDER: string := "${TASK_TEMPLATE}"

  /** What the first pass puts for an action: a one-line variable's value, or the action itself. */
  function Substitute(vars: Vars, action: string): string {
    if !SimpleReference(action) then action
    else
      var name := action[3..|action| - 2];
      if name !in vars || !OneLine(vars[name].value) then action else vars[name].value
  }

  /** What a pass puts for an action. */
  type Pass = string -> string

  function Substituting(vars: Vars): Pass {
    action => Substitute(vars, action)
  }

  function Placing(): Pass {
    action => PLACEHOLDER
  }

  /** How much of a text one step of the replacement consumes. */
  function Taken(s: string): (n: nat)
    requires s != ""
    ensures 1 <= n <= |s|
  {
    if ActionLen(s).Some? then ActionLen(s).value else 1
  }

  function Head(s: string, pass: Pass): string
    requires s != ""
  {
    if ActionLen(s).Some? then pass(s[..Taken(s)]) else [s[0]]
  }

  /** `ReplaceAllStringFunc` with the action pattern: matches from the left, none overlapping. */
  function ReplaceAll(s: string, pass: Pass): string
    decreases |s|
  {
    if s == "" then "" else Head(s, pass) + ReplaceAll(s[Taken(s)..], pass)
  }

  function FirstPass(s: string, vars: Vars): string {
    ReplaceAll(s, Substituting(vars))
  }

  function SecondPass(s: string): string {
    ReplaceAll(s, Placing())
  }

  /** `Resolve`. */
  function Resolve(shell: string, vars: Vars): string {
    SecondPass(FirstPass(shell, vars))
  }

  // No action is left.

  predicate Clean(s: string) {
    s == "" || (ActionLen(s).None? && Clean(s[1..]))
  }

  predicate PairAt(s: string, i: int, c: char) {
    0 <= i <= |s| - 2 && s[i] == c && s[i + 1] == c
  }

  predicate SameLine(s: string, i: nat, j: nat)
    requires j <= |s|
  {
    forall k :: i <= k < j ==> s[k] != '\n'
  }

  /** An action somewhere on a line, said with positions. */
  predicate ActionAt(s: string, i: nat, j: nat) {
    i + 2 <= j && PairAt(s, i, '{') && PairAt(s, j, '}') && SameLine(s, i, j)
  }

  /** The first `}}` of the line: where `CloseLen` stops. */
  ghost predicate ClosesAt(s: string, j: nat) {
    PairAt(s, j, '}') && SameLine(s, 0, j)
  }

  lemma {:induction false} CloseIsFirst(s: string)
    ensures CloseLen(s).Some? ==> ClosesAt(s, CloseLen(s).value - 2)
    ensures forall j: nat :: ClosesAt(s, j) ==> CloseLen(s).Some? && CloseLen(s).value - 2 <= j
    decreases |s|
  {
    if |s| >= 2 && s[0] != '\n' && !PairAt(s, 0, '}') {
      var rest := s[1..];
      CloseIsFirst(rest);
      if CloseLen(rest).Some? {
        var j := CloseLen(rest).value - 2;
        assert rest[j] == s[j + 1] && rest[j + 1] == s[j + 2];
        assert forall k :: 1 <= k < j + 1 ==> s[k] == rest[k - 1];
      }
      forall j: nat | ClosesAt(s, j)
        ensures CloseLen(s).Some? && CloseLen(s).value - 2 <= j
      {
        assert rest[j - 1] == s[j] && rest[j] == s[j + 1];
        assert forall k :: 0 <= k < j - 1 ==> rest[k] == s[k + 1];
        assert ClosesAt(rest, j - 1);
      }
    }
  }

  lemma ActionHere(s: string)
    ensures ActionLen(s).Some? <==> exists j: nat :: ActionAt(s, 0, j)
  {
    if |s| >= 2 {
      var tail := s[2..];
      CloseIsFirst(tail);
      if ActionLen(s).Some? {
        var j := CloseLen(tail).value - 2;
        assert tail[j] == s[j + 2] && tail[j + 1] == s[j + 3];
        assert forall k :: 2 <= k < j + 2 ==> s[k] == tail[k - 2];
        assert ActionAt(s, 0, j + 2);
      }
      if j: nat :| ActionAt(s, 0, j) {
        assert tail[j - 2] == s[j] && tail[j - 1] == s[j + 1];
        assert forall k :: 0 <= k < j - 2 ==> tail[k] == s[k + 2];
        assert ClosesAt(tail, j - 2);
      }
    }
  }

  lemma ActionLater(s: string, i: nat, j: nat)
    requires s != ""
    ensures ActionAt(s[1..], i, j) <==> ActionAt(s, i + 1, j + 1)
  {
  }

  /** `Clean` is exactly the absence of `{{...}}` on any line. */
  lemma {:induction false} CleanExactly(s: string)
    ensures Clean(s) <==> forall i: nat, j: nat :: !ActionAt(s, i, j)
    decreases |s|
  {
    if s != "" {
      CleanExactly(s[1..]);
      ActionHere(s);
      forall i: nat, j: nat { ActionLater(s, i, j); }
      if i: nat, j: nat :| ActionAt(s, i, j) {
        if i > 0 { assert ActionAt(s[1..], i - 1, j - 1); }
      }
      if i: nat, j: nat :| ActionAt(s[1..], i, j) {
        assert ActionAt(s, i + 1, j + 1);
      }
    }
  }

  lemma OpenRest(s: string)
    requires CloseLen(s).None? && s != "" && s[0] != '\n'
    ensures CloseLen(s[1..]).None? && ActionLen(s).None?
  {
  }

  /** The replacement closes no action that was open. */
  lemma {:induction false} SecondPassKeepsOpen(s: string)
    requires CloseLen(s).None?
    ensures CloseLen(SecondPass(s)).None?
    decreases |s|
  {
    if s != "" && s[0] != '\n' {
      OpenRest(s);
      SecondPassKeepsOpen(s[1..]);
      SecondPassStarts(s[1..]);
      assert SecondPass(s)[1..] == SecondPass(s[1..]);
    }
  }

  lemma SecondPassStarts(s: string)
    ensures SecondPass(s) != "" ==> s != "" && (SecondPass(s)[0] == '$' || (ActionLen(s).None? && SecondPass(s)[0] == s[0]))
  {
  }

  predicate NoBrace(s: string) {
    '{' !in s
  }

  /** Text with no brace pair inside or at its end cannot start an action. */
  predicate NoOpening(a: string) {
    a == "" || ((a[0] == '{' ==> |a| > 1 && a[1] != '{') && NoOpening(a[1..]))
  }

  lemma {:induction false} CleanBehind(a: string, t: string)
    requires NoOpening(a)
    ensures Clean(a + t) <==> Clean(t)
    decreases |a|
  {
    if a == "" {
      assert a + t == t;
    } else {
      CleanBehind(a[1..], t);
      assert (a + t)[1..] == a[1..] + t;
    }
  }

  lemma PlaceholderOpensNothing()
    ensures NoOpening(PLACEHOLDER)
  {
    NothingWithoutBrace("TASK_TEMPLATE}");
    OpensNothingAfter('{', "TASK_TEMPLATE}");
    OpensNothingAfter('$', "{TASK_TEMPLATE}");
  }

  lemma OpensNothingAfter(c: char, a: string)
    requires NoOpening(a) && (c == '{' ==> a != "" && a[0] != '{')
    ensures NoOpening([c] + a)
  {
  }

  lemma {:induction false} NothingWithoutBrace(a: string)
    requires NoBrace(a)
    ensures NoOpening(a)
    decreases |a|
  {
    if a != "" {
      assert a[0] in a;
      NothingWithoutBrace(a[1..]);
    }
  }

  /** A character kept in front of a finished text starts no action there. */
  lemma KeptStartsNothing(s: string)
    requires s != "" && ActionLen(s).None?
    ensures ActionLen(SecondPass(s)).None?
  {
    var rest := SecondPass(s[1..]);
    var whole := SecondPass(s);
    assert whole == [s[0]] + rest;
    SecondPassStarts(s[1..]);
    if s[0] == '{' && rest != "" && rest[0] == '{' {
      assert s[1..][1..] == s[2..];
      SecondPassKeepsOpen(s[2..]);
      assert whole[2..] == SecondPass(s[2..]);
    }
  }

  lemma {:induction false} SecondPassClean(s: string)
    ensures Clean(SecondPass(s))
    decreases |s|
  {
    if s != "" {
      var rest := SecondPass(s[Taken(s)..]);
      SecondPassClean(s[Taken(s)..]);
      if ActionLen(s).Some? {
        PlaceholderOpensNothing();
        CleanBehind(PLACEHOLDER, rest);
      } else {
        KeptStartsNothing(s);
        assert SecondPass(s)[1..] == rest;
      }
    }
  }

  /** `Resolve` leaves no action on any line, even where substituted values join into one. */
  lemma ResolveEliminates(shell: string, vars: Vars)
    ensures Clean(Resolve(shell, vars))
    ensures forall i: nat, j: nat :: !ActionAt(Resolve(shell, vars), i, j)
  {
    SecondPassClean(FirstPass(shell, vars));
    CleanExactly(Resolve(shell, vars));
  }

  lemma {:induction false} CleanUnchanged(s: string, pass: Pass)
    requires Clean(s)
    ensures ReplaceAll(s, pass) == s
    decreases |s|
  {
    if s != "" {
      CleanUnchanged(s[1..], pass);
      assert s == [s[0]] + s[1..];
    }
  }

  /** Resolving again changes nothing, under any variables. */
  lemma ResolveIdempotent(shell: string, vars: Vars, others: Vars)
    ensures Resolve(Resolve(shell, vars), others) == Resolve(shell, vars)
  {
    var done := Resolve(shell, vars);
    ResolveEliminates(shell, vars);
    CleanUnchanged(done, Substituting(others));
    CleanUnchanged(done, Placing());
  }

  // No line moves.

  lemma {:induction false} CloseStopsAtNewline(a: string, b: string)
    ensures CloseLen(a + "\n" + b) == CloseLen(a)
    decreases |a|
  {
    var s := a + "\n" + b;
    if |a| >= 1 && s[0] != '\n' {
      CloseStopsAtNewline(a[1..], b);
      assert s[1..] == a[1..] + "\n" + b;
    }
  }

  lemma ActionStopsAtNewline(a: string, b: string)
    ensures ActionLen(a + "\n" + b) == ActionLen(a)
  {
    if |a| >= 2 {
      CloseStopsAtNewline(a[2..], b);
      assert (a + "\n" + b)[2..] == a[2..] + "\n" + b;
    }
  }

  lemma StepAcrossNewline(a: string, b: string, pass: Pass)
    requires a != ""
    ensures var s, n := a + "\n" + b, Taken(a);
            Taken(s) == n && Head(s, pass) == Head(a, pass) && s[n..] == a[n..] + "\n" + b
  {
    ActionStopsAtNewline(a, b);
    var s, n := a + "\n" + b, Taken(a);
    assert s[..n] == a[..n];
  }

  lemma FourParts(h: string, x: string, nl: string, y: string)
    ensures h + (x + nl + y) == h + x + nl + y
  {
  }

  lemma {:induction false} ReplaceAcrossNewline(a: string, b: string, pass: Pass)
    ensures ReplaceAll(a + "\n" + b, pass) == ReplaceAll(a, pass) + "\n" + ReplaceAll(b, pass)
    decreases |a|
  {
    var s := a + "\n" + b;
    if a == "" {
      assert s[1..] == b;
    } else {
      var n, rest := Taken(a), a[Taken(a)..];
      StepAcrossNewline(a, b, pass);
      ReplaceAcrossNewline(rest, b, pass);
      assert ReplaceAll(s, pass) == Head(a, pass) + ReplaceAll(rest + "\n" + b, pass);
      FourParts(Head(a, pass), ReplaceAll(rest, pass), "\n", ReplaceAll(b, pass));
    }
  }

  lemma ResolveAcrossNewline(a: string, b: string, vars: Vars)
    ensures Resolve(a + "\n" + b, vars) == Resolve(a, vars) + "\n" + Resolve(b, vars)
  {
    ReplaceAcrossNewline(a, b, Substituting(vars));
    ReplaceAcrossNewline(FirstPass(a, vars), FirstPass(b, vars), Placing());
  }

  lemma {:induction false} ReplaceOneLine(s: string, pass: Pass)
    requires OneLine(s)
    requires forall a :: OneLine(a) ==> OneLine(pass(a))
    ensures OneLine(ReplaceAll(s, pass))
    decreases |s|
  {
    if s != "" {
      var n := Taken(s);
      assert forall c :: c in s[..n] ==> c in s;
      assert forall c :: c in s[n..] ==> c in s;
      ReplaceOneLine(s[n..], pass);
    }
  }

  lemma ResolveOneLine(s: string, vars: Vars)
    requires OneLine(s)
    ensures OneLine(Resolve(s, vars))
  {
    ReplaceOneLine(s, Substituting(vars));
    ReplaceOneLine(FirstPass(s, vars), Placing());
  }

  function ResolveLines(lines: seq<string>, vars: Vars): (r: seq<string>)
    ensures |r| == |lines|
    ensures forall i :: 0 <= i < |lines| ==> r[i] == Resolve(lines[i], vars)
  {
    seq(|lines|, i requires 0 <= i < |lines| => Resolve(lines[i], vars))
  }

  lemma {:induction false} ResolveJoined(lines: seq<string>, vars: Vars)
    requires lines != []
    ensures Resolve(Join(lines), vars) == Join(ResolveLines(lines, vars))
    decreases |lines|
  {
    if |lines| > 1 {
      ResolveJoined(lines[1..], vars);
      ResolveAcrossNewline(lines[0], Join(lines[1..]), vars);
      assert ResolveLines(lines, vars)[1..] == ResolveLines(lines[1..], vars);
    }
  }

  /** Line k of the result is line k of the input, resolved: there are as many, and none moved. */
  lemma ResolveLinewise(shell: string, vars: Vars)
    ensures Split(Resolve(shell, vars)) == ResolveLines(Split(shell), vars)
  {
    var lines := Split(shell);
    JoinOfSplit(shell);
    ResolveJoined(lines, vars);
    SplitLinesOneLine(shell);
    forall i | 0 <= i < |lines|
      ensures OneLine(ResolveLines(lines, vars)[i])
    {
      ResolveOneLine(lines[i], vars);
    }
    SplitOfJoin(ResolveLines(lines, vars));
  }

  // What an action becomes.

  lemma {:induction false} CloseOfPrefix(s: string, t: string)
    requires CloseLen(s).Some?
    ensures CloseLen(s[..CloseLen(s).value] + t) == CloseLen(s)
    decreases |s|
  {
    var n := CloseLen(s).value;
    if n > 2 {
      CloseOfPrefix(s[1..], t);
      assert (s[..n] + t)[1..] == s[1..][..n - 1] + t;
    }
  }

  lemma ActionOfPrefix(s: string, t: string)
    requires ActionLen(s).Some?
    ensures ActionLen(s[..ActionLen(s).value] + t) == ActionLen(s)
  {
    var n := ActionLen(s).value;
    CloseOfPrefix(s[2..], t);
    assert (s[..n] + t)[2..] == s[2..][..n - 2] + t;
  }

  lemma StepPlain(a: string, t: string, pass: Pass)
    requires NoOpening(a) && a != ""
    ensures Taken(a + t) == 1 && Head(a + t, pass) == [a[0]] && (a + t)[1..] == a[1..] + t
  {
    assert (a + t)[0] == a[0] && (|a| > 1 ==> (a + t)[1] == a[1]);
    assert ActionLen(a + t).None?;
    hide ActionLen, NoOpening;
  }

  lemma {:induction false} PlainAhead(a: string, t: string, pass: Pass)
    requires NoOpening(a)
    ensures ReplaceAll(a + t, pass) == a + ReplaceAll(t, pass)
    decreases |a|
  {
    if a == "" {
      assert a + t == t;
    } else {
      StepPlain(a, t, pass);
      PlainAhead(a[1..], t, pass);
      assert ReplaceAll(a + t, pass) == [a[0]] + ReplaceAll(a[1..] + t, pass);
      FirstAndRest(a, ReplaceAll(t, pass));
    }
  }

  lemma FirstAndRest(a: string, x: string)
    requires a != ""
    ensures [a[0]] + (a[1..] + x) == a + x
  {
  }

  lemma {:induction false} OpensNothing(a: string)
    requires forall k :: 0 <= k < |a| && a[k] == '{' ==> k + 1 < |a| && a[k + 1] != '{'
    ensures NoOpening(a)
    decreases |a|
  {
    if a != "" {
      assert forall k :: 0 <= k < |a| - 1 ==> a[1..][k] == a[k + 1];
      OpensNothing(a[1..]);
    }
  }

  /** Text stays when no brace in it is followed by another or by nothing. */
  lemma ResolvePlain(a: string, t: string, vars: Vars)
    requires forall k :: 0 <= k < |a| && a[k] == '{' ==> k + 1 < |a| && a[k + 1] != '{'
    ensures Resolve(a + t, vars) == a + Resolve(t, vars)
  {
    OpensNothing(a);
    PlainAhead(a, t, Substituting(vars));
    PlainAhead(a, FirstPass(t, vars), Placing());
  }

  /** `{{` and `}}` around one line in which no `}}` ends earlier. */
  lemma ActionAround(body: string, t: string)
    requires forall k :: 0 <= k < |body| ==> body[k] != '\n'
    requires forall k :: 0 <= k < |body| && body[k] == '}' ==> k + 1 < |body| && body[k + 1] != '}'
    ensures ActionLen("{{" + body + "}}" + t) == Some(|body| + 4)
  {
    var s := "{{" + body + "}}" + t;
    CloseAround(body, t);
    assert s[2..] == body + "}}" + t;
  }

  lemma {:induction false} CloseAround(body: string, t: string)
    requires forall k :: 0 <= k < |body| ==> body[k] != '\n'
    requires forall k :: 0 <= k < |body| && body[k] == '}' ==> k + 1 < |body| && body[k + 1] != '}'
    ensures CloseLen(body + "}}" + t) == Some(|body| + 2)
    decreases |body|
  {
    var s := body + "}}" + t;
    if body != "" {
      assert forall k :: 0 <= k < |body| - 1 ==> body[1..][k] == body[k + 1];
      CloseAround(body[1..], t);
      assert s[1..] == body[1..] + "}}" + t;
      assert s[0] == body[0] && (|body| > 1 ==> s[1] == body[1]);
    }
  }

  /** A reference to a variable, by a name of letters, digits and underscores that starts with no
      digit, becomes the variable's one-line value if that opens no action. */
  lemma ResolveVariable(name: string, t: string, vars: Vars)
    requires name != "" && ('a' <= name[0] <= 'z' || 'A' <= name[0] <= 'Z' || name[0] == '_')
    requires forall k :: 1 <= k < |name| ==>
      'a' <= name[k] <= 'z' || 'A' <= name[k] <= 'Z' || '0' <= name[k] <= '9' || name[k] == '_'
    requires name in vars && '\n' !in vars[name].value
    requires var value := vars[name].value;
      forall k :: 0 <= k < |value| && value[k] == '{' ==> k + 1 < |value| && value[k + 1] != '{'
    ensures Resolve("{{." + name + "}}" + t, vars) == vars[name].value + Resolve(t, vars)
  {
    var s, body, value := "{{." + name + "}}" + t, "." + name, vars[name].value;
    assert s == "{{" + body + "}}" + t;
    assert forall k :: 1 <= k < |body| ==> body[k] == name[k - 1];
    ActionAround(body, t);
    var n := |body| + 4;
    assert s[..n] == "{{" + body + "}}" && s[n..] == t;
    assert s[..n][3..n - 2] == name && s[..n][..3] == "{{." && s[..n][n - 2..] == "}}";
    assert Substitute(vars, s[..n]) == value;
    hide Substitute, ActionLen;
    OpensNothing(value);
    PlainAhead(value, FirstPass(t, vars), Placing());
  }

  /** Every other action becomes the placeholder: one that is no such reference, names no
      variable, or names one of several lines. */
  lemma ResolvePlaced(body: string, t: string, vars: Vars)
    requires forall k :: 0 <= k < |body| ==> body[k] != '\n'
    requires forall k :: 0 <= k < |body| && body[k] == '}' ==> k + 1 < |body| && body[k + 1] != '}'
    requires !(&& |body| > 1 && body[0] == '.'
               && ('a' <= body[1] <= 'z' || 'A' <= body[1] <= 'Z' || body[1] == '_')
               && (forall k :: 2 <= k < |body| ==>
                     'a' <= body[k] <= 'z' || 'A' <= body[k] <= 'Z' || '0' <= body[k] <= '9' || body[k] == '_')
               && body[1..] in vars && '\n' !in vars[body[1..]].value)
    ensures Resolve("{{" + body + "}}" + t, vars) == "${TASK_TEMPLATE}" + Resolve(t, vars)
  {
    var s, n := "{{" + body + "}}" + t, |body| + 4;
    ActionAround(body, t);
    assert s[..n] == "{{" + body + "}}" && s[n..] == t;
    if SimpleReference(s[..n]) {
      var name := s[..n][3..n - 2];
      assert name == body[1..] && s[..n][2] == body[0];
      assert forall k :: 2 <= k < |body| ==> body[k] == name[k - 1];
    }
    assert Substitute(vars, s[..n]) == s[..n];
    ResolveOther(s, vars);
  }

  /** Any other action, a multi-line variable's among them, becomes the placeholder. */
  lemma ResolveOther(s: string, vars: Vars)
    requires ActionLen(s).Some?
    requires Substitute(vars, s[..ActionLen(s).value]) == s[..ActionLen(s).value]
    ensures Resolve(s, vars) == PLACEHOLDER + Resolve(s[ActionLen(s).value..], vars)
  {
    var n := ActionLen(s).value;
    var first := s[..n] + FirstPass(s[n..], vars);
    assert FirstPass(s, vars) == first;
    ActionOfPrefix(s, FirstPass(s[n..], vars));
    assert first[..n] == s[..n] && first[n..] == FirstPass(s[n..], vars);
  }

  // An action the first pass leaves alone reaches the second.

  lemma {:induction false} UncleanBehind(a: string, t: string)
    requires !Clean(t)
    ensures !Clean(a + t)
    decreases |a|
  {
    if a == "" {
      assert a + t == t;
    } else {
      UncleanBehind(a[1..], t);
      assert (a + t)[1..] == a[1..] + t;
    }
  }

  lemma {:induction false} SecondPassPlaces(s: string)
    requires !Clean(s)
    ensures Contains(SecondPass(s), PLACEHOLDER)
    decreases |s|
  {
    var n := Taken(s);
    var rest := SecondPass(s[n..]);
    if ActionLen(s).Some? {
      assert SecondPass(s) == PLACEHOLDER + rest;
      assert At(SecondPass(s), 0, PLACEHOLDER);
    } else {
      SecondPassPlaces(s[1..]);
      ContainsWithin([s[0]], rest, "", PLACEHOLDER);
      assert [s[0]] + rest + "" == SecondPass(s);
    }
  }

  /** An action that overlaps the stretch `{{.name}}` ends where the stretch does. */
  lemma OverlapEnds(s: string, i: nat, name: string)
    requires OneLine(name) && '}' !in name
    requires i + |name| + 5 <= |s| && At(s, i, "{{." + name + "}}")
    requires ActionLen(s).Some? && ActionLen(s).value > i
    ensures ActionLen(s).value == i + |name| + 5
  {
    var a := "{{." + name + "}}";
    var tail, j := s[2..], ActionLen(s).value - 2;
    assert forall k :: 0 <= k < |a| ==> s[i + k] == a[k];
    assert forall k :: 0 <= k < |a| - 2 ==> a[k] != '}' && a[k] != '\n';
    CloseIsFirst(tail);
    assert ClosesAt(tail, j - 2);
    assert tail[j - 2] == s[j] && tail[j - 1] == s[j + 1];
    assert s[i] == '{' && s[j] == '}' && s[j + 1] == '}';
    var e := i + |a| - 2;
    forall k | i <= k < e
      ensures s[k] != '}'
    {
      assert s[i + (k - i)] == a[k - i];
    }
    assert j >= e;
    assert s[e] == a[|a| - 2] && s[e + 1] == a[|a| - 1];
    if e >= 2 {
      assert forall k :: 0 <= k < e - 2 ==> tail[k] != '\n';
      assert tail[e - 2] == s[e] && tail[e - 1] == s[e + 1];
      assert ClosesAt(tail, e - 2);
    }
  }

  lemma InnerBraceNotSimple(action: string, i: nat)
    requires 0 < i < |action| - 2 && action[i] == '{' && (i > 1 || action[2] == '{')
    ensures !SimpleReference(action)
  {
  }

  lemma OverlapStays(s: string, i: nat, name: string, vars: Vars)
    requires OneLine(name) && '}' !in name
    requires i + |name| + 5 <= |s| && At(s, i, "{{." + name + "}}")
    requires ActionLen(s).Some? && ActionLen(s).value > i
    requires name in vars && !OneLine(vars[name].value)
    ensures Substitute(vars, s[..ActionLen(s).value]) == s[..ActionLen(s).value]
  {
    OverlapEnds(s, i, name);
    var a, action := "{{." + name + "}}", s[..ActionLen(s).value];
    assert forall k :: 0 <= k < |a| ==> s[i + k] == a[k];
    if i == 0 {
      assert action == a;
      assert action[3..|action| - 2] == name;
    } else {
      assert action[i] == a[0] && action[i + 1] == a[1];
      InnerBraceNotSimple(action, i);
    }
  }

  /** The first pass leaves the action of a multi-line variable to the second, wherever it stands. */
  lemma {:induction false} ActionSurvives(s: string, i: nat, name: string, vars: Vars)
    requires OneLine(name) && '}' !in name
    requires i + |name| + 5 <= |s| && At(s, i, "{{." + name + "}}")
    requires name in vars && !OneLine(vars[name].value)
    ensures !Clean(FirstPass(s, vars))
    decreases |s|
  {
    var a := "{{." + name + "}}";
    var n := Taken(s);
    var rest := FirstPass(s[n..], vars);
    if ActionLen(s).Some? && n > i {
      OverlapStays(s, i, name, vars);
      ActionOfPrefix(s, rest);
      assert FirstPass(s, vars) == s[..n] + rest;
    } else {
      if i == 0 {
        StretchIsAction(s, name);
      }
      assert s[n..][i - n..i - n + |a|] == s[i..i + |a|];
      ActionSurvives(s[n..], i - n, name, vars);
      UncleanBehind(Head(s, Substituting(vars)), rest);
    }
  }

  lemma StretchIsAction(s: string, name: string)
    requires OneLine(name)
    requires |name| + 5 <= |s| && At(s, 0, "{{." + name + "}}")
    ensures ActionLen(s).Some?
  {
    var a := "{{." + name + "}}";
    assert forall k :: 0 <= k < |a| ==> s[k] == a[k];
    assert forall k :: 0 <= k < |a| - 2 ==> a[k] != '\n';
    ActionHere(s);
    assert ActionAt(s, 0, |a| - 2);
  }
}
