/** Text as lines: `strings.Split` and `strings.Join` on the newline, and the searches built on them. */
module Text {

  predicate OneLine(s: string) {
    '\n' !in s
  }

  /** The lines of a text that starts with one more character. */
  function Push(c: char, lines: seq<string>): (r: seq<string>)
    requires lines != []
    ensures r != []
  {
    if c == '\n' then [""] + lines else [[c] + lines[0]] + lines[1..]
  }

  /** `strings.Split(s, "\n")`. */
  function Split(s: string): (lines: seq<string>)
    ensures lines != []
  {
    if s == "" then [""] else Push(s[0], Split(s[1..]))
  }

  /** `strings.Join(lines, "\n")`. */
  function Join(lines: seq<string>): string {
    if lines == [] then ""
    else if |lines| == 1 then lines[0]
    else lines[0] + "\n" + Join(lines[1..])
  }

  lemma {:induction false} SplitOneLine(s: string)
    requires OneLine(s)
    ensures Split(s) == [s]
    decreases |s|
  {
    if s != "" {
      SplitOneLine(s[1..]);
      assert s == [s[0]] + s[1..];
    }
  }

  lemma {:induction false} SplitLinesOneLine(s: string)
    ensures forall i :: 0 <= i < |Split(s)| ==> OneLine(Split(s)[i])
    decreases |s|
  {
    if s != "" {
      SplitLinesOneLine(s[1..]);
    }
  }

  lemma {:induction false} SplitAtNewline(a: string, b: string)
    ensures Split(a + "\n" + b) == Split(a) + Split(b)
    decreases |a|
  {
    var s := a + "\n" + b;
    if a == "" {
      assert s[1..] == b;
    } else {
      SplitAtNewline(a[1..], b);
      assert s[1..] == a[1..] + "\n" + b;
      PushAppend(a[0], Split(a[1..]), Split(b));
    }
  }

  lemma PushAppend(c: char, x: seq<string>, y: seq<string>)
    requires x != []
    ensures Push(c, x + y) == Push(c, x) + y
  {
  }

  /** Splitting what was joined gives the pieces' own lines back. */
  lemma {:induction false} SplitOfJoin(lines: seq<string>)
    requires lines != [] && forall i :: 0 <= i < |lines| ==> OneLine(lines[i])
    ensures Split(Join(lines)) == lines
    decreases |lines|
  {
    if |lines| == 1 {
      SplitOneLine(lines[0]);
    } else {
      SplitOfJoin(lines[1..]);
      SplitAtNewline(lines[0], Join(lines[1..]));
      SplitOneLine(lines[0]);
      assert lines == [lines[0]] + lines[1..];
    }
  }

  /** Joining what was split is the identity. */
  lemma {:induction false} JoinOfSplit(s: string)
    ensures Join(Split(s)) == s
    decreases |s|
  {
    if s != "" {
      JoinOfSplit(s[1..]);
      JoinOfPush(s[0], Split(s[1..]));
      assert s == [s[0]] + s[1..];
    }
  }

  lemma JoinOfPush(c: char, rest: seq<string>)
    requires rest != []
    ensures Join(Push(c, rest)) == [c] + Join(rest)
  {
  }

  /** `strings.TrimRight(s, "\n")`. */
  function TrimRight(s: string): string {
    if s != "" && s[|s| - 1] == '\n' then TrimRight(s[..|s| - 1]) else s
  }

  /** Trimming drops empty last lines and leaves the others where they were. */
  lemma {:induction false} TrimKeepsLines(s: string)
    ensures Split(TrimRight(s)) <= Split(s)
    decreases |s|
  {
    if s != "" && s[|s| - 1] == '\n' {
      TrimKeepsLines(s[..|s| - 1]);
      SplitAtNewline(s[..|s| - 1], "");
      assert s == s[..|s| - 1] + "\n" + "";
    }
  }

  /** `strings.Contains`. */
  predicate Contains(s: string, sub: string) {
    exists i :: 0 <= i <= |s| - |sub| && At(s, i, sub)
  }

  predicate At(s: string, i: int, sub: string)
    requires 0 <= i <= |s| - |sub|
  {
    s[i..i + |sub|] == sub
  }

  lemma ContainsWithin(a: string, s: string, b: string, sub: string)
    requires Contains(s, sub)
    ensures Contains(a + s + b, sub)
  {
    var i :| 0 <= i <= |s| - |sub| && At(s, i, sub);
    var whole := a + s + b;
    assert whole[|a| + i..|a| + i + |sub|] == s[i..i + |sub|];
    assert At(whole, |a| + i, sub);
  }

  /** What one line holds the whole text holds. */
  lemma {:induction false} LineWithin(s: string, k: nat, sub: string)
    requires k < |Split(s)| && Contains(Split(s)[k], sub)
    ensures Contains(s, sub)
  {
    JoinOfSplit(s);
    LineWithinJoin(Split(s), k, sub);
  }

  lemma {:induction false} LineWithinJoin(lines: seq<string>, k: nat, sub: string)
    requires k < |lines| && Contains(lines[k], sub)
    ensures Contains(Join(lines), sub)
    decreases |lines|
  {
    if |lines| > 1 {
      if k == 0 {
        ContainsWithin("", lines[0], "\n" + Join(lines[1..]), sub);
        assert "" + lines[0] + ("\n" + Join(lines[1..])) == Join(lines);
      } else {
        LineWithinJoin(lines[1..], k - 1, sub);
        ContainsWithin(lines[0] + "\n", Join(lines[1..]), "", sub);
        assert lines[0] + "\n" + Join(lines[1..]) + "" == Join(lines);
      }
    }
  }

  /** A search text that is one line is found in a text exactly when it is found in one of its lines. */
  lemma LineHolds(s: string, sub: string)
    requires OneLine(sub)
    ensures Contains(s, sub) <==> exists k :: 0 <= k < |Split(s)| && Contains(Split(s)[k], sub)
  {
    if i :| 0 <= i <= |s| - |sub| && At(s, i, sub) {
      var k := LineWith(s, i, sub);
    }
    if k :| 0 <= k < |Split(s)| && Contains(Split(s)[k], sub) {
      LineWithin(s, k, sub);
    }
  }

  lemma {:induction false} LineWith(s: string, i: nat, sub: string) returns (k: nat)
    requires OneLine(sub) && i <= |s| - |sub| && At(s, i, sub)
    ensures k < |Split(s)| && Contains(Split(s)[k], sub)
    decreases |s|
  {
    if i == 0 {
      PrefixOfLine(s, sub);
      k := 0;
      assert At(Split(s)[0], 0, sub);
    } else {
      var rest := s[1..];
      assert rest[i - 1..i - 1 + |sub|] == s[i..i + |sub|];
      k := LineWith(rest, i - 1, sub);
      if s[0] == '\n' {
        k := k + 1;
      } else if k == 0 {
        ContainsWithin([s[0]], Split(rest)[0], "", sub);
        assert [s[0]] + Split(rest)[0] + "" == Split(s)[0];
      }
    }
  }

  lemma {:induction false} PrefixOfLine(s: string, sub: string)
    requires OneLine(sub) && sub <= s
    ensures sub <= Split(s)[0]
    decreases |sub|
  {
    if sub != "" {
      assert s[0] == sub[0] && sub[0] in sub;
      PrefixOfLine(s[1..], sub[1..]);
    }
  }

  /** The same over joined texts. */
  lemma TextHolds(texts: seq<string>, sub: string)
    requires texts != [] && OneLine(sub)
    ensures Contains(Join(texts), sub) <==> exists i :: 0 <= i < |texts| && Contains(texts[i], sub)
  {
    if Contains(Join(texts), sub) {
      LineHolds(Join(texts), sub);
      var k :| 0 <= k < |Split(Join(texts))| && Contains(Split(Join(texts))[k], sub);
      var i := TextWith(texts, k, sub);
    }
    if i :| 0 <= i < |texts| && Contains(texts[i], sub) {
      LineWithinJoin(texts, i, sub);
    }
  }

  lemma {:induction false} TextWith(texts: seq<string>, k: nat, sub: string) returns (i: nat)
    requires texts != [] && k < |Split(Join(texts))| && Contains(Split(Join(texts))[k], sub)
    ensures i < |texts| && Contains(texts[i], sub)
    decreases |texts|
  {
    if |texts| == 1 {
      i := 0;
      LineWithin(texts[0], k, sub);
    } else {
      var first := Split(texts[0]);
      SplitAtNewline(texts[0], Join(texts[1..]));
      if k < |first| {
        i := 0;
        LineWithin(texts[0], k, sub);
      } else {
        i := TextWith(texts[1..], k - |first|, sub);
        i := i + 1;
      }
    }
  }

  /** Trimmed newlines are no part of what is found. */
  lemma {:induction false} TrimHolds(s: string, sub: string)
    requires sub != "" && OneLine(sub)
    ensures Contains(TrimRight(s), sub) <==> Contains(s, sub)
    decreases |s|
  {
    if s != "" && s[|s| - 1] == '\n' {
      var rest := s[..|s| - 1];
      TrimHolds(rest, sub);
      if i :| 0 <= i <= |s| - |sub| && At(s, i, sub) {
        assert s[i..i + |sub|][|sub| - 1] == s[i + |sub| - 1] && sub[|sub| - 1] in sub;
        assert rest[i..i + |sub|] == s[i..i + |sub|];
        assert At(rest, i, sub);
      }
      if i :| 0 <= i <= |rest| - |sub| && At(rest, i, sub) {
        assert s[i..i + |sub|] == rest[i..i + |sub|];
        assert At(s, i, sub);
      }
    }
  }
}
