/** Node taints written key=value:Effect: their pattern and validation
    (internal/pkg/clusterspec/config.go), their parts (firewall.go), and the map the machine
    configuration carries them in (machineconfig.go). */
module Taints {
  import opened Wrappers
  import opened FirstSeen

  const EFFECTS: seq<string> := ["NoSchedule", "PreferNoSchedule", "NoExecute"]

  predicate Lacks(s: string, c: char) {
    forall i :: 0 <= i < |s| ==> s[i] != c
  }

  /** `strings.Index` of one character. */
  function Index(s: string, c: char): (i: int)
    ensures -1 <= i < |s|
    ensures i >= 0 ==> s[i] == c && forall j :: 0 <= j < i ==> s[j] != c
    ensures i < 0 ==> Lacks(s, c)
  {
    if s == "" then -1
    else if s[0] == c then 0
    else
      var i := Index(s[1..], c);
      if i < 0 then -1 else i + 1
  }

  /** `strings.LastIndex` of one character. */
  function LastIndex(s: string, c: char): (i: int)
    ensures -1 <= i < |s|
    ensures i >= 0 ==> s[i] == c && forall j :: i < j < |s| ==> s[j] != c
    ensures i < 0 ==> Lacks(s, c)
  {
    if s == "" then -1
    else if s[|s| - 1] == c then |s| - 1
    else LastIndex(s[..|s| - 1], c)
  }

  datatype Taint = Taint(key: string, value: string, effect: string) {
    function Print(): string {
      key + "=" + value + ":" + effect
    }
  }

  /** `ParseTaint`. */
  function ParseTaint(s: string): Option<Taint> {
    var eq, colon := Index(s, '='), LastIndex(s, ':');
    if eq < 0 || colon < eq then None else Some(Taint(s[..eq], s[eq + 1..colon], s[colon + 1..]))
  }

  /** The three groups of `taintPattern`. */
  predicate FitsPattern(t: Taint) {
    t.key != "" && Lacks(t.key, '=') && Lacks(t.key, ':') && Lacks(t.value, ':') && t.effect in EFFECTS
  }

  /** `taintPattern`: cut at the first equals sign and the only colon, the three parts fit. */
  predicate Matches(s: string) {
    var t := ParseTaint(s);
    t.Some? && FitsPattern(t.value)
  }

  lemma EffectsPlain(e: string)
    requires e in EFFECTS
    ensures Lacks(e, ':') && e != ""
  {
  }

  /** Parsing undoes printing for any key without an equals sign and effect without a colon. */
  lemma ParseUndoesPrint(t: Taint)
    requires Lacks(t.key, '=') && Lacks(t.effect, ':')
    ensures ParseTaint(t.Print()) == Some(t)
  {
    var s := t.Print();
    var eq, colon := Index(s, '='), LastIndex(s, ':');
    var k, c := |t.key|, |t.key| + 1 + |t.value|;
    assert s[k] == '=' && s[c] == ':';
    assert forall j :: 0 <= j < k ==> s[j] == t.key[j];
    assert forall j :: c < j < |s| ==> s[j] == t.effect[j - c - 1];
    assert eq == k && colon == c;
    assert s[..k] == t.key && s[k + 1..c] == t.value && s[c + 1..] == t.effect;
  }

  /** Printing undoes parsing for every text that parses at all. */
  lemma PrintUndoesParse(s: string)
    requires ParseTaint(s).Some?
    ensures ParseTaint(s).value.Print() == s
  {
    var eq, colon := Index(s, '='), LastIndex(s, ':');
    assert s == s[..eq] + [s[eq]] + s[eq + 1..colon] + [s[colon]] + s[colon + 1..];
  }

  /** The three groups, with the pattern's characters and effects. */
  lemma FitsExactly(t: Taint)
    ensures FitsPattern(t) <==>
      && t.key != "" && '=' !in t.key && ':' !in t.key && ':' !in t.value
      && t.effect in {"NoSchedule", "PreferNoSchedule", "NoExecute"}
  {
    OneOfThree(t.effect, "NoSchedule", "PreferNoSchedule", "NoExecute");
  }

  lemma OneOfThree(x: string, a: string, b: string, c: string)
    ensures x in [a, b, c] <==> x == a || x == b || x == c
  {
    var s := [a, b, c];
    assert s[0] == a && s[1] == b && s[2] == c;
    if x in s {
      var i :| 0 <= i < 3 && s[i] == x;
    }
  }

  /** The computed match is the regular expression: a key, an equals sign, a value, a colon and
      one of the three effects, with neither sign in the key and no colon in the value. */
  lemma MatchesIsPattern(s: string)
    ensures Matches(s) <==>
      exists t: Taint ::
        && t.Print() == s
        && t.key != "" && '=' !in t.key && ':' !in t.key && ':' !in t.value
        && t.effect in {"NoSchedule", "PreferNoSchedule", "NoExecute"}
  {
    forall t: Taint { FitsExactly(t); }
    if Matches(s) {
      PrintUndoesParse(s);
      hide ParseTaint, EFFECTS;
      assert FitsPattern(ParseTaint(s).value);
    }
    if t: Taint :| t.Print() == s && FitsPattern(t) {
      FittingMatches(t);
    }
  }

  lemma FittingMatches(t: Taint)
    requires FitsPattern(t)
    ensures Matches(t.Print())
  {
    EffectsPlain(t.effect);
    ParseUndoesPrint(t);
  }

  /** The parts of each text the pattern accepts. */
  function Read(taints: seq<string>): (r: seq<Option<Taint>>)
    ensures |r| == |taints|
    ensures forall i :: 0 <= i < |taints| ==> r[i] == if Matches(taints[i]) then ParseTaint(taints[i]) else None
  {
    seq(|taints|, i requires 0 <= i < |taints| => if Matches(taints[i]) then ParseTaint(taints[i]) else None)
  }

  datatype Problem = Malformed(at: nat) | RepeatedKey(at: nat, first: nat)

  function KeysOf(read: seq<Option<Taint>>): (r: seq<Option<string>>)
    ensures |r| == |read|
    ensures forall i :: 0 <= i < |read| ==> r[i] == if read[i].Some? then Some(read[i].value.key) else None
  {
    seq(|read|, i requires 0 <= i < |read| => if read[i].Some? then Some(read[i].value.key) else None)
  }

  /** What deserves a message: a text that is no taint, or one whose key an earlier one has. */
  ghost predicate Fault(read: seq<Option<Taint>>, q: Problem) {
    match q
    case Malformed(j) => j < |read| && read[j].None?
    case RepeatedKey(j, first) => Repeats(KeysOf(read), j, first)
  }

  /** Every text is a taint and no two have one key. */
  ghost predicate Clean(read: seq<Option<Taint>>) {
    && (forall i :: 0 <= i < |read| ==> read[i].Some?)
    && forall i, j :: 0 <= i < j < |read| ==> read[i].value.key != read[j].value.key
  }

  method ReadAt(taints: seq<string>, j: nat) returns (t: Option<Taint>)
    requires j < |taints|
    ensures t == Read(taints)[j]
  {
    t := if Matches(taints[j]) then ParseTaint(taints[j]) else None;
  }

  lemma FaultsAt(read: seq<Option<Taint>>, seen: map<string, nat>, j: nat)
    requires j < |read| && Seen(KeysOf(read), seen, j)
    ensures read[j].None? ==>
      Seen(KeysOf(read), seen, j + 1) && forall q: Problem :: q.at == j ==> (Fault(read, q) <==> q == Malformed(j))
    ensures read[j].Some? && read[j].value.key in seen ==>
      && Seen(KeysOf(read), seen, j + 1)
      && forall q: Problem :: q.at == j ==> (Fault(read, q) <==> q == RepeatedKey(j, seen[read[j].value.key]))
    ensures read[j].Some? && read[j].value.key !in seen ==>
      && Seen(KeysOf(read), seen[read[j].value.key := j], j + 1)
      && forall q: Problem :: q.at == j ==> !Fault(read, q)
  {
    SeenStep(KeysOf(read), seen, j);
  }

  /** `validateTaints`: exactly the faults, and none exactly on clean lists. */
  method ValidateTaints(taints: seq<string>) returns (problems: seq<Problem>)
    ensures forall q :: q in problems <==> Fault(Read(taints), q)
    ensures problems == [] <==> Clean(Read(taints))
  {
    ghost var read := Read(taints);
    problems := [];
    var seen: map<string, nat> := map[];
    var j := 0;
    while j < |taints|
      invariant 0 <= j <= |taints|
      invariant Seen(KeysOf(read), seen, j)
      invariant forall q :: q in problems <==> q.at < j && Fault(read, q)
    {
      FaultsAt(read, seen, j);
      var parsed := ReadAt(taints, j);
      if parsed.None? {
        problems := problems + [Malformed(j)];
      } else {
        var key := parsed.value.key;
        if key in seen {
          problems := problems + [RepeatedKey(j, seen[key])];
        } else {
          seen := seen[key := j];
        }
      }
      j := j + 1;
    }
    CleanHasNoFault(read, problems);
  }

  lemma CleanHasNoFault(read: seq<Option<Taint>>, problems: seq<Problem>)
    requires forall q :: q in problems <==> Fault(read, q)
    ensures problems == [] <==> Clean(read)
  {
    var keys := KeysOf(read);
    DistinctMeansNoRepeat(keys);
    if problems == [] {
      forall i | 0 <= i < |read|
        ensures read[i].Some?
      {
        assert !Fault(read, Malformed(i));
      }
      forall j, first
        ensures !Repeats(keys, j, first)
      {
        assert !Fault(read, RepeatedKey(j, first));
      }
      assert forall i, j :: 0 <= i < j < |read| ==> keys[i] != keys[j];
    } else {
      CleanIsFaultless(read, problems[0]);
    }
  }

  lemma CleanIsFaultless(read: seq<Option<Taint>>, q: Problem)
    requires Fault(read, q)
    ensures !Clean(read)
  {
  }

  /** What a taint map must hold: one entry per key, and each key's last taint. */
  ghost predicate Carries(m: map<string, string>, ts: seq<Taint>) {
    && (forall k :: k in m <==> exists i :: 0 <= i < |ts| && ts[i].key == k)
    && forall i :: 0 <= i < |ts| && (forall j :: i < j < |ts| ==> ts[j].key != ts[i].key) ==>
         m[ts[i].key] == ts[i].value + ":" + ts[i].effect
  }

  predicate FirstUnparsed(taints: seq<string>, i: int) {
    0 <= i < |taints| && ParseTaint(taints[i]).None? && forall j :: 0 <= j < i ==> ParseTaint(taints[j]).Some?
  }

  /** The loop of `BuildNodePatch`: key to value:Effect, refusing the first text that does not parse. */
  method NodeTaints(taints: seq<string>) returns (r: Result<map<string, string>, string>, ghost ts: seq<Taint>)
    ensures r.Ok? <==> forall i :: 0 <= i < |taints| ==> ParseTaint(taints[i]).Some?
    ensures r.Ok? ==>
      && |ts| == |taints| && (forall i :: 0 <= i < |taints| ==> ParseTaint(taints[i]) == Some(ts[i]))
      && Carries(r.value, ts)
    ensures r.Err? ==> exists i :: FirstUnparsed(taints, i) && r.error == taints[i]
  {
    var m: map<string, string> := map[];
    ts := [];
    var i := 0;
    while i < |taints|
      invariant 0 <= i <= |taints| && |ts| == i
      invariant forall j :: 0 <= j < i ==> ParseTaint(taints[j]) == Some(ts[j])
      invariant Carries(m, ts)
    {
      var parsed := ParseTaint(taints[i]);
      if parsed.None? {
        assert FirstUnparsed(taints, i);
        return Err(taints[i]), ts;
      }
      var t := parsed.value;
      CarriesOne(m, ts, t);
      ts := ts + [t];
      m := m[t.key := t.value + ":" + t.effect];
      i := i + 1;
    }
    r := Ok(m);
  }

  lemma CarriesOne(m: map<string, string>, ts: seq<Taint>, t: Taint)
    requires Carries(m, ts)
    ensures Carries(m[t.key := t.value + ":" + t.effect], ts + [t])
  {
    var longer, after := ts + [t], m[t.key := t.value + ":" + t.effect];
    assert forall i :: 0 <= i < |ts| ==> longer[i] == ts[i];
    forall k
      ensures k in after <==> exists i :: 0 <= i < |longer| && longer[i].key == k
    {
      if k == t.key {
        assert longer[|ts|].key == k;
      } else if k in m {
        var i :| 0 <= i < |ts| && ts[i].key == k;
        assert longer[i].key == k;
      }
    }
    forall i | 0 <= i < |longer| && (forall j :: i < j < |longer| ==> longer[j].key != longer[i].key)
      ensures after[longer[i].key] == longer[i].value + ":" + longer[i].effect
    {
      if i < |ts| {
        assert longer[|ts|].key != longer[i].key;
        forall j | i < j < |ts|
          ensures ts[j].key != ts[i].key
        {
          assert longer[j].key != longer[i].key;
        }
      }
    }
  }

  /** A validated list survives the map: each taint can be read back from its own entry. */
  lemma TaintsSurvive(taints: seq<string>, ts: seq<Taint>, m: map<string, string>)
    requires Clean(Read(taints))
    requires |ts| == |taints| && forall i :: 0 <= i < |taints| ==> ParseTaint(taints[i]) == Some(ts[i])
    requires Carries(m, ts)
    ensures |m| == |taints|
    ensures forall i :: 0 <= i < |taints| ==> ts[i].key in m && ts[i].key + "=" + m[ts[i].key] == taints[i]
  {
    var read := Read(taints);
    forall i | 0 <= i < |taints|
      ensures read[i] == Some(ts[i])
    {
    }
    forall i, j | 0 <= i < j < |ts|
      ensures ts[i].key != ts[j].key
    {
      assert read[i].value.key != read[j].value.key;
    }
    OneEntryEach(ts, m);
    forall i | 0 <= i < |taints|
      ensures ts[i].key in m && ts[i].key + "=" + m[ts[i].key] == taints[i]
    {
      EntryReads(ts, m, i);
      PrintUndoesParse(taints[i]);
    }
  }

  lemma EntryReads(ts: seq<Taint>, m: map<string, string>, i: nat)
    requires Carries(m, ts) && i < |ts|
    requires forall i, j :: 0 <= i < j < |ts| ==> ts[i].key != ts[j].key
    ensures ts[i].key in m && ts[i].key + "=" + m[ts[i].key] == ts[i].Print()
  {
    var t := ts[i];
    assert t.key + "=" + (t.value + ":" + t.effect) == t.Print();
  }

  /** One entry per taint is exactly what distinct keys give; a repeated key loses one. */
  lemma OneEntryEach(ts: seq<Taint>, m: map<string, string>)
    requires Carries(m, ts)
    ensures |m| == |ts| <==> forall i, j :: 0 <= i < j < |ts| ==> ts[i].key != ts[j].key
  {
    var keys := seq(|ts|, i requires 0 <= i < |ts| => ts[i].key);
    assert forall i :: 0 <= i < |ts| ==> keys[i] == ts[i].key;
    forall k
      ensures k in m.Keys <==> k in keys
    {
      if k in keys {
        var i :| 0 <= i < |keys| && keys[i] == k;
        assert ts[i].key == k;
      }
    }
    assert m.Keys == set k | k in keys;
    CountDistinct(keys);
  }

  lemma SetOfLonger(s: seq<string>, x: string)
    ensures (set y | y in s + [x]) == (set y | y in s) + {x}
    ensures |set y | y in s + [x]| == |set y | y in s| + if x in s then 0 else 1
  {
  }

  ghost predicate NoRepeats(s: seq<string>) {
    forall i, j :: 0 <= i < j < |s| ==> s[i] != s[j]
  }

  lemma NoRepeatsLonger(s: seq<string>, x: string)
    ensures NoRepeats(s + [x]) <==> NoRepeats(s) && x !in s
  {
    var longer := s + [x];
    if NoRepeats(longer) {
      forall i, j | 0 <= i < j < |s| ensures s[i] != s[j] { assert longer[i] != longer[j]; }
      forall i | 0 <= i < |s| ensures s[i] != x { assert longer[i] != longer[|s|]; }
    }
  }

  lemma {:induction false} CountDistinct(s: seq<string>)
    ensures |set x | x in s| <= |s|
    ensures |set x | x in s| == |s| <==> NoRepeats(s)
    decreases |s|
  {
    if s == [] {
      assert (set x | x in s) == {};
    } else {
      var init, last := s[..|s| - 1], s[|s| - 1];
      CountDistinct(init);
      SetOfLonger(init, last);
      NoRepeatsLonger(init, last);
      assert s == init + [last];
    }
  }
}
