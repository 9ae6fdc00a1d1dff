/** Network-policy selectors: what one means, and its expansion into one selector per named
    pod (tools/charts/policies.go). */
module Selectors {
  const CILIUM_LABEL_PREFIX := "k8s:"
  const NAMESPACE_LABEL := CILIUM_LABEL_PREFIX + "io.kubernetes.pod.namespace"

  datatype Operator = In | Other(name: string)

  datatype Expression = Expression(key: string, operator: Operator, values: seq<string>)

  datatype Selector = Selector(labels: map<string, string>, expressions: seq<Expression>)

  datatype Pod = Pod(namespace: string, labels: map<string, string>)

  /** `strings.TrimPrefix`. */
  function TrimPrefix(s: string, prefix: string): string {
    if prefix <= s then s[|prefix|..] else s
  }

  /** What a pod answers for a key: its namespace, or the label behind the source prefix. */
  predicate Has(pod: Pod, key: string) {
    key == NAMESPACE_LABEL || TrimPrefix(key, CILIUM_LABEL_PREFIX) in pod.labels
  }

  function ValueOf(pod: Pod, key: string): string
    requires Has(pod, key)
  {
    if key == NAMESPACE_LABEL then pod.namespace else pod.labels[TrimPrefix(key, CILIUM_LABEL_PREFIX)]
  }

  predicate Requires(pod: Pod, key: string, want: string) {
    Has(pod, key) && ValueOf(pod, key) == want
  }

  predicate Satisfies(pod: Pod, e: Expression) {
    e.operator.In? && Has(pod, e.key) && ValueOf(pod, e.key) in e.values
  }

  /** `matches`. */
  predicate Matches(s: Selector, pod: Pod) {
    && (forall key :: key in s.labels ==> Requires(pod, key, s.labels[key]))
    && forall i :: 0 <= i < |s.expressions| ==> Satisfies(pod, s.expressions[i])
  }

  /** The expressions `alternatives` splits: In over anything but the namespace. */
  predicate Splits(e: Expression) {
    e.key != NAMESPACE_LABEL && e.operator.In?
  }

  function Kept(base: Selector, e: Expression): Selector {
    Selector(base.labels, base.expressions + [e])
  }

  function Chosen(base: Selector, e: Expression, value: string): Selector {
    Selector(base.labels[e.key := value], base.expressions)
  }

  // The expansion as a function: one expression at a time over the whole list.

  function KeepAll(out: seq<Selector>, e: Expression): (r: seq<Selector>)
    ensures |r| == |out|
    ensures forall i :: 0 <= i < |out| ==> r[i] == Kept(out[i], e)
  {
    seq(|out|, i requires 0 <= i < |out| => Kept(out[i], e))
  }

  function ChooseEach(base: Selector, e: Expression, values: seq<string>): (r: seq<Selector>)
    ensures |r| == |values|
    ensures forall i :: 0 <= i < |values| ==> r[i] == Chosen(base, e, values[i])
  {
    seq(|values|, i requires 0 <= i < |values| => Chosen(base, e, values[i]))
  }

  ghost function SplitAll(out: seq<Selector>, e: Expression): seq<Selector>
    decreases |out|
  {
    if out == [] then [] else ChooseEach(out[0], e, e.values) + SplitAll(out[1..], e)
  }

  ghost function Stepped(out: seq<Selector>, e: Expression): seq<Selector> {
    if Splits(e) then SplitAll(out, e) else KeepAll(out, e)
  }

  ghost function Expanded(out: seq<Selector>, expressions: seq<Expression>): seq<Selector>
    decreases |expressions|
  {
    if expressions == [] then out else Expanded(Stepped(out, expressions[0]), expressions[1..])
  }

  ghost function AlternativesOf(s: Selector): seq<Selector> {
    Expanded([Selector(s.labels, [])], s.expressions)
  }

  /** The inner loop: one copy of the base per value. */
  method SplitOne(base: Selector, e: Expression) returns (split: seq<Selector>)
    ensures split == ChooseEach(base, e, e.values)
  {
    split := [];
    var v := 0;
    while v < |e.values|
      invariant 0 <= v <= |e.values| && |split| == v
      invariant forall i :: 0 <= i < v ==> split[i] == Chosen(base, e, e.values[i])
    {
      var labels := base.labels[e.key := e.values[v]];
      split := split + [Selector(labels, base.expressions)];
      v := v + 1;
    }
  }

  method SplitEvery(out: seq<Selector>, e: Expression) returns (split: seq<Selector>)
    ensures split == SplitAll(out, e)
  {
    split := [];
    var b := 0;
    while b < |out|
      invariant 0 <= b <= |out|
      invariant split + SplitAll(out[b..], e) == SplitAll(out, e)
    {
      assert out[b..][1..] == out[b + 1..];
      var copies := SplitOne(out[b], e);
      split := split + copies;
      b := b + 1;
    }
  }

  /** The loop that appends a kept expression to every selector so far, in place. */
  method KeepEvery(start: seq<Selector>, e: Expression) returns (out: seq<Selector>)
    ensures out == KeepAll(start, e)
  {
    out := start;
    var i := 0;
    while i < |out|
      invariant 0 <= i <= |out| == |start|
      invariant forall k :: 0 <= k < |out| ==> out[k] == if k < i then Kept(start[k], e) else start[k]
    {
      out := out[i := out[i].(expressions := out[i].expressions + [e])];
      i := i + 1;
    }
  }

  /** `alternatives`. */
  method Alternatives(s: Selector) returns (out: seq<Selector>)
    ensures out == AlternativesOf(s)
  {
    out := [Selector(s.labels, [])];
    var i := 0;
    while i < |s.expressions|
      invariant 0 <= i <= |s.expressions|
      invariant Expanded(out, s.expressions[i..]) == AlternativesOf(s)
    {
      assert s.expressions[i..][1..] == s.expressions[i + 1..];
      var e := s.expressions[i];
      if e.key == NAMESPACE_LABEL || !e.operator.In? {
        out := KeepEvery(out, e);
      } else {
        out := SplitEvery(out, e);
      }
      i := i + 1;
    }
  }

  // What one step contains.

  ghost predicate ChosenFrom(out: seq<Selector>, e: Expression, b: Selector, v: string, x: Selector) {
    b in out && v in e.values && x == Chosen(b, e, v)
  }

  lemma ChooseMembers(base: Selector, e: Expression, x: Selector)
    ensures x in ChooseEach(base, e, e.values) <==> exists v :: ChosenFrom([base], e, base, v, x)
  {
    var each := ChooseEach(base, e, e.values);
    if x in each {
      var i :| 0 <= i < |each| && each[i] == x;
      assert ChosenFrom([base], e, base, e.values[i], x);
    }
    if v :| ChosenFrom([base], e, base, v, x) {
      var i :| 0 <= i < |e.values| && e.values[i] == v;
      assert each[i] == x;
    }
  }

  lemma {:induction false} SplitMembers(out: seq<Selector>, e: Expression, x: Selector)
    ensures x in SplitAll(out, e) <==> exists b, v :: ChosenFrom(out, e, b, v, x)
    decreases |out|
  {
    if out != [] {
      SplitMembers(out[1..], e, x);
      ChooseMembers(out[0], e, x);
      assert out == [out[0]] + out[1..];
      if x in SplitAll(out, e) {
        if x in ChooseEach(out[0], e, e.values) {
          var v :| ChosenFrom([out[0]], e, out[0], v, x);
          assert ChosenFrom(out, e, out[0], v, x);
        } else {
          var b, v :| ChosenFrom(out[1..], e, b, v, x);
          assert ChosenFrom(out, e, b, v, x);
        }
      }
      if b, v :| ChosenFrom(out, e, b, v, x) {
        if b == out[0] {
          assert ChosenFrom([out[0]], e, out[0], v, x);
        } else {
          assert ChosenFrom(out[1..], e, b, v, x);
        }
      }
    }
  }

  lemma KeepMembers(out: seq<Selector>, e: Expression, x: Selector)
    ensures x in KeepAll(out, e) <==> exists b :: b in out && x == Kept(b, e)
  {
  }

  // A matched pod is never lost.

  /** A selector with expressions still to come. */
  function With(base: Selector, expressions: seq<Expression>): Selector {
    Selector(base.labels, base.expressions + expressions)
  }

  /** One step loses no pod. */
  lemma StepKeepsMatch(b: Selector, out: seq<Selector>, expressions: seq<Expression>, pod: Pod) returns (c: Selector)
    requires b in out && expressions != [] && Matches(With(b, expressions), pod)
    ensures c in Stepped(out, expressions[0]) && Matches(With(c, expressions[1..]), pod)
  {
    var e, whole := expressions[0], With(b, expressions);
    assert whole.expressions[|b.expressions|] == e;
    assert Satisfies(pod, e);
    if Splits(e) {
      var v := ValueOf(pod, e.key);
      c := Chosen(b, e, v);
      assert ChosenFrom(out, e, b, v, c);
      SplitMembers(out, e, c);
      forall i | 0 <= i < |With(c, expressions[1..]).expressions|
        ensures Satisfies(pod, With(c, expressions[1..]).expressions[i])
      {
        var j := if i < |b.expressions| then i else i + 1;
        assert With(c, expressions[1..]).expressions[i] == whole.expressions[j];
      }
    } else {
      c := Kept(b, e);
      KeepMembers(out, e, c);
      assert With(c, expressions[1..]).expressions == whole.expressions;
    }
  }

  lemma {:induction false} ExpansionKeepsMatch(b: Selector, out: seq<Selector>, expressions: seq<Expression>, pod: Pod)
    returns (alternative: Selector)
    requires b in out && Matches(With(b, expressions), pod)
    ensures alternative in Expanded(out, expressions) && Matches(alternative, pod)
    decreases |expressions|
  {
    if expressions == [] {
      alternative := b;
      assert With(b, expressions) == b;
    } else {
      var c := StepKeepsMatch(b, out, expressions, pod);
      alternative := ExpansionKeepsMatch(c, Stepped(out, expressions[0]), expressions[1..], pod);
    }
  }

  /** A pod the selector matches is matched by one of the alternatives, whatever the selector. */
  lemma AlternativesCover(s: Selector, pod: Pod)
    requires Matches(s, pod)
    ensures exists a :: a in AlternativesOf(s) && Matches(a, pod)
  {
    var start := Selector(s.labels, []);
    assert With(start, s.expressions) == s;
    var a := ExpansionKeepsMatch(start, [start], s.expressions, pod);
  }

  // When the alternatives match no more than the selector.

  predicate SplitsKey(expressions: seq<Expression>, key: string) {
    expressions != [] && ((Splits(expressions[0]) && expressions[0].key == key) || SplitsKey(expressions[1..], key))
  }

  /** The values of the last split of a key: the label an alternative ends up with is one of them. */
  function LastValues(expressions: seq<Expression>, key: string): seq<string>
    requires SplitsKey(expressions, key)
  {
    if SplitsKey(expressions[1..], key) then LastValues(expressions[1..], key) else expressions[0].values
  }

  function KeptOf(expressions: seq<Expression>): seq<Expression> {
    if expressions == [] then []
    else (if Splits(expressions[0]) then [] else [expressions[0]]) + KeptOf(expressions[1..])
  }

  /** What the expansion of `expressions` can make of a base. */
  ghost predicate Shape(base: Selector, expressions: seq<Expression>, a: Selector) {
    && a.expressions == base.expressions + KeptOf(expressions)
    && (forall key :: key in a.labels <==> key in base.labels || SplitsKey(expressions, key))
    && forall key :: key in a.labels ==>
         if SplitsKey(expressions, key) then a.labels[key] in LastValues(expressions, key)
         else a.labels[key] == base.labels[key]
  }

  lemma ShapeThroughKeep(b: Selector, expressions: seq<Expression>, a: Selector)
    requires expressions != [] && !Splits(expressions[0])
    requires Shape(Kept(b, expressions[0]), expressions[1..], a)
    ensures Shape(b, expressions, a)
  {
  }

  lemma ShapeThroughChoice(b: Selector, expressions: seq<Expression>, v: string, a: Selector)
    requires expressions != [] && Splits(expressions[0]) && v in expressions[0].values
    requires Shape(Chosen(b, expressions[0], v), expressions[1..], a)
    ensures Shape(b, expressions, a)
  {
  }

  lemma {:induction false} ExpansionShape(out: seq<Selector>, expressions: seq<Expression>, a: Selector) returns (b: Selector)
    requires a in Expanded(out, expressions)
    ensures b in out && Shape(b, expressions, a)
    decreases |expressions|
  {
    if expressions == [] {
      b := a;
    } else {
      var e := expressions[0];
      var c := ExpansionShape(Stepped(out, e), expressions[1..], a);
      if Splits(e) {
        SplitMembers(out, e, c);
        var base, v :| ChosenFrom(out, e, base, v, c);
        b := base;
        ShapeThroughChoice(b, expressions, v, a);
      } else {
        KeepMembers(out, e, c);
        b :| b in out && c == Kept(b, e);
        ShapeThroughKeep(b, expressions, a);
      }
    }
  }

  /** A value agrees with the label it overwrites and with every list of its key. */
  ghost predicate AgreesOn(s: Selector, key: string, v: string) {
    && (key in s.labels ==> s.labels[key] == v)
    && forall j :: 0 <= j < |s.expressions| && Splits(s.expressions[j]) && s.expressions[j].key == key ==>
         v in s.expressions[j].values
  }

  /** What a caller can check: each value a key can end up with agrees. */
  ghost predicate Agreeing(s: Selector) {
    forall key, v :: SplitsKey(s.expressions, key) && v in LastValues(s.expressions, key) ==> AgreesOn(s, key, v)
  }

  /** The values one alternative ended up with agree. */
  ghost predicate AgreesWith(s: Selector, a: Selector) {
    forall key :: SplitsKey(s.expressions, key) && key in a.labels ==> AgreesOn(s, key, a.labels[key])
  }

  lemma {:induction false} KeptMember(expressions: seq<Expression>, j: nat)
    requires j < |expressions|
    ensures !Splits(expressions[j]) ==> expressions[j] in KeptOf(expressions)
    ensures Splits(expressions[j]) ==> SplitsKey(expressions, expressions[j].key)
    decreases |expressions|
  {
    if j > 0 { KeptMember(expressions[1..], j - 1); }
  }

  /** An alternative whose values agree matches no pod the selector does not. */
  lemma AlternativePrecise(s: Selector, a: Selector, pod: Pod)
    requires a in AlternativesOf(s) && AgreesWith(s, a) && Matches(a, pod)
    ensures Matches(s, pod)
  {
    var b := ExpansionShape([Selector(s.labels, [])], s.expressions, a);
    hide LastValues, AlternativesOf, Has, ValueOf;
    forall key | key in s.labels
      ensures Requires(pod, key, s.labels[key])
    {
      assert Requires(pod, key, a.labels[key]);
    }
    forall j | 0 <= j < |s.expressions|
      ensures Satisfies(pod, s.expressions[j])
    {
      var e := s.expressions[j];
      KeptMember(s.expressions, j);
      if Splits(e) {
        assert Requires(pod, e.key, a.labels[e.key]);
        RequiredSatisfies(pod, e, a.labels[e.key]);
      } else {
        assert a.expressions == KeptOf(s.expressions);
        var i :| 0 <= i < |a.expressions| && a.expressions[i] == e;
      }
    }
  }

  lemma RequiredSatisfies(pod: Pod, e: Expression, v: string)
    requires Splits(e) && Requires(pod, e.key, v) && v in e.values
    ensures Satisfies(pod, e)
  {
  }

  /** In an agreeing selector that is every alternative. */
  lemma AlternativesPrecise(s: Selector, a: Selector, pod: Pod)
    requires Agreeing(s) && a in AlternativesOf(s) && Matches(a, pod)
    ensures Matches(s, pod)
  {
    var b := ExpansionShape([Selector(s.labels, [])], s.expressions, a);
    AlternativePrecise(s, a, pod);
  }

  predicate NonEmptyLists(expressions: seq<Expression>) {
    forall i :: 0 <= i < |expressions| && Splits(expressions[i]) ==> expressions[i].values != []
  }

  /** Some alternative grows from every base. */
  lemma {:induction false} SomeAlternative(b: Selector, out: seq<Selector>, expressions: seq<Expression>) returns (a: Selector)
    requires b in out && NonEmptyLists(expressions)
    ensures a in Expanded(out, expressions) && Shape(b, expressions, a)
    decreases |expressions|
  {
    if expressions == [] {
      a := b;
    } else {
      var e := expressions[0];
      if Splits(e) {
        a := AlternativeChoosing(b, out, expressions, e.values[0]);
      } else {
        KeepMembers(out, e, Kept(b, e));
        a := SomeAlternative(Kept(b, e), Stepped(out, e), expressions[1..]);
        ShapeThroughKeep(b, expressions, a);
      }
    }
  }

  lemma {:induction false} AlternativeChoosing(b: Selector, out: seq<Selector>, expressions: seq<Expression>, v: string)
    returns (a: Selector)
    requires b in out && NonEmptyLists(expressions)
    requires expressions != [] && Splits(expressions[0]) && v in expressions[0].values
    ensures a in Expanded(out, expressions) && Shape(b, expressions, a)
    ensures !SplitsKey(expressions[1..], expressions[0].key) ==> a.labels[expressions[0].key] == v
    decreases |expressions|, 0
  {
    var e := expressions[0];
    var c := Chosen(b, e, v);
    assert ChosenFrom(out, e, b, v, c);
    SplitMembers(out, e, c);
    a := SomeAlternative(c, Stepped(out, e), expressions[1..]);
    ShapeThroughChoice(b, expressions, v, a);
  }

  /** Every value of the last split of a key is the label of some alternative. */
  lemma {:induction false} AlternativeWith(
    b: Selector, out: seq<Selector>, expressions: seq<Expression>, key: string, v: string) returns (a: Selector)
    requires b in out && NonEmptyLists(expressions)
    requires SplitsKey(expressions, key) && v in LastValues(expressions, key)
    ensures a in Expanded(out, expressions) && key in a.labels && a.labels[key] == v
    decreases |expressions|
  {
    var e := expressions[0];
    if !SplitsKey(expressions[1..], key) {
      a := AlternativeChoosing(b, out, expressions, v);
    } else if Splits(e) {
      var c := Chosen(b, e, e.values[0]);
      assert ChosenFrom(out, e, b, e.values[0], c);
      SplitMembers(out, e, c);
      a := AlternativeWith(c, Stepped(out, e), expressions[1..], key, v);
    } else {
      KeepMembers(out, e, Kept(b, e));
      a := AlternativeWith(Kept(b, e), Stepped(out, e), expressions[1..], key, v);
    }
  }

  ghost predicate Precise(s: Selector) {
    forall a, pod :: a in AlternativesOf(s) && Matches(a, pod) ==> Matches(s, pod)
  }

  ghost predicate Satisfiable(a: Selector) {
    exists pod :: Matches(a, pod)
  }

  /** What both ask of a pod agrees. */
  lemma MatchedAgrees(s: Selector, a: Selector, pod: Pod, key: string)
    requires Matches(s, pod) && Matches(a, pod) && key in a.labels
    ensures AgreesOn(s, key, a.labels[key])
  {
    var v := a.labels[key];
    assert Requires(pod, key, v);
    if key in s.labels { assert Requires(pod, key, s.labels[key]); }
    forall j | 0 <= j < |s.expressions| && Splits(s.expressions[j]) && s.expressions[j].key == key
      ensures v in s.expressions[j].values
    {
      assert Satisfies(pod, s.expressions[j]);
    }
  }

  /** The expansion matches no more than the selector, exactly when the values of every
      alternative that some pod could match agree. Where every list has a value and every
      alternative some pod, that is agreement of the selector itself. */
  lemma PreciseExactly(s: Selector)
    ensures Precise(s) <==> forall a :: a in AlternativesOf(s) && Satisfiable(a) ==> AgreesWith(s, a)
    ensures NonEmptyLists(s.expressions) && (forall a :: a in AlternativesOf(s) ==> Satisfiable(a)) ==>
      (Precise(s) <==> Agreeing(s))
  {
    hide Matches, AlternativesOf, AgreesOn;
    if Precise(s) {
      forall a | a in AlternativesOf(s) && Satisfiable(a)
        ensures AgreesWith(s, a)
      {
        var pod :| Matches(a, pod);
        forall key | SplitsKey(s.expressions, key) && key in a.labels
          ensures AgreesOn(s, key, a.labels[key])
        {
          MatchedAgrees(s, a, pod, key);
        }
      }
      if NonEmptyLists(s.expressions) && forall a :: a in AlternativesOf(s) ==> Satisfiable(a) {
        forall key, v | SplitsKey(s.expressions, key) && v in LastValues(s.expressions, key)
          ensures AgreesOn(s, key, v)
        {
          ChosenAgrees(s, key, v);
        }
      }
    }
    forall a, pod | a in AlternativesOf(s) && Matches(a, pod)
      ensures AgreesWith(s, a) || Agreeing(s) ==> Matches(s, pod)
    {
      if Agreeing(s) {
        AlternativesPrecise(s, a, pod);
      } else if AgreesWith(s, a) {
        AlternativePrecise(s, a, pod);
      }
    }
  }

  lemma ChosenAgrees(s: Selector, key: string, v: string)
    requires NonEmptyLists(s.expressions) && SplitsKey(s.expressions, key) && v in LastValues(s.expressions, key)
    requires Precise(s) && forall a :: a in AlternativesOf(s) ==> Satisfiable(a)
    ensures AgreesOn(s, key, v)
  {
    var start := Selector(s.labels, []);
    var a := AlternativeWith(start, [start], s.expressions, key, v);
    hide Matches, AgreesOn;
    assert Satisfiable(a);
    var pod :| Matches(a, pod);
    MatchedAgrees(s, a, pod, key);
  }

  lemma {:induction false} LastValuesAre(expressions: seq<Expression>, key: string) returns (j: nat)
    requires SplitsKey(expressions, key)
    ensures j < |expressions| && Splits(expressions[j]) && expressions[j].key == key
    ensures LastValues(expressions, key) == expressions[j].values
    decreases |expressions|
  {
    if SplitsKey(expressions[1..], key) {
      j := LastValuesAre(expressions[1..], key);
      j := j + 1;
    } else {
      j := 0;
    }
  }

  /** Expression keys that are distinct and no label's always agree. */
  lemma DistinctKeysAgree(s: Selector)
    requires forall i, j :: 0 <= i < j < |s.expressions| && Splits(s.expressions[i]) && Splits(s.expressions[j]) ==>
               s.expressions[i].key != s.expressions[j].key
    requires forall i :: 0 <= i < |s.expressions| && Splits(s.expressions[i]) ==> s.expressions[i].key !in s.labels
    ensures Agreeing(s)
  {
    forall key, v | SplitsKey(s.expressions, key) && v in LastValues(s.expressions, key)
      ensures AgreesOn(s, key, v)
    {
      var last := LastValuesAre(s.expressions, key);
      forall j | 0 <= j < |s.expressions| && Splits(s.expressions[j]) && s.expressions[j].key == key
        ensures j == last
      {
      }
    }
  }

  /** An overwritten label: the selector wants both a and one of [b], the alternative only b. */
  lemma OverwrittenLabelMatchesMore() returns (s: Selector, pod: Pod)
    ensures s == Selector(map["k8s:app" := "a"], [Expression("k8s:app", In, ["b"])])
    ensures !Matches(s, pod) && exists a :: a in AlternativesOf(s) && Matches(a, pod)
  {
    s := Selector(map["k8s:app" := "a"], [Expression("k8s:app", In, ["b"])]);
    pod := Pod("default", map["app" := "b"]);
    var e, start := s.expressions[0], Selector(s.labels, []);
    assert TrimPrefix("k8s:app", CILIUM_LABEL_PREFIX) == "app";
    assert "k8s:app" != NAMESPACE_LABEL;
    var a := Chosen(start, e, "b");
    assert ChosenFrom([start], e, start, "b", a);
    SplitMembers([start], e, a);
    assert s.expressions[1..] == [];
    assert AlternativesOf(s) == SplitAll([start], e);
    assert Requires(pod, "k8s:app", "b");
    assert "k8s:app" in s.labels && !Requires(pod, "k8s:app", s.labels["k8s:app"]);
    assert forall key :: key in a.labels ==> key == "k8s:app";
    assert a in AlternativesOf(s) && Matches(a, pod);
  }

  // Exactly which selectors there are.

  /** The base with one value for each In list over a pod label, later ones over earlier ones and
      over the labels; the namespace's expressions and other operators stay, in order. */
  function Picked(base: Selector, expressions: seq<Expression>, pick: seq<string>): Selector
    requires |pick| == |expressions|
    decreases |expressions|
  {
    if expressions == [] then base
    else
      var e := expressions[0];
      if e.key == NAMESPACE_LABEL || e.operator != In then
        Picked(Selector(base.labels, base.expressions + [e]), expressions[1..], pick[1..])
      else
        Picked(Selector(base.labels[e.key := pick[0]], base.expressions), expressions[1..], pick[1..])
  }

  predicate FromLists(expressions: seq<Expression>, pick: seq<string>) {
    && |pick| == |expressions|
    && forall i :: 0 <= i < |expressions| && expressions[i].key != NAMESPACE_LABEL && expressions[i].operator == In ==>
         pick[i] in expressions[i].values
  }

  ghost predicate PickedFrom(out: seq<Selector>, expressions: seq<Expression>, b: Selector, pick: seq<string>, x: Selector) {
    b in out && FromLists(expressions, pick) && x == Picked(b, expressions, pick)
  }

  lemma PickFirst(out: seq<Selector>, expressions: seq<Expression>, b: Selector, pick: seq<string>, x: Selector)
    returns (c: Selector)
    requires expressions != [] && PickedFrom(out, expressions, b, pick, x)
    ensures PickedFrom(Stepped(out, expressions[0]), expressions[1..], c, pick[1..], x)
  {
    var e := expressions[0];
    if e.key == NAMESPACE_LABEL || e.operator != In {
      c := Kept(b, e);
      KeepMembers(out, e, c);
    } else {
      c := Chosen(b, e, pick[0]);
      assert ChosenFrom(out, e, b, pick[0], c);
      SplitMembers(out, e, c);
    }
  }

  lemma PickBack(out: seq<Selector>, expressions: seq<Expression>, c: Selector, rest: seq<string>, x: Selector)
    returns (b: Selector, pick: seq<string>)
    requires expressions != [] && PickedFrom(Stepped(out, expressions[0]), expressions[1..], c, rest, x)
    ensures PickedFrom(out, expressions, b, pick, x)
  {
    var e := expressions[0];
    if e.key == NAMESPACE_LABEL || e.operator != In {
      KeepMembers(out, e, c);
      b :| b in out && c == Kept(b, e);
      pick := [""] + rest;
    } else {
      SplitMembers(out, e, c);
      var base, v :| ChosenFrom(out, e, base, v, c);
      b, pick := base, [v] + rest;
    }
    assert pick[1..] == rest;
    assert forall i :: 1 <= i < |expressions| ==> expressions[i] == expressions[1..][i - 1] && pick[i] == rest[i - 1];
  }

  lemma {:induction false} ExpandedMembers(out: seq<Selector>, expressions: seq<Expression>, x: Selector)
    ensures x in Expanded(out, expressions) <==> exists b, pick :: PickedFrom(out, expressions, b, pick, x)
    decreases |expressions|
  {
    if expressions == [] {
      assert x in out ==> PickedFrom(out, expressions, x, [], x);
    } else {
      var next, rest := Stepped(out, expressions[0]), expressions[1..];
      ExpandedMembers(next, rest, x);
      if b, pick :| PickedFrom(out, expressions, b, pick, x) {
        var c := PickFirst(out, expressions, b, pick, x);
      }
      if c, pick :| PickedFrom(next, rest, c, pick, x) {
        var b, whole := PickBack(out, expressions, c, pick, x);
      }
    }
  }

  /** The alternatives are exactly what the ways of choosing one value of each list give. */
  lemma AlternativesExactly(s: Selector, a: Selector)
    ensures a in AlternativesOf(s) <==>
      exists pick :: FromLists(s.expressions, pick) && a == Picked(Selector(s.labels, []), s.expressions, pick)
  {
    var start := Selector(s.labels, []);
    ExpandedMembers([start], s.expressions, a);
    if b, pick :| PickedFrom([start], s.expressions, b, pick, a) {
      assert b == start;
    }
    if pick :| FromLists(s.expressions, pick) && a == Picked(start, s.expressions, pick) {
      assert PickedFrom([start], s.expressions, start, pick, a);
    }
  }

  // How many there are.

  function Choices(expressions: seq<Expression>): nat {
    if expressions == [] then 1
    else (if Splits(expressions[0]) then |expressions[0].values| else 1) * Choices(expressions[1..])
  }

  lemma {:induction false} SplitCount(out: seq<Selector>, e: Expression)
    ensures |SplitAll(out, e)| == |out| * |e.values|
    decreases |out|
  {
    if out != [] {
      SplitCount(out[1..], e);
      assert |out| * |e.values| == (|out| - 1) * |e.values| + |e.values|;
    }
  }

  lemma {:induction false} ExpansionCount(out: seq<Selector>, expressions: seq<Expression>)
    ensures |Expanded(out, expressions)| == |out| * Choices(expressions)
    decreases |expressions|
  {
    if expressions != [] {
      var e := expressions[0];
      SplitCount(out, e);
      ExpansionCount(Stepped(out, e), expressions[1..]);
      Regroup(|out|, if Splits(e) then |e.values| else 1, Choices(expressions[1..]));
    }
  }

  lemma Regroup(a: nat, b: nat, c: nat)
    ensures a * b * c == a * (b * c)
  {
  }

  /** One alternative per way of choosing a value from each split list. */
  lemma AlternativesCount(s: Selector)
    ensures |AlternativesOf(s)| == Choices(s.expressions)
  {
    ExpansionCount([Selector(s.labels, [])], s.expressions);
  }

  // The check over every policy.

  function Join(values: seq<string>, separator: string): string {
    if values == [] then ""
    else if |values| == 1 then values[0]
    else values[0] + separator + Join(values[1..], separator)
  }

  ghost function LabelTerms(labels: map<string, string>): set<string> {
    set key | key in labels && key != NAMESPACE_LABEL :: key + "=" + labels[key]
  }

  ghost function ExpressionTerms(expressions: seq<Expression>): set<string> {
    set e | e in expressions && e.key != NAMESPACE_LABEL :: e.key + " in " + Join(e.values, "|")
  }

  /** The two loops of `podTerms`, up to the order their result is sorted in. */
  method TermsOfLabels(labels: map<string, string>) returns (terms: set<string>)
    ensures terms == LabelTerms(labels)
  {
    terms := {};
    var left := labels.Keys;
    while left != {}
      invariant left <= labels.Keys
      invariant terms == set key | key in labels && key !in left && key != NAMESPACE_LABEL :: key + "=" + labels[key]
      decreases |left|
    {
      var key :| key in left;
      if key != NAMESPACE_LABEL {
        terms := terms + {key + "=" + labels[key]};
      }
      left := left - {key};
    }
  }

  method TermsOfExpressions(expressions: seq<Expression>) returns (terms: set<string>)
    ensures terms == ExpressionTerms(expressions)
  {
    terms := {};
    var i := 0;
    while i < |expressions|
      invariant 0 <= i <= |expressions|
      invariant terms == ExpressionTerms(expressions[..i])
    {
      var e := expressions[i];
      assert expressions[..i + 1] == expressions[..i] + [e];
      if e.key != NAMESPACE_LABEL {
        terms := terms + {e.key + " in " + Join(e.values, "|")};
      }
      i := i + 1;
    }
    assert expressions[..i] == expressions;
  }

  method PodTerms(s: Selector) returns (terms: set<string>)
    ensures terms == LabelTerms(s.labels) + ExpressionTerms(s.expressions)
  {
    var fromLabels := TermsOfLabels(s.labels);
    var fromExpressions := TermsOfExpressions(s.expressions);
    terms := fromLabels + fromExpressions;
  }

  const NOT_FROM_A_CHART: set<string> := {
    "k8s:k8s-app=kube-dns", "k8s:acme.cert-manager.io/http01-solver=true", "k8s:app.kubernetes.io/name=prometheus"
  }

  /** A selector the check looks at: it names a pod label, and none that stands for a pod no chart renders. */
  ghost predicate Held(s: Selector) {
    var terms := LabelTerms(s.labels) + ExpressionTerms(s.expressions);
    terms != {} && terms !! NOT_FROM_A_CHART
  }

  /** A term of a label reads as one pair only. */
  lemma TermSplits(key: string, v: string, name: string, want: string)
    requires '=' !in name && '=' !in want
    ensures key + "=" + v == name + "=" + want <==> key == name && v == want
  {
    var a, b := key + "=" + v, name + "=" + want;
    assert a[|key|] == '=' && b[|name|] == '=';
    assert forall i :: 0 <= i < |name| ==> b[i] == name[i];
    assert forall i :: 0 <= i < |want| ==> b[|name| + 1 + i] == want[i];
    if a == b {
      assert |key| == |name|;
      assert a[..|key|] == key && b[..|name|] == name;
      assert a[|key| + 1..] == v && b[|name| + 1..] == want;
    }
  }

  lemma SpacedTerm(key: string, values: string, term: string)
    requires ' ' !in term
    ensures key + " in " + values != term
  {
    assert (key + " in " + values)[|key|] == ' ';
  }

  predicate Labelled(s: Selector, key: string, v: string) {
    key in s.labels && s.labels[key] == v
  }

  lemma TermHeld(s: Selector, name: string, want: string)
    requires '=' !in name && '=' !in want && ' ' !in name && ' ' !in want && name != NAMESPACE_LABEL
    ensures name + "=" + want in LabelTerms(s.labels) + ExpressionTerms(s.expressions) <==> Labelled(s, name, want)
  {
    var term := name + "=" + want;
    forall e: Expression
      ensures e.key + " in " + Join(e.values, "|") != term
    {
      SpacedTerm(e.key, Join(e.values, "|"), term);
    }
    forall key | key in s.labels
      ensures key + "=" + s.labels[key] == term <==> key == name && s.labels[key] == want
    {
      TermSplits(key, s.labels[key], name, want);
    }
  }

  /** The check holds a selector to its pods exactly when it says something of a pod's labels and
      carries none of the three labels whose pods no chart renders. */
  lemma HeldExactly(s: Selector)
    ensures Held(s) <==>
      && ((exists key :: key in s.labels && key != NAMESPACE_LABEL)
          || exists e :: e in s.expressions && e.key != NAMESPACE_LABEL)
      && !Labelled(s, "k8s:k8s-app", "kube-dns") && !Labelled(s, "k8s:acme.cert-manager.io/http01-solver", "true")
      && !Labelled(s, "k8s:app.kubernetes.io/name", "prometheus")
  {
    TermsExist(s);
    ExternalTerms(s);
    hide *;
    HeldParts(s);
  }

  lemma HeldParts(s: Selector)
    ensures var terms := LabelTerms(s.labels) + ExpressionTerms(s.expressions);
      Held(s) <==> terms != {} && terms !! NOT_FROM_A_CHART
  {
  }

  lemma ExternalTerms(s: Selector)
    ensures LabelTerms(s.labels) + ExpressionTerms(s.expressions) !! NOT_FROM_A_CHART <==>
      && !Labelled(s, "k8s:k8s-app", "kube-dns") && !Labelled(s, "k8s:acme.cert-manager.io/http01-solver", "true")
      && !Labelled(s, "k8s:app.kubernetes.io/name", "prometheus")
  {
    var terms := LabelTerms(s.labels) + ExpressionTerms(s.expressions);
    DnsTerm(s);
    SolverTerm(s);
    PrometheusTerm(s);
    var a, b, c := External();
    hide LabelTerms, ExpressionTerms, Labelled, NOT_FROM_A_CHART;
  }

  lemma DnsTerm(s: Selector)
    ensures "k8s:k8s-app" + "=" + "kube-dns" in LabelTerms(s.labels) + ExpressionTerms(s.expressions)
            <==> Labelled(s, "k8s:k8s-app", "kube-dns")
  {
    var name, want := "k8s:k8s-app", "kube-dns";
    assert |name| != |NAMESPACE_LABEL|;
    hide LabelTerms, ExpressionTerms, Labelled, NAMESPACE_LABEL;
    TermHeld(s, name, want);
  }

  lemma SolverTerm(s: Selector)
    ensures "k8s:acme.cert-manager.io/http01-solver" + "=" + "true" in LabelTerms(s.labels) + ExpressionTerms(s.expressions)
            <==> Labelled(s, "k8s:acme.cert-manager.io/http01-solver", "true")
  {
    var name, want := "k8s:acme.cert-manager.io/http01-solver", "true";
    assert |name| != |NAMESPACE_LABEL|;
    hide LabelTerms, ExpressionTerms, Labelled, NAMESPACE_LABEL;
    TermHeld(s, name, want);
  }

  lemma PrometheusTerm(s: Selector)
    ensures "k8s:app.kubernetes.io/name" + "=" + "prometheus" in LabelTerms(s.labels) + ExpressionTerms(s.expressions)
            <==> Labelled(s, "k8s:app.kubernetes.io/name", "prometheus")
  {
    var name, want := "k8s:app.kubernetes.io/name", "prometheus";
    assert |name| != |NAMESPACE_LABEL|;
    hide LabelTerms, ExpressionTerms, Labelled, NAMESPACE_LABEL;
    TermHeld(s, name, want);
  }

  lemma External() returns (a: string, b: string, c: string)
    ensures NOT_FROM_A_CHART == {a, b, c}
    ensures a == "k8s:k8s-app" + "=" + "kube-dns"
    ensures b == "k8s:acme.cert-manager.io/http01-solver" + "=" + "true"
    ensures c == "k8s:app.kubernetes.io/name" + "=" + "prometheus"
  {
    a, b := "k8s:k8s-app=kube-dns", "k8s:acme.cert-manager.io/http01-solver=true";
    c := "k8s:app.kubernetes.io/name=prometheus";
  }

  lemma TermsExist(s: Selector)
    ensures LabelTerms(s.labels) + ExpressionTerms(s.expressions) != {} <==>
      (exists key :: key in s.labels && key != NAMESPACE_LABEL)
      || exists e :: e in s.expressions && e.key != NAMESPACE_LABEL
  {
    if key :| key in s.labels && key != NAMESPACE_LABEL {
      assert key + "=" + s.labels[key] in LabelTerms(s.labels);
    }
    if e :| e in s.expressions && e.key != NAMESPACE_LABEL {
      assert e.key + " in " + Join(e.values, "|") in ExpressionTerms(s.expressions);
    }
    if t :| t in LabelTerms(s.labels) + ExpressionTerms(s.expressions) {
      if t in LabelTerms(s.labels) {
        var key :| key in s.labels && key != NAMESPACE_LABEL && t == key + "=" + s.labels[key];
      } else {
        var e :| e in s.expressions && e.key != NAMESPACE_LABEL && t == e.key + " in " + Join(e.values, "|");
      }
    }
  }

  datatype Named = Named(place: string, selector: Selector)

  ghost predicate Unmatched(selectors: seq<Named>, pods: seq<Pod>, q: Named) {
    exists n :: n in selectors && n.place == q.place && Held(n.selector)
      && q.selector in AlternativesOf(n.selector) && forall pod :: pod in pods ==> !Matches(q.selector, pod)
  }

  /** `unmatchedSelectors`, before its messages are sorted and repeats dropped: exactly the
      alternatives of held selectors that no rendered pod matches. */
  method UnmatchedSelectors(selectors: seq<Named>, pods: seq<Pod>) returns (problems: seq<Named>)
    ensures forall q :: q in problems <==> Unmatched(selectors, pods, q)
  {
    problems := [];
    var i := 0;
    while i < |selectors|
      invariant 0 <= i <= |selectors|
      invariant forall q :: q in problems <==> Unmatched(selectors[..i], pods, q)
    {
      var n := selectors[i];
      assert selectors[..i + 1] == selectors[..i] + [n];
      var found := UnmatchedOf(n, pods);
      UnmatchedStep(selectors[..i], n, pods, found, problems);
      problems := problems + found;
      i := i + 1;
    }
    assert selectors[..i] == selectors;
  }

  lemma UnmatchedStep(before: seq<Named>, n: Named, pods: seq<Pod>, found: seq<Named>, problems: seq<Named>)
    requires forall q :: q in problems <==> Unmatched(before, pods, q)
    requires forall q :: q in found <==> Unmatched([n], pods, q)
    ensures forall q :: q in problems + found <==> Unmatched(before + [n], pods, q)
  {
    forall q
      ensures q in problems + found <==> Unmatched(before + [n], pods, q)
    {
      assert forall m :: m in before + [n] <==> m in before || m in [n];
    }
  }

  /** The loop's body for one selector. */
  method UnmatchedOf(n: Named, pods: seq<Pod>) returns (found: seq<Named>)
    ensures forall q :: q in found <==> Unmatched([n], pods, q)
  {
    found := [];
    var terms := PodTerms(n.selector);
    if terms == {} || !(terms !! NOT_FROM_A_CHART) {
      return;
    }
    var alternatives := Alternatives(n.selector);
    var i := 0;
    while i < |alternatives|
      invariant 0 <= i <= |alternatives|
      invariant forall q :: q in found <==>
        q.place == n.place && q.selector in alternatives[..i] && forall pod :: pod in pods ==> !Matches(q.selector, pod)
    {
      assert alternatives[..i + 1] == alternatives[..i] + [alternatives[i]];
      if forall pod :: pod in pods ==> !Matches(alternatives[i], pod) {
        found := found + [Named(n.place, alternatives[i])];
      }
      i := i + 1;
    }
    assert alternatives[..i] == alternatives;
    assert n in [n];
  }

  /** A selector that still matches some pod can hide one that went: every value of a split list
      is looked for, so a held, agreeing selector without a message has a pod for each of them. */
  lemma NoneGone(selectors: seq<Named>, pods: seq<Pod>, n: Named, key: string, v: string) returns (pod: Pod)
    requires n in selectors && Held(n.selector) && NonEmptyLists(n.selector.expressions)
    requires forall q :: !Unmatched(selectors, pods, q)
    requires SplitsKey(n.selector.expressions, key) && v in LastValues(n.selector.expressions, key)
    ensures pod in pods && Requires(pod, key, v)
    ensures Agreeing(n.selector) ==> Matches(n.selector, pod)
  {
    var s := n.selector;
    var start := Selector(s.labels, []);
    var a := AlternativeWith(start, [start], s.expressions, key, v);
    assert !Unmatched(selectors, pods, Named(n.place, a));
    pod :| pod in pods && Matches(a, pod);
    assert Requires(pod, key, a.labels[key]);
    if Agreeing(s) {
      AlternativesPrecise(s, a, pod);
    }
  }
}
