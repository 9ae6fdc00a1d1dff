/** The checks on a component table and the in-place sort over it
    (`index` and `order`, internal/pkg/layer/component.go). */
module ComponentOrder {
  import opened Wrappers
  import opened Ordering
  import opened DependencyGraph
  import opened Traversal
  import opened TraversalProof
  import opened TieBreaks

  datatype Problem =
    | NeitherChartNorCreate | BothChartAndCreate | NoName | TwoValueSources | Duplicate | UnknownChart

  /** Exactly one of chart and Create, a name, one source of values, and a pinned chart. */
  predicate WellFormed(c: Component, charts: set<string>) {
    && ((c.chart == "") <==> c.hasCreate)
    && c.Key() != ""
    && !(c.hasStaticValues && c.hasValuesFrom)
    && (c.chart != "" ==> c.chart in charts)
  }

  function Keys(cs: seq<Component>): (r: seq<string>)
    ensures |r| == |cs|
    ensures forall i :: 0 <= i < |cs| ==> r[i] == cs[i].Key()
  {
    if cs == [] then [] else Keys(cs[..|cs| - 1]) + [cs[|cs| - 1].Key()]
  }

  ghost predicate DistinctKeys(cs: seq<Component>) {
    forall c, d :: c in cs && d in cs && c.Key() == d.Key() ==> c == d
  }

  ghost predicate WellFormedSet(cs: seq<Component>, charts: set<string>) {
    && (forall c :: c in cs ==> WellFormed(c, charts))
    && Distinct(cs)
    && DistinctKeys(cs)
  }

  /** The table keyed by name. */
  ghost function ByName(cs: seq<Component>): Graph
    requires DistinctKeys(cs)
  {
    map c | c in cs :: c.Key() := c
  }

  /** Component `i` is wrong in the way reported. */
  ghost predicate Explains(cs: seq<Component>, charts: set<string>, i: nat, problem: Problem)
    requires i < |cs|
  {
    match problem
    case NeitherChartNorCreate => cs[i].chart == "" && !cs[i].hasCreate
    case BothChartAndCreate => cs[i].chart != "" && cs[i].hasCreate
    case NoName => cs[i].Key() == ""
    case TwoValueSources => cs[i].hasStaticValues && cs[i].hasValuesFrom
    case Duplicate => exists j :: 0 <= j < i && cs[j].Key() == cs[i].Key()
    case UnknownChart => cs[i].chart != "" && cs[i].chart !in charts
  }

  /** What one more component adds to an already well-formed prefix. */
  lemma PrefixStep(cs: seq<Component>, i: nat, charts: set<string>)
    requires i < |cs| && WellFormedSet(cs[..i], charts)
    ensures WellFormedSet(cs[..i + 1], charts) <==> WellFormed(cs[i], charts) && cs[i].Key() !in ByName(cs[..i])
    ensures WellFormedSet(cs[..i + 1], charts) ==> ByName(cs[..i + 1]) == ByName(cs[..i])[cs[i].Key() := cs[i]]
    ensures cs[i].Key() in ByName(cs[..i]) ==> exists j :: 0 <= j < i && cs[j].Key() == cs[i].Key()
  {
    var before, upTo, c := cs[..i], cs[..i + 1], cs[i];
    assert upTo == before + [c];
    if c.Key() in ByName(before) {
      RepeatedKey(before, c, charts);
      var j :| 0 <= j < i && before[j].Key() == c.Key();
      assert cs[j].Key() == c.Key();
    } else {
      NewKey(before, c);
      if !WellFormed(c, charts) { assert c in upTo; }
    }
  }

  lemma RepeatedKey(before: seq<Component>, c: Component, charts: set<string>)
    requires DistinctKeys(before) && c.Key() in ByName(before)
    ensures exists j :: 0 <= j < |before| && before[j].Key() == c.Key()
    ensures !WellFormedSet(before + [c], charts)
  {
    var d := ByName(before)[c.Key()];
    assert d in before && d.Key() == c.Key();
    var j :| 0 <= j < |before| && before[j] == d;
    var upTo := before + [c];
    assert upTo[j] == d && upTo[|before|] == c;
  }

  lemma NewKey(before: seq<Component>, c: Component)
    requires DistinctKeys(before) && Distinct(before) && c.Key() !in ByName(before)
    ensures DistinctKeys(before + [c]) && Distinct(before + [c])
    ensures ByName(before + [c]) == ByName(before)[c.Key() := c]
  {
    var upTo := before + [c];
    hide Keys;
    forall d | d in before
      ensures d.Key() != c.Key()
    {
      assert d.Key() in ByName(before);
    }
    forall j, k | 0 <= j < k < |upTo|
      ensures upTo[j] != upTo[k]
    {
      assert before[j] in before;
    }
  }

  lemma PrefixWellFormed(cs: seq<Component>, i: nat, charts: set<string>)
    requires i <= |cs| && WellFormedSet(cs, charts)
    ensures WellFormedSet(cs[..i], charts)
  {
  }

  /** `index`: the table keyed by name, or the first component that is wrong and why. */
  method Index(cs: seq<Component>, charts: set<string>) returns (r: Result<Graph, (nat, Problem)>)
    ensures r.Ok? <==> WellFormedSet(cs, charts)
    ensures r.Ok? ==> r.value == ByName(cs)
    ensures r.Err? ==>
      && r.error.0 < |cs|
      && WellFormedSet(cs[..r.error.0], charts)
      && Explains(cs, charts, r.error.0, r.error.1)
  {
    var byName: Graph := map[];
    for i := 0 to |cs|
      invariant WellFormedSet(cs[..i], charts)
      invariant byName == ByName(cs[..i])
    {
      PrefixStep(cs, i, charts);
      if WellFormedSet(cs, charts) { PrefixWellFormed(cs, i + 1, charts); }
      var component := cs[i];
      if component.chart == "" && !component.hasCreate {
        return Err((i, NeitherChartNorCreate));
      } else if component.chart != "" && component.hasCreate {
        return Err((i, BothChartAndCreate));
      } else if component.Key() == "" {
        return Err((i, NoName));
      } else if component.hasStaticValues && component.hasValuesFrom {
        return Err((i, TwoValueSources));
      }
      var key := component.Key();
      if key in byName {
        return Err((i, Duplicate));
      }
      if component.chart != "" && component.chart !in charts {
        return Err((i, UnknownChart));
      }
      byName := byName[key := component];
    }
    assert cs[..|cs|] == cs;
    r := Ok(byName);
  }

  /** One ordering pass: the variables `visit` closes over. */
  class Sorter {
    const byName: Graph
    var state: map<string, Mark>
    var ordered: seq<Component>
    ghost var finished: seq<string>  // the names of `ordered`

    ghost predicate Valid()
      reads this
    {
      && |finished| == |ordered|
      && forall i :: 0 <= i < |ordered| ==> finished[i] in byName && ordered[i] == byName[finished[i]]
    }

    /** The abstract state the traversal functions work on. */
    ghost function Snapshot(): Progress
      reads this
    {
      Progress(state, finished)
    }

    constructor (g: Graph)
      ensures Valid() && byName == g && Snapshot() == Progress(map[], [])
    {
      byName := g;
      state := map[];
      ordered := [];
      finished := [];
    }

    method Visit(key: string, path: seq<string>) returns (failure: Option<Failure>)
      requires Valid() && key in byName
      modifies this
      ensures Valid()
      ensures Reports(Traversal.Visit(byName, key, path, old(Snapshot())), failure, Snapshot())
      decreases |byName.Keys - state.Keys|, 0
    {
      hide Sort, VisitEach;
      if key in state {
        match state[key]
        case Done => return None;
        case Visiting => return Some(Cycle(path + [key]));
      }
      MarkingShrinks(byName, Snapshot(), key);
      state := state[key := Visiting];
      var component := byName[key];
      var dependencies := Sort(component.after);
      failure := VisitDependencies(key, dependencies, path + [key]);
      if failure.Some? {
        return;
      }
      state := state[key := Done];
      ordered := ordered + [component];
      finished := finished + [key];
    }

    /** The loop inside `visit`. */
    method VisitDependencies(key: string, dependencies: seq<string>, path: seq<string>)
      returns (failure: Option<Failure>)
      requires Valid()
      modifies this
      ensures Valid()
      ensures Reports(VisitEach(byName, key, dependencies, path, old(Snapshot())), failure, Snapshot())
      decreases |byName.Keys - state.Keys|, 1
    {
      ghost var entered := Snapshot();
      failure := None;
      var i := 0;
      while i < |dependencies|
        invariant 0 <= i <= |dependencies|
        invariant Valid() && failure.None?
        invariant entered.marks.Keys <= state.Keys
        invariant VisitEach(byName, key, dependencies, path, entered)
                  == VisitEach(byName, key, dependencies[i..], path, Snapshot())
      {
        VisitEachStep(byName, key, dependencies, i, path, Snapshot());
        var dependency := dependencies[i];
        if dependency !in byName {
          return Some(Missing(key, dependency));
        }
        VisitedShrinks(byName, entered, Snapshot());
        failure := Visit(dependency, path);
        if failure.Some? {
          return;
        }
        i := i + 1;
      }
    }

    /** The outer loop: visit every name in the given order. */
    method VisitEvery(keys: seq<string>) returns (failure: Option<Failure>)
      requires Valid() && forall k :: k in keys ==> k in byName
      modifies this
      ensures Valid()
      ensures Reports(VisitAll(byName, keys, old(Snapshot())), failure, Snapshot())
    {
      failure := None;
      var i := 0;
      while i < |keys|
        invariant 0 <= i <= |keys|
        invariant Valid() && failure.None?
        invariant VisitAll(byName, keys, old(Snapshot())) == VisitAll(byName, keys[i..], Snapshot())
      {
        VisitAllStep(byName, keys, i, Snapshot());
        failure := Visit(keys[i], []);
        if failure.Some? {
          return;
        }
        i := i + 1;
      }
    }
  }

  /** The method's answer and final state are the function's. */
  ghost predicate Reports(outcome: Outcome, failure: Option<Failure>, final: Progress) {
    match outcome
    case Finished(q) => failure.None? && final == q
    case Failed(f) => failure == Some(f)
  }

  lemma VisitEachStep(g: Graph, key: string, deps: seq<string>, i: nat, path: seq<string>, p: Progress)
    requires i < |deps|
    ensures VisitEach(g, key, deps[i..], path, p)
            == if deps[i] !in g then Failed(Missing(key, deps[i]))
               else match Traversal.Visit(g, deps[i], path, p)
                    case Finished(q) => VisitEach(g, key, deps[i + 1..], path, q)
                    case Failed(f) => Failed(f)
  {
  }

  datatype OrderError = Refused(at: nat, problem: Problem) | NotOrderable(failure: Failure)

  /** What is reported is wrong with the table, and nothing before it. */
  ghost predicate RealFault(cs: seq<Component>, charts: set<string>, e: OrderError) {
    match e
    case Refused(at, problem) => at < |cs| && WellFormedSet(cs[..at], charts) && Explains(cs, charts, at, problem)
    case NotOrderable(failure) => WellFormedSet(cs, charts) && Genuine(ByName(cs), failure)
  }

  lemma VisitAllStep(g: Graph, keys: seq<string>, i: nat, p: Progress)
    requires i < |keys| && forall k :: k in keys ==> k in g
    ensures VisitAll(g, keys[i..], p)
            == match Traversal.Visit(g, keys[i], [], p)
               case Finished(q) => VisitAll(g, keys[i + 1..], q)
               case Failed(f) => Failed(f)
  {
  }

  /** One pass over the sorted names. */
  method Sweep(g: Graph) returns (failure: Option<Failure>, ordered: seq<Component>)
    requires forall k :: k in g ==> g[k].Key() == k
    ensures match OrderKeys(g)
            case Finished(q) => failure.None? && Keys(ordered) == q.ordered
            case Failed(f) => failure == Some(f)
    ensures forall c :: c in ordered ==> c.Key() in g && g[c.Key()] == c
  {
    var keys := KeysInOrder(g.Keys);
    var sorter := new Sorter(g);
    failure := sorter.VisitEvery(keys);
    ordered := sorter.ordered;
    assert Keys(ordered) == sorter.finished;
  }

  /** `order`: it succeeds exactly on well-formed, closed, acyclic tables, and then returns the
      table's own components, each once, everything a component follows before it, ties broken
      by name. */
  method Order(cs: seq<Component>, charts: set<string>) returns (r: Result<seq<Component>, OrderError>)
    ensures r.Ok? <==> WellFormedSet(cs, charts) && Closed(ByName(cs)) && Acyclic(ByName(cs))
    ensures r.Ok? ==> multiset(r.value) == multiset(cs) && IsOrderOf(ByName(cs), Keys(r.value))
    ensures r.Ok? ==> OrderKeys(ByName(cs)).Finished? && OrderKeys(ByName(cs)).progress.ordered == Keys(r.value)
    ensures r.Ok? ==> Told(ByName(cs), Keys(r.value))
    ensures r.Err? ==> RealFault(cs, charts, r.error)
    ensures r.Err? && r.error.NotOrderable? ==> OrderKeys(ByName(cs)) == Failed(r.error.failure)
  {
    var indexed := Index(cs, charts);
    if indexed.Err? {
      return Err(Refused(indexed.error.0, indexed.error.1));
    }
    OrderKeysCorrect(ByName(cs));
    hide Told;
    var failure, ordered := Sweep(indexed.value);
    if failure.Some? {
      return Err(NotOrderable(failure.value));
    }
    assert forall c :: c in cs ==> c.Key() in ByName(cs);
    assert forall c :: c in ordered ==> c.Key() in ByName(cs) && ByName(cs)[c.Key()] == c;
    OrderedComponents(cs, ordered);
    OrderTold(ByName(cs));
    r := Ok(ordered);
  }

  lemma {:induction false} KeysMembers(cs: seq<Component>, k: string)
    ensures k in Keys(cs) <==> exists i :: 0 <= i < |cs| && cs[i].Key() == k
  {
  }

  /** Components listed under exactly the table's names are exactly the table's components. */
  lemma OrderedComponents(cs: seq<Component>, ordered: seq<Component>)
    requires Distinct(cs) && DistinctKeys(cs) && Distinct(Keys(ordered))
    requires forall c :: c in cs ==> c.Key() in Keys(ordered)
    requires forall c :: c in ordered ==> c in cs
    ensures multiset(ordered) == multiset(cs)
  {
    DistinctByKey(ordered);
    forall c | c in cs
      ensures c in ordered
    {
      KeysMembers(ordered, c.Key());
      var i :| 0 <= i < |ordered| && ordered[i].Key() == c.Key();
      assert ordered[i] in ordered;
    }
    SameElements(ordered, cs);
  }

  lemma SameElements<T>(a: seq<T>, b: seq<T>)
    requires Distinct(a) && Distinct(b)
    requires forall x :: x in a <==> x in b
    ensures multiset(a) == multiset(b)
  {
    forall x
      ensures multiset(a)[x] == multiset(b)[x]
    {
      DistinctCount(a, x);
      DistinctCount(b, x);
    }
  }

  lemma DistinctByKey(cs: seq<Component>)
    requires Distinct(Keys(cs))
    ensures Distinct(cs)
  {
  }

  /** Listing the same components in another order yields the same sequence or the same failure. */
  lemma OrderIgnoresTableOrder(cs: seq<Component>, ds: seq<Component>, charts: set<string>)
    requires multiset(cs) == multiset(ds)
    requires WellFormedSet(cs, charts)
    ensures WellFormedSet(ds, charts)
    ensures OrderKeys(ByName(cs)) == OrderKeys(ByName(ds))
  {
    forall c
      ensures c in cs <==> c in ds
      ensures multiset(ds)[c] <= 1
    {
      assert c in multiset(cs) <==> c in multiset(ds);
      DistinctCount(cs, c);
    }
    DistinctFromCount(ds);
    assert ByName(cs) == ByName(ds);
  }
}
