/** Creating an ordered component set (`Deploy`, `create` and `resourcesFor`,
    internal/pkg/layer/component.go). What a component's own functions do is a parameter. */
module Deployment {
  import opened Wrappers
  import opened Ordering
  import opened DependencyGraph
  import opened TieBreaks
  import opened ComponentOrder

  /** A component's `When`: absent or true, false, or an error reading the setting. */
  datatype Wish = Wanted | Unwanted | Unreadable

  datatype Made<+R> = Nothing | Made(resource: R) | Refused

  /** What the components' functions answer on this run. */
  datatype Engine<!R> = Engine(
    when: Component -> Wish,
    create: (Component, seq<R>) -> Made<R>,
    release: (Component, seq<R>) -> Made<R>)

  /** `create`. */
  function Create<R>(engine: Engine<R>, c: Component, dependencies: seq<R>): Made<R> {
    match engine.when(c)
    case Unreadable => Made.Refused
    case Unwanted => Nothing
    case Wanted => if c.hasCreate then engine.create(c, dependencies) else engine.release(c, dependencies)
  }

  /** The resources of `after`, in its order, skipping the absent. */
  ghost function Gathered<R>(deployed: map<string, R>, after: seq<string>): seq<R> {
    if after == [] then []
    else
      var last := after[|after| - 1];
      Gathered(deployed, after[..|after| - 1]) + if last in deployed then [deployed[last]] else []
  }

  method ResourcesFor<R>(deployed: map<string, R>, after: seq<string>) returns (out: seq<R>)
    ensures out == Gathered(deployed, after)
  {
    out := [];
    var i := 0;
    while i < |after|
      invariant 0 <= i <= |after|
      invariant out == Gathered(deployed, after[..i])
    {
      assert after[..i + 1][..i] == after[..i];
      if after[i] in deployed {
        out := out + [deployed[after[i]]];
      }
      i := i + 1;
    }
    assert after[..i] == after;
  }

  /** What is deployed after the first `n` components; a declined one is absent. */
  ghost function Deployed<R>(engine: Engine<R>, ordered: seq<Component>, n: nat): map<string, R>
    requires n <= |ordered|
  {
    if n == 0 then
      map[]
    else
      var before, c := Deployed(engine, ordered, n - 1), ordered[n - 1];
      match Create(engine, c, Gathered(before, c.after))
      case Made(resource) => before[c.Key() := resource]
      case _ => before
  }

  /** What component `i` is given when its turn comes. */
  ghost function Given<R>(engine: Engine<R>, ordered: seq<Component>, i: nat): seq<R>
    requires i < |ordered|
  {
    Gathered(Deployed(engine, ordered, i), ordered[i].after)
  }

  ghost function Answer<R>(engine: Engine<R>, ordered: seq<Component>, i: nat): Made<R>
    requires i < |ordered|
  {
    Create(engine, ordered[i], Given(engine, ordered, i))
  }

  datatype DeployError = NoProvider | NotOrdered(error: OrderError) | CreateFailed(key: string)

  /** The loop of `Deploy`: one call per component with `given[i]` handed to the i-th, stopping
      at the first error, which is then the last call's. */
  method CreateEach<R>(engine: Engine<R>, ordered: seq<Component>)
    returns (r: Result<map<string, R>, string>, given: seq<seq<R>>)
    ensures |given| <= |ordered| && forall i :: 0 <= i < |given| ==> given[i] == Given(engine, ordered, i)
    ensures r.Ok? ==>
      && |given| == |ordered| && r.value == Deployed(engine, ordered, |ordered|)
      && forall i :: 0 <= i < |ordered| ==> !Answer(engine, ordered, i).Refused?
    ensures r.Err? ==>
      && given != [] && r.error == ordered[|given| - 1].Key()
      && forall i :: 0 <= i < |given| ==> (Answer(engine, ordered, i).Refused? <==> i == |given| - 1)
  {
    hide Gathered;
    given := [];
    var deployed: map<string, R> := map[];
    var i := 0;
    while i < |ordered|
      invariant 0 <= i <= |ordered| && |given| == i
      invariant forall j :: 0 <= j < i ==> given[j] == Given(engine, ordered, j)
      invariant deployed == Deployed(engine, ordered, i)
      invariant forall j :: 0 <= j < i ==> !Answer(engine, ordered, j).Refused?
    {
      var component := ordered[i];
      var dependencies := ResourcesFor(deployed, component.after);
      given := given + [dependencies];
      var made := Create(engine, component, dependencies);
      if made.Refused? {
        return Err(component.Key()), given;
      }
      if made.Made? {
        deployed := deployed[component.Key() := made.resource];
      }
      i := i + 1;
    }
    r := Ok(deployed);
  }

  ghost predicate FromTable(g: Graph, ordered: seq<Component>) {
    forall i :: 0 <= i < |ordered| ==> ordered[i].Key() in g && g[ordered[i].Key()] == ordered[i]
  }

  /** `ordered` is the whole table, each component once, behind everything it follows and with
      ties broken by name. */
  ghost predicate Sequenced(cs: seq<Component>, charts: set<string>, ordered: seq<Component>) {
    && WellFormedSet(cs, charts)
    && multiset(ordered) == multiset(cs)
    && IsOrderOf(ByName(cs), Keys(ordered)) && Told(ByName(cs), Keys(ordered))
    && FromTable(ByName(cs), ordered)
  }

  lemma RearrangedFromTable(cs: seq<Component>, ordered: seq<Component>)
    requires DistinctKeys(cs) && multiset(ordered) == multiset(cs)
    ensures FromTable(ByName(cs), ordered)
  {
    forall i | 0 <= i < |ordered|
      ensures ordered[i].Key() in ByName(cs) && ByName(cs)[ordered[i].Key()] == ordered[i]
    {
      assert ordered[i] in multiset(cs);
    }
  }

  lemma OrderedIsSequenced(cs: seq<Component>, charts: set<string>, ordered: seq<Component>)
    requires WellFormedSet(cs, charts) && multiset(ordered) == multiset(cs)
    requires IsOrderOf(ByName(cs), Keys(ordered)) && Told(ByName(cs), Keys(ordered))
    ensures Sequenced(cs, charts, ordered)
  {
    hide Told, IsOrderOf, FromTable;
    RearrangedFromTable(cs, ordered);
  }

  /** `Deploy`: nothing is called without a provider or on a set that cannot be ordered. */
  method Deploy<R>(engine: Engine<R>, provider: bool, cs: seq<Component>, charts: set<string>)
    returns (r: Result<map<string, R>, DeployError>, ordered: seq<Component>, given: seq<seq<R>>)
    ensures r == Err(NoProvider) <==> !provider
    ensures r.Ok? || r.error.CreateFailed? ==> Sequenced(cs, charts, ordered)
    ensures r.Err? && !r.error.CreateFailed? ==> ordered == [] && given == []
    ensures r.Err? && r.error.NotOrdered? ==>
      RealFault(cs, charts, r.error.error) && !(WellFormedSet(cs, charts) && Closed(ByName(cs)) && Acyclic(ByName(cs)))
    ensures |given| <= |ordered| && forall i :: 0 <= i < |given| ==> given[i] == Given(engine, ordered, i)
    ensures r.Ok? ==>
      && |given| == |ordered| && r.value == Deployed(engine, ordered, |ordered|)
      && forall i :: 0 <= i < |ordered| ==> !Answer(engine, ordered, i).Refused?
    ensures r.Err? && r.error.CreateFailed? ==>
      && given != [] && r.error.key == ordered[|given| - 1].Key()
      && forall i :: 0 <= i < |given| ==> (Answer(engine, ordered, i).Refused? <==> i == |given| - 1)
  {
    hide *;
    ordered, given := [], [];
    if !provider {
      return Err(NoProvider), ordered, given;
    }
    var order := Order(cs, charts);
    if order.Err? {
      return Err(NotOrdered(order.error)), ordered, given;
    }
    ordered := order.value;
    OrderedIsSequenced(cs, charts, ordered);
    var created;
    created, given := CreateEach(engine, ordered);
    r := match created case Ok(deployed) => Ok(deployed) case Err(key) => Err(CreateFailed(key));
  }

  /** Nothing deployed later changes what an earlier name stands for. */
  lemma {:induction false} DeployedSettles<R>(engine: Engine<R>, ordered: seq<Component>, j: nat, i: nat, n: nat)
    requires j < i <= n <= |ordered| && Distinct(Keys(ordered))
    ensures var key := ordered[j].Key();
            var early, late := Deployed(engine, ordered, i), Deployed(engine, ordered, n);
            (key in early <==> key in late) && (key in early ==> early[key] == late[key])
    decreases n
  {
    hide Answer, Keys;
    if i < n {
      DeployedSettles(engine, ordered, j, i, n - 1);
      assert Keys(ordered)[j] != Keys(ordered)[n - 1];
    }
  }

  lemma {:induction false} GatheredAgrees<R>(a: map<string, R>, b: map<string, R>, after: seq<string>)
    requires forall d :: d in after ==> (d in a <==> d in b) && (d in a ==> a[d] == b[d])
    ensures Gathered(a, after) == Gathered(b, after)
    decreases |after|
  {
    if after != [] {
      GatheredAgrees(a, b, after[..|after| - 1]);
    }
  }

  /** A dependency's turn comes strictly before the dependent's. */
  lemma EarlierTurn(g: Graph, ordered: seq<Component>, i: nat, d: string) returns (j: nat)
    requires IsOrderOf(g, Keys(ordered)) && i < |ordered|
    requires Edge(g, ordered[i].Key(), d)
    ensures j < i && ordered[j].Key() == d
  {
    assert Edge(g, Keys(ordered)[i], d);
    j :| 0 <= j < i && Keys(ordered)[..i][j] == d;
  }

  /** Every component is given exactly what the finished deployment holds for its `After`
      names: nothing it follows is still to come, and nothing absent is handed over. */
  lemma GivenFromFinal<R>(engine: Engine<R>, g: Graph, ordered: seq<Component>, i: nat)
    requires IsOrderOf(g, Keys(ordered)) && FromTable(g, ordered) && i < |ordered|
    ensures Given(engine, ordered, i) == Gathered(Deployed(engine, ordered, |ordered|), ordered[i].after)
  {
    var early, late := Deployed(engine, ordered, i), Deployed(engine, ordered, |ordered|);
    forall d | d in ordered[i].after
      ensures (d in early <==> d in late) && (d in early ==> early[d] == late[d])
    {
      var j := EarlierTurn(g, ordered, i, d);
      DeployedSettles(engine, ordered, j, i, |ordered|);
    }
    GatheredAgrees(early, late, ordered[i].after);
  }

  /** The component is wanted and its own function makes `x` of what it is given. */
  ghost predicate Makes<R>(engine: Engine<R>, c: Component, given: seq<R>, x: R) {
    && engine.when(c) == Wanted
    && (if c.hasCreate then engine.create(c, given) else engine.release(c, given)) == Made(x)
  }

  /** A component's turn leaves its resource in the finished deployment exactly when it is wanted
      and its own function makes one out of what the deployment holds for its `After` names; one
      that is not wanted leaves none, whatever that function would make. */
  lemma HeldExactly<R>(engine: Engine<R>, g: Graph, ordered: seq<Component>, i: nat, x: R)
    requires IsOrderOf(g, Keys(ordered)) && FromTable(g, ordered) && i < |ordered|
    ensures var c, deployed := ordered[i], Deployed(engine, ordered, |ordered|);
      var given := Gathered(deployed, c.after);
      (c.Key() in deployed && deployed[c.Key()] == x) <==> Makes(engine, c, given, x)
  {
    OrderedDistinct(g, ordered);
    hide *;
    GivenFromFinal(engine, g, ordered, i);
    SettlesAfter(engine, ordered, i);
    HeldAtTurn(engine, ordered, i, x);
  }

  lemma OrderedDistinct(g: Graph, ordered: seq<Component>)
    requires IsOrderOf(g, Keys(ordered))
    ensures Distinct(Keys(ordered))
  {
  }

  lemma SettlesAfter<R>(engine: Engine<R>, ordered: seq<Component>, i: nat)
    requires i < |ordered| && Distinct(Keys(ordered))
    ensures var key, early, late := ordered[i].Key(), Deployed(engine, ordered, i + 1), Deployed(engine, ordered, |ordered|);
      (key in early <==> key in late) && (key in early ==> early[key] == late[key])
  {
    DeployedSettles(engine, ordered, i, i + 1, |ordered|);
  }

  lemma HeldAtTurn<R>(engine: Engine<R>, ordered: seq<Component>, i: nat, x: R)
    requires i < |ordered| && Distinct(Keys(ordered))
    ensures var c, deployed, given := ordered[i], Deployed(engine, ordered, i + 1), Given(engine, ordered, i);
      (c.Key() in deployed && deployed[c.Key()] == x) <==> Makes(engine, c, given, x)
  {
    NotYet(engine, ordered, i);
    hide Gathered, Keys;
  }

  lemma {:induction false} NotYetBy<R>(engine: Engine<R>, ordered: seq<Component>, i: nat, n: nat)
    requires n <= i < |ordered| && Distinct(Keys(ordered))
    ensures ordered[i].Key() !in Deployed(engine, ordered, n)
    decreases n
  {
    hide Keys, Create, Gathered;
    if n > 0 {
      NotYetBy(engine, ordered, i, n - 1);
      assert Keys(ordered)[n - 1] != Keys(ordered)[i];
    }
  }

  lemma NotYet<R>(engine: Engine<R>, ordered: seq<Component>, i: nat)
    requires i < |ordered| && Distinct(Keys(ordered))
    ensures ordered[i].Key() !in Deployed(engine, ordered, i)
  {
    NotYetBy(engine, ordered, i, i);
  }

  /** The loop is refused at a component exactly when its setting cannot be read, or it is wanted
      and its own function refuses. */
  lemma RefusedExactly<R>(engine: Engine<R>, ordered: seq<Component>, i: nat)
    requires i < |ordered|
    ensures var c, given := ordered[i], Given(engine, ordered, i);
      Answer(engine, ordered, i) == Made.Refused <==>
        || engine.when(c) == Unreadable
        || (engine.when(c) == Wanted
            && (if c.hasCreate then engine.create(c, given) else engine.release(c, given)) == Made.Refused)
  {
  }

  /** What is gathered for a list is gathered name by name, in the list's order. */
  lemma {:induction false} GatheredParts<R>(deployed: map<string, R>, a: seq<string>, b: seq<string>)
    ensures Gathered(deployed, a + b) == Gathered(deployed, a) + Gathered(deployed, b)
    decreases |b|
  {
    if b == [] {
      assert a + b == a;
    } else {
      var n := |b| - 1;
      GatheredParts(deployed, a, b[..n]);
      assert (a + b)[..|a| + n] == a + b[..n];
    }
  }

  lemma GatheredOne<R>(deployed: map<string, R>, name: string)
    ensures Gathered(deployed, [name]) == if name in deployed then [deployed[name]] else []
  {
  }

  lemma {:induction false} GatheredHolds<R>(deployed: map<string, R>, after: seq<string>, x: R)
    ensures x in Gathered(deployed, after) <==> exists d :: d in after && d in deployed && deployed[d] == x
    decreases |after|
  {
    if after != [] {
      GatheredHolds(deployed, after[..|after| - 1], x);
      assert after == after[..|after| - 1] + [after[|after| - 1]];
    }
  }

  /** The engine's dependency relation: `a` was given `b`'s resource. */
  ghost predicate Handed<R>(engine: Engine<R>, ordered: seq<Component>, a: string, b: string) {
    var deployed := Deployed(engine, ordered, |ordered|);
    b in deployed
    && exists i :: 0 <= i < |ordered| && ordered[i].Key() == a && deployed[b] in Given(engine, ordered, i)
  }

  ghost predicate HandedWalk<R>(engine: Engine<R>, ordered: seq<Component>, path: seq<string>) {
    forall i :: 0 <= i < |path| - 1 ==> Handed(engine, ordered, path[i], path[i + 1])
  }

  ghost predicate OwnResources<R>(deployed: map<string, R>) {
    forall a, b :: a in deployed && b in deployed && deployed[a] == deployed[b] ==> a == b
  }

  lemma HandedExactly<R>(engine: Engine<R>, g: Graph, ordered: seq<Component>, a: string, b: string)
    requires IsOrderOf(g, Keys(ordered)) && FromTable(g, ordered)
    requires OwnResources(Deployed(engine, ordered, |ordered|))
    ensures Handed(engine, ordered, a, b) <==> Edge(g, a, b) && b in Deployed(engine, ordered, |ordered|)
  {
    var deployed := Deployed(engine, ordered, |ordered|);
    if Handed(engine, ordered, a, b) {
      var i :| 0 <= i < |ordered| && ordered[i].Key() == a && deployed[b] in Given(engine, ordered, i);
      GivenFromFinal(engine, g, ordered, i);
      GatheredHolds(deployed, ordered[i].after, deployed[b]);
    }
    if Edge(g, a, b) && b in deployed {
      assert a in Keys(ordered);
      KeysMembers(ordered, a);
      var i :| 0 <= i < |ordered| && ordered[i].Key() == a;
      GivenFromFinal(engine, g, ordered, i);
      GatheredHolds(deployed, ordered[i].after, deployed[b]);
    }
  }

  /** What the engine knows of the `After` relation, over any distance: exactly the walks none
      of whose later names declined. */
  lemma HandedWalkExactly<R>(engine: Engine<R>, g: Graph, ordered: seq<Component>, path: seq<string>)
    requires IsOrderOf(g, Keys(ordered)) && FromTable(g, ordered)
    requires OwnResources(Deployed(engine, ordered, |ordered|))
    ensures HandedWalk(engine, ordered, path)
            <==> Walk(g, path) && forall i :: 1 <= i < |path| ==> path[i] in Deployed(engine, ordered, |ordered|)
  {
    forall i | 0 <= i < |path| - 1
      ensures Handed(engine, ordered, path[i], path[i + 1])
              <==> Edge(g, path[i], path[i + 1]) && path[i + 1] in Deployed(engine, ordered, |ordered|)
    {
      HandedExactly(engine, g, ordered, path[i], path[i + 1]);
    }
    if HandedWalk(engine, ordered, path) {
      forall i | 1 <= i < |path|
        ensures path[i] in Deployed(engine, ordered, |ordered|)
      {
        assert Handed(engine, ordered, path[i - 1], path[i - 1 + 1]);
      }
    }
  }

  lemma CreatedStays<R>(engine: Engine<R>, g: Graph, ordered: seq<Component>, key: string)
    requires IsOrderOf(g, Keys(ordered)) && key in g
    requires forall i :: 0 <= i < |ordered| ==> Answer(engine, ordered, i).Made?
    ensures key in Deployed(engine, ordered, |ordered|)
  {
    KeysMembers(ordered, key);
    var j :| 0 <= j < |ordered| && ordered[j].Key() == key;
    hide Answer, Deployed, Keys;
    MadeIsDeployed(engine, ordered, j);
    DeployedSettles(engine, ordered, j, j + 1, |ordered|);
  }

  lemma MadeIsDeployed<R>(engine: Engine<R>, ordered: seq<Component>, j: nat)
    requires j < |ordered| && Answer(engine, ordered, j).Made?
    ensures ordered[j].Key() in Deployed(engine, ordered, j + 1)
  {
  }

  /** When nothing declines, the engine's relation reaches exactly as far as `After` does. */
  lemma NothingLostWithoutDecliners<R>(engine: Engine<R>, g: Graph, ordered: seq<Component>, path: seq<string>)
    requires IsOrderOf(g, Keys(ordered)) && FromTable(g, ordered)
    requires OwnResources(Deployed(engine, ordered, |ordered|))
    requires forall i :: 0 <= i < |ordered| ==> Answer(engine, ordered, i).Made?
    ensures HandedWalk(engine, ordered, path) <==> Walk(g, path)
  {
    HandedWalkExactly(engine, g, ordered, path);
    OrderedIsAcyclic(g, Keys(ordered));
    if Walk(g, path) {
      forall i | 1 <= i < |path|
        ensures path[i] in Deployed(engine, ordered, |ordered|)
      {
        assert Edge(g, path[i - 1], path[i - 1 + 1]);
        CreatedStays(engine, g, ordered, path[i]);
      }
    }
  }

  /** A declined component passes nothing on: what follows only it is given nothing, although
      the table puts both behind a component that was created. */
  lemma DeclinedCutsTheChain<R>(engine: Engine<R>, g: Graph, ordered: seq<Component>, i: nat, b: string, c: string)
    requires IsOrderOf(g, Keys(ordered)) && FromTable(g, ordered) && i < |ordered|
    requires ordered[i].after == [b] && b !in Deployed(engine, ordered, |ordered|)
    requires Edge(g, b, c)
    ensures Walk(g, [ordered[i].Key(), b, c]) && Given(engine, ordered, i) == []
  {
    GivenFromFinal(engine, g, ordered, i);
    GatheredOne(Deployed(engine, ordered, |ordered|), b);
    assert Edge(g, ordered[i].Key(), b);
    hide *;
    TwoSteps(g, ordered[i].Key(), b, c);
  }

  lemma TwoSteps(g: Graph, a: string, b: string, c: string)
    requires Edge(g, a, b) && Edge(g, b, c)
    ensures Walk(g, [a, b, c])
  {
  }
}
