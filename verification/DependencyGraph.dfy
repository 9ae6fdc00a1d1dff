/** Components keyed by name and the `After` relation between them
    (internal/pkg/layer/component.go). */
module DependencyGraph {
  import opened Ordering

  datatype Component = Component(
    name: string, chart: string, hasCreate: bool, after: seq<string>,
    hasStaticValues: bool, hasValuesFrom: bool)
  {
    function Key(): string {
      if name != "" then name else chart
    }
  }

  type Graph = map<string, Component>

  ghost predicate Edge(g: Graph, a: string, b: string) {
    a in g && b in g[a].after
  }

  /** Consecutive names are real `After` edges. */
  ghost predicate Walk(g: Graph, path: seq<string>) {
    forall i :: 0 <= i < |path| - 1 ==> Edge(g, path[i], path[i + 1])
  }

  /** Every `After` names a member of the set. */
  ghost predicate Closed(g: Graph) {
    forall a, b :: Edge(g, a, b) ==> b in g
  }

  ghost predicate ClosedWalk(g: Graph, path: seq<string>) {
    |path| > 1 && Walk(g, path) && path[0] == path[|path| - 1]
  }

  ghost predicate Acyclic(g: Graph) {
    forall path :: !ClosedWalk(g, path)
  }

  /** Every dependency of a listed name is listed strictly earlier. */
  ghost predicate DependenciesFirst(g: Graph, keys: seq<string>) {
    forall i, d :: 0 <= i < |keys| && Edge(g, keys[i], d) ==> d in keys[..i]
  }

  /** The order the documentation promises: each component once, everything it follows before it. */
  ghost predicate IsOrderOf(g: Graph, keys: seq<string>) {
    && Distinct(keys)
    && (forall k :: k in keys <==> k in g)
    && DependenciesFirst(g, keys)
  }

  datatype Failure =
    | Missing(key: string, dependency: string)
    | Cycle(path: seq<string>)

  /** A reported failure is a real one. */
  ghost predicate Genuine(g: Graph, f: Failure) {
    match f
    case Missing(key, dependency) => Edge(g, key, dependency) && dependency !in g
    case Cycle(path) => |path| > 1 && Walk(g, path) && path[|path| - 1] in path[..|path| - 1]
  }

  /** In an ordered set, walking along `After` only ever moves towards the front. */
  lemma {:induction false} WalksMoveForward(g: Graph, keys: seq<string>, path: seq<string>, at: nat)
    requires IsOrderOf(g, keys)
    requires |path| > 1 && Walk(g, path)
    requires at < |keys| && keys[at] == path[0]
    ensures path[|path| - 1] in keys[..at]
    decreases |path|
  {
    assert Edge(g, path[0], path[1]);
    assert path[1] in keys[..at];
    if |path| > 2 {
      var next :| 0 <= next < at && keys[next] == path[1];
      var rest := path[1..];
      assert Walk(g, rest) by {
        forall i | 0 <= i < |rest| - 1
          ensures Edge(g, rest[i], rest[i + 1])
        {
          assert Edge(g, path[i + 1], path[i + 2]);
        }
      }
      WalksMoveForward(g, keys, rest, next);
    }
  }

  /** Having an order is the same as being closed and acyclic; this is the easy half. */
  lemma OrderedIsAcyclic(g: Graph, keys: seq<string>)
    requires IsOrderOf(g, keys)
    ensures Closed(g) && Acyclic(g)
  {
    forall a, b | Edge(g, a, b)
      ensures b in g
    {
      assert a in keys;
      var i :| 0 <= i < |keys| && keys[i] == a;
      assert b in keys[..i];
    }
    forall path
      ensures !ClosedWalk(g, path)
    {
      if ClosedWalk(g, path) {
        assert Edge(g, path[0], path[1]);
        assert path[0] in keys;
        var i :| 0 <= i < |keys| && keys[i] == path[0];
        WalksMoveForward(g, keys, path, i);
        assert false;
      }
    }
  }

  /** A reported cycle closes: from the earlier occurrence of its last name on, it is a closed walk. */
  lemma CycleCloses(g: Graph, path: seq<string>)
    requires Genuine(g, Cycle(path))
    ensures exists i :: 0 <= i < |path| - 1 && ClosedWalk(g, path[i..])
  {
    var n := |path| - 1;
    var i :| 0 <= i < n && path[..n][i] == path[n];
    var loop := path[i..];
    forall j | 0 <= j < |loop| - 1
      ensures Edge(g, loop[j], loop[j + 1])
    {
      assert Edge(g, path[i + j], path[i + j + 1]);
    }
    assert ClosedWalk(g, loop);
  }

  lemma AppendKeepsFirst(g: Graph, keys: seq<string>, key: string)
    requires Distinct(keys) && DependenciesFirst(g, keys)
    requires key !in keys
    requires forall d :: Edge(g, key, d) ==> d in keys
    ensures Distinct(keys + [key]) && DependenciesFirst(g, keys + [key])
  {
    var longer := keys + [key];
    forall i, d | 0 <= i < |longer| && Edge(g, longer[i], d)
      ensures d in longer[..i]
    {
      assert longer[..i] == keys[..i];
      if i == |keys| { assert keys[..i] == keys; }
    }
  }

  /** The same names, each following the same names in whatever order they were written. */
  ghost predicate SameDependencies(g: Graph, h: Graph) {
    && g.Keys == h.Keys
    && forall k :: k in g ==> multiset(g[k].after) == multiset(h[k].after)
  }
}
