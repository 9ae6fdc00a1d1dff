/** Which order the traversal produces (internal/pkg/layer/component.go): how two components that
    neither follows the other are told apart. */
module TieBreaks {
  import opened Ordering
  import opened DependencyGraph
  import opened Traversal
  import opened TraversalProof

  /** `a` is `b`, or follows it over some distance. */
  ghost predicate Leads(g: Graph, a: string, b: string) {
    exists path :: LeadsAlong(g, path, a, b)
  }

  ghost predicate LeadsAlong(g: Graph, path: seq<string>, a: string, b: string) {
    path != [] && Walk(g, path) && path[0] == a && path[|path| - 1] == b
  }

  /** `x` is listed and `y` is not listed yet. */
  ghost predicate Ahead(keys: seq<string>, x: string, y: string) {
    exists n: nat :: n <= |keys| && x in keys[..n] && y !in keys[..n]
  }

  ghost predicate StandsBefore(keys: seq<string>, x: string, y: string) {
    exists i, j :: 0 <= i < j < |keys| && keys[i] == x && keys[j] == y
  }

  /** The names from which `x` or `y` can be reached. */
  ghost predicate LeadsToEither(g: Graph, u: string, x: string, y: string) {
    Leads(g, u, x) || Leads(g, u, y)
  }

  ghost predicate First(g: Graph, names: set<string>, u: string, x: string, y: string) {
    && u in names && LeadsToEither(g, u, x, y)
    && forall n :: n in names && LeadsToEither(g, n, x, y) ==> n == u || Smaller(u, n)
  }

  function Following(g: Graph, u: string): set<string>
    requires u in g
  {
    set d | d in g[u].after
  }

  /** Of the names take the smallest that leads to `x` or `y`. While it leads to both, go on with
      the names it follows; the last leads to `x` alone. */
  ghost predicate Decides(g: Graph, names: set<string>, chain: seq<string>, x: string, y: string)
    decreases |chain|
  {
    && chain != [] && chain[0] in g && First(g, names, chain[0], x, y) && Descends(g, chain, x, y)
  }

  ghost predicate Descends(g: Graph, chain: seq<string>, x: string, y: string)
    requires chain != [] && chain[0] in g
    decreases |chain|, 0
  {
    && Leads(g, chain[0], x)
    && if |chain| == 1 then !Leads(g, chain[0], y)
       else Leads(g, chain[0], y) && Decides(g, Following(g, chain[0]), chain[1..], x, y)
  }

  // Walks.

  lemma LeadsSelf(g: Graph, a: string)
    ensures Leads(g, a, a)
  {
    assert LeadsAlong(g, [a], a, a);
  }

  lemma LeadsOn(g: Graph, a: string, b: string, c: string)
    requires Edge(g, a, b) && Leads(g, b, c)
    ensures Leads(g, a, c)
  {
    var path :| LeadsAlong(g, path, b, c);
    var longer := [a] + path;
    forall i | 0 <= i < |longer| - 1
      ensures Edge(g, longer[i], longer[i + 1])
    {
      if i > 0 { assert Edge(g, path[i - 1], path[i - 1 + 1]); }
    }
    assert LeadsAlong(g, longer, a, c);
  }

  /** A walk to another name starts with an edge, and ends with one. */
  lemma LeadsApart(g: Graph, a: string, b: string) returns (next: string, last: string)
    requires Leads(g, a, b) && a != b
    ensures Edge(g, a, next) && Leads(g, next, b)
    ensures Leads(g, a, last) && Edge(g, last, b)
  {
    var path :| LeadsAlong(g, path, a, b);
    var n := |path| - 1;
    next, last := path[1], path[n - 1];
    assert Edge(g, path[0], path[0 + 1]) && Edge(g, path[n - 1], path[n - 1 + 1]);
    var rest, init := path[1..], path[..n];
    forall i | 0 <= i < |rest| - 1
      ensures Edge(g, rest[i], rest[i + 1])
    {
      assert Edge(g, path[i + 1], path[i + 1 + 1]);
    }
    forall i | 0 <= i < |init| - 1
      ensures Edge(g, init[i], init[i + 1])
    {
      assert Edge(g, path[i], path[i + 1]);
    }
    assert LeadsAlong(g, rest, next, b) && LeadsAlong(g, init, a, last);
  }

  lemma LeadsThenEdge(g: Graph, a: string, b: string, c: string)
    requires Leads(g, a, b) && Edge(g, b, c)
    ensures Leads(g, a, c)
  {
    var path :| LeadsAlong(g, path, a, b);
    var longer := path + [c];
    forall i | 0 <= i < |longer| - 1
      ensures Edge(g, longer[i], longer[i + 1])
    {
      if i < |path| - 1 { assert Edge(g, path[i], path[i + 1]); }
    }
    assert LeadsAlong(g, longer, a, c);
  }

  lemma NoWayBack(g: Graph, x: string, d: string)
    requires Acyclic(g) && Edge(g, x, d)
    ensures !Leads(g, d, x)
  {
    if path :| LeadsAlong(g, path, d, x) {
      var closed := [x] + path;
      forall i | 0 <= i < |closed| - 1
        ensures Edge(g, closed[i], closed[i + 1])
      {
        if i > 0 { assert Edge(g, path[i - 1], path[i - 1 + 1]); }
      }
      assert ClosedWalk(g, closed);
    }
  }

  /** What is listed has everything it leads to listed no later. */
  lemma {:induction false} LedListed(g: Graph, keys: seq<string>, path: seq<string>, n: nat)
    requires DependenciesFirst(g, keys) && n <= |keys|
    requires path != [] && Walk(g, path) && path[0] in keys[..n]
    ensures path[|path| - 1] in keys[..n]
    decreases |path|
  {
    if |path| > 1 {
      var i :| 0 <= i < n && keys[..n][i] == path[0];
      assert Edge(g, path[0], path[0 + 1]);
      assert Edge(g, keys[i], path[1]);
      assert path[1] in keys[..i];
      var j :| 0 <= j < i && keys[..i][j] == path[1];
      assert keys[..n][j] == path[1];
      var rest := path[1..];
      forall k | 0 <= k < |rest| - 1
        ensures Edge(g, rest[k], rest[k + 1])
      {
        assert Edge(g, path[k + 1], path[k + 1 + 1]);
      }
      LedListed(g, keys, rest, n);
    }
  }

  lemma LeadsListed(g: Graph, keys: seq<string>, u: string, x: string)
    requires DependenciesFirst(g, keys) && u in keys && Leads(g, u, x)
    ensures x in keys
  {
    var path :| LeadsAlong(g, path, u, x);
    assert keys[..|keys|] == keys;
    LedListed(g, keys, path, |keys|);
  }

  // A visit lists what its name leads to and nothing else.

  lemma {:induction false} VisitLists(g: Graph, key: string, path: seq<string>, p: Progress, k: string)
    requires key in g && Visit(g, key, path, p).Finished?
    requires k in Visit(g, key, path, p).progress.ordered && k !in p.ordered
    ensures Leads(g, key, k)
    decreases |g.Keys - p.marks.Keys|, 0
  {
    LeadsSelf(g, key);
    if key !in p.marks && k != key {
      var entered := p.(marks := p.marks[key := Visiting]);
      MarkingShrinks(g, p, key);
      SortKeepsElements(g[key].after);
      VisitEachLists(g, key, Sort(g[key].after), path + [key], entered, k);
    }
  }

  lemma {:induction false} VisitEachLists(
    g: Graph, key: string, deps: seq<string>, path: seq<string>, p: Progress, k: string)
    requires forall d :: d in deps ==> Edge(g, key, d)
    requires VisitEach(g, key, deps, path, p).Finished?
    requires k in VisitEach(g, key, deps, path, p).progress.ordered && k !in p.ordered
    ensures Leads(g, key, k)
    decreases |g.Keys - p.marks.Keys|, |deps|
  {
    if deps != [] {
      var q := Visit(g, deps[0], path, p).progress;
      VisitedShrinks(g, p, q);
      if k in q.ordered {
        VisitLists(g, deps[0], path, p, k);
        LeadsOn(g, key, deps[0], k);
      } else {
        VisitEachLists(g, key, deps[1..], path, q, k);
      }
    }
  }

  /** Of a visit that leads to neither: `x` stays unvisited and `y` unlisted. */
  lemma VisitPasses(g: Graph, key: string, path: seq<string>, p: Progress, x: string, y: string)
    requires key in g && Consistent(g, p, path) && (path != [] ==> Edge(g, path[|path| - 1], key))
    requires Visit(g, key, path, p).Finished? && !LeadsToEither(g, key, x, y)
    requires x !in p.marks && y !in p.ordered
    ensures var q := Visit(g, key, path, p).progress; Consistent(g, q, path) && x !in q.marks && y !in q.ordered
  {
    VisitCorrect(g, key, path, p);
    var q := Visit(g, key, path, p).progress;
    if y in q.ordered { VisitLists(g, key, path, p, y); }
    if x in q.ordered {
      assert x !in p.ordered;
      VisitLists(g, key, path, p, x);
    }
    assert x !in path;
  }

  /** Of a visit that leads to `x` alone: it lists `x` and leaves `y` unlisted. */
  lemma VisitSplits(g: Graph, key: string, path: seq<string>, p: Progress, x: string, y: string)
    requires key in g && Consistent(g, p, path) && (path != [] ==> Edge(g, path[|path| - 1], key))
    requires Visit(g, key, path, p).Finished? && Leads(g, key, x) && !Leads(g, key, y)
    requires y !in p.ordered
    ensures Ahead(Visit(g, key, path, p).progress.ordered, x, y)
  {
    VisitCorrect(g, key, path, p);
    var q := Visit(g, key, path, p).progress;
    LeadsListed(g, q.ordered, key, x);
    if y in q.ordered { VisitLists(g, key, path, p, y); }
    assert q.ordered[..|q.ordered|] == q.ordered;
  }

  lemma AheadStays(keys: seq<string>, longer: seq<string>, x: string, y: string)
    requires keys <= longer && Ahead(keys, x, y)
    ensures Ahead(longer, x, y)
  {
    var n: nat :| n <= |keys| && x in keys[..n] && y !in keys[..n];
    assert longer[..n] == keys[..n];
  }

  /** In a sorted list the first that leads to either comes before all others that do. */
  lemma SortedFirst(g: Graph, names: set<string>, deps: seq<string>, u: string, x: string, y: string)
    requires Sorted(deps) && u in deps && First(g, names, u, x, y) && deps[0] in names && deps[0] != u
    ensures !LeadsToEither(g, deps[0], x, y)
  {
    var i :| 0 <= i < |deps| && deps[i] == u;
    LeIsSmaller(deps[0], u);
    if Smaller(u, deps[0]) { SmallerOneWay(u, deps[0]); }
  }

  lemma {:induction false} VisitDecides(
    g: Graph, path: seq<string>, p: Progress, chain: seq<string>, x: string, y: string)
    requires chain != [] && chain[0] in g && Descends(g, chain, x, y) && Acyclic(g)
    requires Consistent(g, p, path) && (path != [] ==> Edge(g, path[|path| - 1], chain[0]))
    requires Visit(g, chain[0], path, p).Finished?
    requires x !in p.marks && y !in p.ordered
    ensures Ahead(Visit(g, chain[0], path, p).progress.ordered, x, y)
    decreases |g.Keys - p.marks.Keys|, 0
  {
    var key := chain[0];
    if |chain| == 1 {
      VisitSplits(g, key, path, p, x, y);
    } else {
      hide Decides;
      var next := FirstOfChain(g, Following(g, key), chain[1..], x, y);
      assert Edge(g, key, next);
      if key in p.marks {
        DoneLeads(g, key, path, p, x);
      } else {
        if key == x { NoWayBack(g, x, next); }
        var entered, extended := Entering(g, key, path, p);
        SortKeepsElements(g[key].after);
        var deps := Sort(g[key].after);
        VisitEachDecides(g, key, deps, extended, entered, chain[1..], x, y);
        var q := VisitEach(g, key, deps, extended, entered).progress;
        AheadStays(q.ordered, q.ordered + [key], x, y);
      }
    }
  }

  lemma FirstOfChain(g: Graph, names: set<string>, chain: seq<string>, x: string, y: string) returns (next: string)
    requires Decides(g, names, chain, x, y)
    ensures next == chain[0] && next in names && next in g && First(g, names, next, x, y) && Leads(g, next, x)
    ensures Descends(g, chain, x, y)
  {
    next := chain[0];
  }

  lemma DoneLeads(g: Graph, key: string, path: seq<string>, p: Progress, x: string)
    requires key in g && key in p.marks && Consistent(g, p, path) && Visit(g, key, path, p).Finished? && Leads(g, key, x)
    ensures x in p.marks
  {
    LeadsListed(g, p.ordered, key, x);
  }

  lemma Entering(g: Graph, key: string, path: seq<string>, p: Progress) returns (entered: Progress, extended: seq<string>)
    requires key in g && key !in p.marks && Consistent(g, p, path) && (path != [] ==> Edge(g, path[|path| - 1], key))
    ensures entered == p.(marks := p.marks[key := Visiting]) && extended == path + [key]
    ensures Consistent(g, entered, extended)
    ensures |g.Keys - entered.marks.Keys| < |g.Keys - p.marks.Keys|
  {
    entered, extended := p.(marks := p.marks[key := Visiting]), path + [key];
    MarkingShrinks(g, p, key);
    WalkExtends(g, path, key);
    hide *;
    MarkedConsistent(g, key, path, p);
  }

  lemma MarkedConsistent(g: Graph, key: string, path: seq<string>, p: Progress)
    requires key in g && key !in p.marks && Consistent(g, p, path) && Walk(g, path + [key])
    ensures Consistent(g, p.(marks := p.marks[key := Visiting]), path + [key])
  {
    hide Edge, Walk, DependenciesFirst, Distinct;
    var marks := p.marks[key := Visiting];
    assert forall k :: k in path + [key] <==> k in path || k == key;
    assert key !in p.ordered;
    assert forall k :: k != key ==> (k in marks <==> k in p.marks) && (k in p.marks ==> marks[k] == p.marks[k]);
  }

  lemma WalkExtends(g: Graph, path: seq<string>, key: string)
    requires Walk(g, path) && (path != [] ==> Edge(g, path[|path| - 1], key))
    ensures Walk(g, path + [key])
  {
    var extended := path + [key];
    forall i | 0 <= i < |extended| - 1
      ensures Edge(g, extended[i], extended[i + 1])
    {
      if i < |path| - 1 { assert Edge(g, path[i], path[i + 1]); }
    }
  }

  /** One turn of the loop over the dependencies. */
  lemma EachTurn(g: Graph, key: string, deps: seq<string>, path: seq<string>, p: Progress) returns (q: Progress)
    requires key in g && path != [] && path[|path| - 1] == key && deps != []
    requires forall d :: d in deps ==> Edge(g, key, d)
    requires Consistent(g, p, path) && VisitEach(g, key, deps, path, p).Finished?
    ensures deps[0] in g && Visit(g, deps[0], path, p) == Finished(q)
    ensures VisitEach(g, key, deps, path, p) == VisitEach(g, key, deps[1..], path, q)
    ensures Consistent(g, q, path) && q.ordered <= VisitEach(g, key, deps, path, p).progress.ordered
    ensures |g.Keys - q.marks.Keys| <= |g.Keys - p.marks.Keys|
  {
    q := Visit(g, deps[0], path, p).progress;
    VisitedShrinks(g, p, q);
    VisitCorrect(g, deps[0], path, p);
    VisitEachCorrect(g, key, deps[1..], path, q);
  }

  lemma AllTurn(g: Graph, keys: seq<string>, p: Progress) returns (q: Progress)
    requires keys != [] && forall k :: k in keys ==> k in g
    requires Consistent(g, p, []) && VisitAll(g, keys, p).Finished?
    ensures Visit(g, keys[0], [], p) == Finished(q)
    ensures VisitAll(g, keys, p) == VisitAll(g, keys[1..], q)
    ensures Consistent(g, q, []) && q.ordered <= VisitAll(g, keys, p).progress.ordered
  {
    q := Visit(g, keys[0], [], p).progress;
    VisitCorrect(g, keys[0], [], p);
    VisitAllCorrect(g, keys[1..], q);
  }

  lemma SortedRest(s: seq<string>)
    requires Sorted(s) && s != []
    ensures Sorted(s[1..]) && forall d :: d in s <==> d == s[0] || d in s[1..]
  {
    assert s == [s[0]] + s[1..];
  }

  lemma {:induction false} VisitEachDecides(
    g: Graph, key: string, deps: seq<string>, path: seq<string>, p: Progress, chain: seq<string>, x: string, y: string)
    requires key in g && path != [] && path[|path| - 1] == key && Acyclic(g)
    requires Sorted(deps) && forall d :: d in deps ==> Edge(g, key, d)
    requires Decides(g, Following(g, key), chain, x, y) && chain[0] in deps
    requires Consistent(g, p, path) && VisitEach(g, key, deps, path, p).Finished?
    requires x !in p.marks && y !in p.ordered
    ensures Ahead(VisitEach(g, key, deps, path, p).progress.ordered, x, y)
    decreases |g.Keys - p.marks.Keys|, |deps|
  {
    var q := EachTurn(g, key, deps, path, p);
    var next := FirstOfChain(g, Following(g, key), chain, x, y);
    SortedRest(deps);
    assert Edge(g, key, deps[0]) && deps[0] in Following(g, key);
    hide Decides, Visit, VisitEach, Consistent, First, Sorted, Following, LeadsToEither, Acyclic, Descends;
    if deps[0] == next {
      VisitDecides(g, path, p, chain, x, y);
      AheadStays(q.ordered, VisitEach(g, key, deps, path, p).progress.ordered, x, y);
    } else {
      SortedFirst(g, Following(g, key), deps, next, x, y);
      VisitPasses(g, deps[0], path, p, x, y);
      VisitEachDecides(g, key, deps[1..], path, q, chain, x, y);
    }
  }

  lemma {:induction false} VisitAllDecides(
    g: Graph, keys: seq<string>, p: Progress, chain: seq<string>, x: string, y: string)
    requires Acyclic(g) && Sorted(keys) && forall k :: k in keys ==> k in g
    requires Decides(g, g.Keys, chain, x, y) && chain[0] in keys
    requires Consistent(g, p, []) && VisitAll(g, keys, p).Finished?
    requires x !in p.marks && y !in p.ordered
    ensures Ahead(VisitAll(g, keys, p).progress.ordered, x, y)
    decreases |keys|
  {
    var q := AllTurn(g, keys, p);
    var next := FirstOfChain(g, g.Keys, chain, x, y);
    SortedRest(keys);
    hide Decides, Visit, VisitAll, Consistent, First, Sorted, LeadsToEither, Acyclic, Descends;
    if keys[0] == next {
      VisitDecides(g, [], p, chain, x, y);
      AheadStays(q.ordered, VisitAll(g, keys, p).progress.ordered, x, y);
    } else {
      SortedFirst(g, g.Keys, keys, next, x, y);
      VisitPasses(g, keys[0], [], p, x, y);
      VisitAllDecides(g, keys[1..], q, chain, x, y);
    }
  }

  lemma AheadStands(g: Graph, keys: seq<string>, x: string, y: string)
    requires IsOrderOf(g, keys) && y in g && Ahead(keys, x, y)
    ensures StandsBefore(keys, x, y)
  {
    var n: nat :| n <= |keys| && x in keys[..n] && y !in keys[..n];
    var i :| 0 <= i < n && keys[..n][i] == x;
    assert y in keys;
    var j :| 0 <= j < |keys| && keys[j] == y;
    assert keys[i] == x;
  }

  const NOTHING := Progress(map[], [])

  lemma SearchStarts(g: Graph)
    ensures var keys := SortedKeys(g.Keys);
      Sorted(keys) && (forall k :: k in keys <==> k in g) && OrderKeys(g) == VisitAll(g, keys, NOTHING)
    ensures Consistent(g, NOTHING, [])
  {
    SortedKeysSorted(g.Keys);
  }

  /** A chain that decides for `x` puts `x` before `y`. */
  lemma OrderDecides(g: Graph, chain: seq<string>, x: string, y: string)
    requires Closed(g) && Acyclic(g) && y in g && Decides(g, g.Keys, chain, x, y)
    ensures OrderKeys(g).Finished? && StandsBefore(OrderKeys(g).progress.ordered, x, y)
  {
    assert x !in NOTHING.marks && y !in NOTHING.ordered;
    var next := FirstOfChain(g, g.Keys, chain, x, y);
    hide *;
    OrderKeysCorrect(g);
    SearchStarts(g);
    VisitAllDecides(g, SortedKeys(g.Keys), NOTHING, chain, x, y);
    AheadStands(g, OrderKeys(g).progress.ordered, x, y);
  }

  /** What follows stands behind. */
  lemma OrderFollows(g: Graph, keys: seq<string>, x: string, y: string)
    requires IsOrderOf(g, keys) && y in g && Leads(g, y, x) && x != y
    ensures StandsBefore(keys, x, y)
  {
    assert y in keys;
    var j :| 0 <= j < |keys| && keys[j] == y;
    var path :| LeadsAlong(g, path, y, x);
    WalksMoveForward(g, keys, path, j);
    var i :| 0 <= i < j && keys[..j][i] == x;
    assert keys[i] == x;
  }

  // Two components neither of which follows the other always have a chain.

  lemma FirstExists(g: Graph, names: set<string>, x: string, y: string) returns (u: string)
    requires exists n :: n in names && LeadsToEither(g, n, x, y)
    ensures First(g, names, u, x, y)
  {
    var leading := set n | n in names && LeadsToEither(g, n, x, y);
    var some :| some in names && LeadsToEither(g, some, x, y);
    assert some in leading;
    u := Least(leading);
    forall n | n in names && LeadsToEither(g, n, x, y)
      ensures n == u || Smaller(u, n)
    {
      assert n in leading;
      LeIsSmaller(u, n);
    }
  }

  lemma FirstEither(g: Graph, names: set<string>, u: string, x: string, y: string)
    requires First(g, names, u, x, y)
    ensures First(g, names, u, y, x)
  {
    assert forall n :: LeadsToEither(g, n, x, y) <==> LeadsToEither(g, n, y, x);
  }

  lemma {:induction false} ChainExists(g: Graph, keys: seq<string>, n: nat, names: set<string>, x: string, y: string)
    returns (chain: seq<string>)
    requires IsOrderOf(g, keys) && n <= |keys| && forall m :: m in names ==> m in keys[..n]
    requires exists m :: m in names && LeadsToEither(g, m, x, y)
    requires !Leads(g, x, y) && !Leads(g, y, x)
    ensures Decides(g, names, chain, x, y) || Decides(g, names, chain, y, x)
    decreases n
  {
    var u := FirstExists(g, names, x, y);
    FirstEither(g, names, u, x, y);
    var i :| 0 <= i < n && keys[..n][i] == u;
    assert keys[i] == u && u in keys;
    chain := [u];
    if Leads(g, u, x) && Leads(g, u, y) {
      assert u != x && u != y;
      var next, _ := LeadsApart(g, u, x);
      assert next in Following(g, u) && LeadsToEither(g, next, x, y);
      forall m | m in Following(g, u)
        ensures m in keys[..i]
      {
        assert Edge(g, keys[i], m);
      }
      var rest := ChainExists(g, keys, i, Following(g, u), x, y);
      chain := [u] + rest;
      assert chain[1..] == rest;
    }
  }

  /** So any two of an accepted set are told apart: one follows the other, or a chain decides. */
  lemma Comparable(g: Graph, keys: seq<string>, x: string, y: string) returns (chain: seq<string>)
    requires IsOrderOf(g, keys) && x in g && y in g && x != y
    ensures Leads(g, x, y) || Leads(g, y, x) || Decides(g, g.Keys, chain, x, y) || Decides(g, g.Keys, chain, y, x)
  {
    chain := [];
    if !Leads(g, x, y) && !Leads(g, y, x) {
      LeadsSelf(g, x);
      assert x in g.Keys && LeadsToEither(g, x, x, y);
      assert keys[..|keys|] == keys;
      chain := ChainExists(g, keys, |keys|, g.Keys, x, y);
    }
  }

  // Ties by name.

  /** `x` has the smaller name, does not follow `y`, and is followed by all that follow `y`. */
  ghost predicate Tied(g: Graph, x: string, y: string) {
    && x in g && y in g && Smaller(x, y)
    && !Leads(g, x, y)
    && forall z :: Edge(g, z, y) ==> Edge(g, z, x)
  }

  lemma {:induction false} TiedChain(g: Graph, names: set<string>, chain: seq<string>, x: string, y: string)
    requires Tied(g, x, y) && (y in names ==> x in names)
    ensures !Decides(g, names, chain, y, x)
    decreases |chain|
  {
    if Decides(g, names, chain, y, x) {
      var u := FirstOfChain(g, names, chain, y, x);
      if |chain| > 1 {
        assert y in Following(g, u) ==> Edge(g, u, y);
        TiedChain(g, Following(g, u), chain[1..], x, y);
      } else if u == y {
        LeadsSelf(g, x);
        assert LeadsToEither(g, x, y, x);
        SmallerOneWay(x, y);
        assert false;
      } else {
        var _, z := LeadsApart(g, u, y);
        LeadsThenEdge(g, u, z, x);
        assert false;
      }
    }
  }

  /** Ties break by name. */
  lemma TiesByName(g: Graph, x: string, y: string)
    requires Closed(g) && Acyclic(g) && Tied(g, x, y)
    ensures OrderKeys(g).Finished? && StandsBefore(OrderKeys(g).progress.ordered, x, y)
  {
    OrderKeysCorrect(g);
    var keys := OrderKeys(g).progress.ordered;
    SmallerOneWay(x, y);
    if Leads(g, y, x) {
      OrderFollows(g, keys, x, y);
    } else {
      var chain := Comparable(g, keys, x, y);
      TiedChain(g, g.Keys, chain, x, y);
      OrderDecides(g, chain, x, y);
    }
  }

  /** Everything that is told of the sequence: ties break by name, and a chain decides. */
  ghost predicate Told(g: Graph, keys: seq<string>) {
    && (forall x, y :: Tied(g, x, y) ==> StandsBefore(keys, x, y))
    && forall chain, x, y :: y in g && Decides(g, g.Keys, chain, x, y) ==> StandsBefore(keys, x, y)
  }

  lemma OrderTold(g: Graph)
    requires Closed(g) && Acyclic(g)
    ensures OrderKeys(g).Finished? && Told(g, OrderKeys(g).progress.ordered)
  {
    OrderKeysCorrect(g);
    hide OrderKeys, Tied, Decides, StandsBefore;
    forall x, y | Tied(g, x, y)
      ensures StandsBefore(OrderKeys(g).progress.ordered, x, y)
    {
      TiesByName(g, x, y);
    }
    forall chain, x, y | y in g && Decides(g, g.Keys, chain, x, y)
      ensures StandsBefore(OrderKeys(g).progress.ordered, x, y)
    {
      OrderDecides(g, chain, x, y);
    }
  }

  /** Told so much, a sequence is the only one. */
  lemma ToldOnce(g: Graph, a: seq<string>, b: seq<string>)
    requires IsOrderOf(g, a) && IsOrderOf(g, b) && Told(g, a) && Told(g, b)
    ensures a == b
  {
    hide Told, IsOrderOf;
    forall x, y | StandsBefore(a, x, y)
      ensures StandsBefore(b, x, y)
    {
      SameSide(g, a, b, x, y);
    }
    forall x, y | StandsBefore(b, x, y)
      ensures StandsBefore(a, x, y)
    {
      SameSide(g, b, a, x, y);
    }
    SameOrder(g, a, b);
  }

  lemma SameSide(g: Graph, a: seq<string>, b: seq<string>, x: string, y: string)
    requires IsOrderOf(g, a) && IsOrderOf(g, b) && Told(g, a) && Told(g, b) && StandsBefore(a, x, y)
    ensures StandsBefore(b, x, y)
  {
    var i, j :| 0 <= i < j < |a| && a[i] == x && a[j] == y;
    assert x in a && y in a;
    var chain := Comparable(g, a, x, y);
    hide Decides, DependenciesFirst;
    if Leads(g, x, y) {
      OrderFollows(g, a, y, x);
      OneSide(a, x, y);
    } else if Leads(g, y, x) {
      OrderFollows(g, b, x, y);
    } else if Decides(g, g.Keys, chain, y, x) {
      OneSide(a, x, y);
    }
  }

  lemma OneSide(keys: seq<string>, x: string, y: string)
    requires Distinct(keys) && StandsBefore(keys, x, y)
    ensures !StandsBefore(keys, y, x)
  {
  }

  /** Two lists of the same names with the same pairs in order are the same list. */
  lemma {:induction false} SameOrder(g: Graph, a: seq<string>, b: seq<string>)
    requires IsOrderOf(g, a) && IsOrderOf(g, b)
    requires forall x, y :: StandsBefore(a, x, y) <==> StandsBefore(b, x, y)
    ensures a == b
  {
    SameLength(g, a, b);
    forall n: nat | n <= |a|
      ensures a[..n] == b[..n]
    {
      SamePrefix(g, a, b, n);
    }
    assert a[..|a|] == a && b[..|a|] == b;
  }

  lemma SameLength(g: Graph, a: seq<string>, b: seq<string>)
    requires IsOrderOf(g, a) && IsOrderOf(g, b)
    ensures |a| == |b|
  {
    forall x
      ensures multiset(a)[x] == multiset(b)[x]
    {
      DistinctCount(a, x);
      DistinctCount(b, x);
    }
    assert multiset(a) == multiset(b);
  }

  lemma {:induction false} SamePrefix(g: Graph, a: seq<string>, b: seq<string>, n: nat)
    requires IsOrderOf(g, a) && IsOrderOf(g, b) && |a| == |b| && n <= |a|
    requires forall x, y :: StandsBefore(a, x, y) <==> StandsBefore(b, x, y)
    ensures a[..n] == b[..n]
    decreases n
  {
    if n > 0 {
      var m := n - 1;
      SamePrefix(g, a, b, m);
      assert a[m] in b && b[m] in a;
      var j :| 0 <= j < |b| && b[j] == a[m];
      var i :| 0 <= i < |a| && a[i] == b[m];
      assert forall k :: 0 <= k < m ==> a[..m][k] == a[k] && b[..m][k] == b[k];
      hide DependenciesFirst, IsOrderOf;
      var p, q := a[m], b[m];
      assert m < j ==> StandsBefore(b, q, p);
      assert m < i ==> StandsBefore(a, p, q);
      if p != q { OneSide(a, p, q); }
      assert a[..n] == a[..m] + [a[m]] && b[..n] == b[..m] + [b[m]];
    }
  }
}
