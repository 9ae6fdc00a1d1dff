/** What the traversal promises: an order exactly when there is one, a real fault otherwise, and
    the same answer however the table is written. */
module TraversalProof {
  import opened Ordering
  import opened DependencyGraph
  import opened Traversal

  /** What holds at every entry to `visit` with this path: the names being visited are the
      path, the finished ones are the output so far, and the output is in order. */
  ghost predicate Consistent(g: Graph, p: Progress, path: seq<string>) {
    && p.marks.Keys <= g.Keys
    && (forall k :: k in path <==> k in p.marks && p.marks[k].Visiting?)
    && (forall k :: k in p.ordered <==> k in p.marks && p.marks[k].Done?)
    && Distinct(p.ordered)
    && DependenciesFirst(g, p.ordered)
    && Walk(g, path)
  }

  lemma {:induction false} VisitCorrect(g: Graph, key: string, path: seq<string>, p: Progress)
    requires key in g
    requires Consistent(g, p, path)
    requires path != [] ==> Edge(g, path[|path| - 1], key)
    ensures match Visit(g, key, path, p)
            case Finished(q) => Consistent(g, q, path) && p.ordered <= q.ordered && key in q.ordered
            case Failed(f) => Genuine(g, f)
    decreases |g.Keys - p.marks.Keys|, 0
  {
    var extended := path + [key];
    assert Walk(g, extended) by {
      forall i | 0 <= i < |extended| - 1
        ensures Edge(g, extended[i], extended[i + 1])
      {
        if i < |path| - 1 { assert Edge(g, path[i], path[i + 1]); }
      }
    }
    if key in p.marks {
      if p.marks[key].Visiting? {
        assert key in path;
        assert extended[..|extended| - 1] == path;
      }
    } else {
      var entered := p.(marks := p.marks[key := Visiting]);
      MarkingShrinks(g, p, key);
      SortKeepsElements(g[key].after);
      var deps := Sort(g[key].after);
      VisitEachCorrect(g, key, deps, extended, entered);
      var r := VisitEach(g, key, deps, extended, entered);
      if r.Finished? {
        AppendKeepsOrder(g, r.progress, key, path);
      }
    }
  }

  /** Closing a visit: the key joins the output behind everything it follows. */
  lemma AppendKeepsOrder(g: Graph, p: Progress, key: string, path: seq<string>)
    requires Consistent(g, p, path + [key])
    requires key !in path
    requires forall d :: Edge(g, key, d) ==> d in p.ordered
    ensures Consistent(g, Progress(p.marks[key := Done], p.ordered + [key]), path)
  {
    var extended := path + [key];
    assert key in extended;
    assert forall k :: k in path ==> k in extended;
    assert forall k :: k in extended ==> k in path || k == key;
    AppendKeepsFirst(g, p.ordered, key);
    forall i | 0 <= i < |path| - 1
      ensures Edge(g, path[i], path[i + 1])
    {
      assert Edge(g, extended[i], extended[i + 1]);
    }
  }

  lemma {:induction false} VisitEachCorrect(
    g: Graph, key: string, deps: seq<string>, path: seq<string>, p: Progress)
    requires path != [] && path[|path| - 1] == key && key in g
    requires forall d :: d in deps ==> Edge(g, key, d)
    requires Consistent(g, p, path)
    ensures match VisitEach(g, key, deps, path, p)
            case Finished(q) =>
              Consistent(g, q, path) && p.ordered <= q.ordered && forall d :: d in deps ==> d in q.ordered
            case Failed(f) => Genuine(g, f)
    decreases |g.Keys - p.marks.Keys|, |deps|
  {
    if deps != [] && deps[0] in g {
      VisitCorrect(g, deps[0], path, p);
      var r := Visit(g, deps[0], path, p);
      if r.Finished? {
        VisitedShrinks(g, p, r.progress);
        VisitEachCorrect(g, key, deps[1..], path, r.progress);
      }
    }
  }

  lemma {:induction false} VisitAllCorrect(g: Graph, keys: seq<string>, p: Progress)
    requires forall k :: k in keys ==> k in g
    requires Consistent(g, p, [])
    ensures match VisitAll(g, keys, p)
            case Finished(q) => Consistent(g, q, []) && p.ordered <= q.ordered && forall k :: k in keys ==> k in q.ordered
            case Failed(f) => Genuine(g, f)
    decreases |keys|
  {
    if keys != [] {
      VisitCorrect(g, keys[0], [], p);
      var r := Visit(g, keys[0], [], p);
      if r.Finished? {
        VisitAllCorrect(g, keys[1..], r.progress);
      }
    }
  }

  /** The traversal succeeds exactly on closed, acyclic sets; its result is an order of the set,
      and a failure it reports is a real dangling name or a real cycle. */
  lemma OrderKeysCorrect(g: Graph)
    ensures OrderKeys(g).Finished? <==> Closed(g) && Acyclic(g)
    ensures OrderKeys(g).Finished? ==> IsOrderOf(g, OrderKeys(g).progress.ordered)
    ensures OrderKeys(g).Failed? ==> Genuine(g, OrderKeys(g).failure)
  {
    var start := Progress(map[], []);
    VisitAllCorrect(g, SortedKeys(g.Keys), start);
    match OrderKeys(g)
    case Finished(q) =>
      OrderedIsAcyclic(g, q.ordered);
    case Failed(Missing(_, _)) =>
    case Failed(Cycle(path)) =>
      CycleCloses(g, path);
  }

  lemma {:induction false} VisitIgnoresListOrder(g: Graph, h: Graph, key: string, path: seq<string>, p: Progress)
    requires SameDependencies(g, h) && key in g
    ensures Visit(g, key, path, p) == Visit(h, key, path, p)
    decreases |g.Keys - p.marks.Keys|, 0
  {
    if key !in p.marks {
      MarkingShrinks(g, p, key);
      SortIgnoresOrder(g[key].after, h[key].after);
      VisitEachIgnoresListOrder(
        g, h, key, Sort(g[key].after), path + [key], p.(marks := p.marks[key := Visiting]));
    }
  }

  lemma {:induction false} VisitEachIgnoresListOrder(
    g: Graph, h: Graph, key: string, deps: seq<string>, path: seq<string>, p: Progress)
    requires SameDependencies(g, h)
    ensures VisitEach(g, key, deps, path, p) == VisitEach(h, key, deps, path, p)
    decreases |g.Keys - p.marks.Keys|, |deps|
  {
    if deps != [] && deps[0] in g {
      VisitIgnoresListOrder(g, h, deps[0], path, p);
      var r := Visit(g, deps[0], path, p);
      if r.Finished? {
        VisitedShrinks(g, p, r.progress);
        VisitEachIgnoresListOrder(g, h, key, deps[1..], path, r.progress);
      }
    }
  }

  lemma {:induction false} VisitAllIgnoresListOrder(g: Graph, h: Graph, keys: seq<string>, p: Progress)
    requires SameDependencies(g, h)
    requires forall k :: k in keys ==> k in g
    ensures VisitAll(g, keys, p) == VisitAll(h, keys, p)
    decreases |keys|
  {
    if keys != [] {
      VisitIgnoresListOrder(g, h, keys[0], [], p);
      var r := Visit(g, keys[0], [], p);
      if r.Finished? {
        VisitAllIgnoresListOrder(g, h, keys[1..], r.progress);
      }
    }
  }

  /** Rewriting any component's `After` in another order changes neither the sequence nor the
      reported failure. */
  lemma OrderIgnoresAfterOrder(g: Graph, h: Graph)
    requires SameDependencies(g, h)
    ensures OrderKeys(g) == OrderKeys(h)
  {
    VisitAllIgnoresListOrder(g, h, SortedKeys(g.Keys), Progress(map[], []));
  }
}
