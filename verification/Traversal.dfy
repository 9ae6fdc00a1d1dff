/** The depth-first traversal that orders the components (internal/pkg/layer/component.go), as
    functions. The class in ComponentOrder.dfy runs it in place and is proved to compute these. */
module Traversal {
  import opened Ordering
  import opened DependencyGraph

  /** A key absent from `marks` is unvisited. */
  datatype Mark = Visiting | Done

  datatype Progress = Progress(marks: map<string, Mark>, ordered: seq<string>)

  datatype Outcome = Finished(progress: Progress) | Failed(failure: Failure)

  /** `visit(key, path)`. */
  ghost function Visit(g: Graph, key: string, path: seq<string>, p: Progress): (r: Outcome)
    requires key in g
    ensures r.Finished? ==> p.marks.Keys <= r.progress.marks.Keys
    decreases |g.Keys - p.marks.Keys|, 0
  {
    if key in p.marks then
      if p.marks[key].Done? then Finished(p) else Failed(Cycle(path + [key]))
    else
      var entered := p.(marks := p.marks[key := Visiting]);
      MarkingShrinks(g, p, key);
      var r := VisitEach(g, key, Sort(g[key].after), path + [key], entered);
      if r.Failed? then r
      else Finished(Progress(r.progress.marks[key := Done], r.progress.ordered + [key]))
  }

  /** The loop over one component's dependencies. */
  ghost function VisitEach(g: Graph, key: string, deps: seq<string>, path: seq<string>, p: Progress): (r: Outcome)
    ensures r.Finished? ==> p.marks.Keys <= r.progress.marks.Keys
    decreases |g.Keys - p.marks.Keys|, |deps|
  {
    if deps == [] then
      Finished(p)
    else if deps[0] !in g then
      Failed(Missing(key, deps[0]))
    else
      var r := Visit(g, deps[0], path, p);
      if r.Failed? then r
      else
        VisitedShrinks(g, p, r.progress);
        VisitEach(g, key, deps[1..], path, r.progress)
  }

  /** The outer loop over the sorted keys. */
  ghost function VisitAll(g: Graph, keys: seq<string>, p: Progress): Outcome
    requires forall k :: k in keys ==> k in g
  {
    if keys == [] then
      Finished(p)
    else
      var r := Visit(g, keys[0], [], p);
      if r.Failed? then r else VisitAll(g, keys[1..], r.progress)
  }

  ghost function OrderKeys(g: Graph): Outcome {
    VisitAll(g, SortedKeys(g.Keys), Progress(map[], []))
  }

  lemma VisitedShrinks(g: Graph, p: Progress, q: Progress)
    requires p.marks.Keys <= q.marks.Keys
    ensures |g.Keys - q.marks.Keys| <= |g.Keys - p.marks.Keys|
  {
    var rest := g.Keys - p.marks.Keys;
    var visited := rest * q.marks.Keys;
    assert g.Keys - q.marks.Keys == rest - visited;
  }

  lemma MarkingShrinks(g: Graph, p: Progress, key: string)
    requires key in g && key !in p.marks
    ensures |g.Keys - p.marks[key := Visiting].Keys| < |g.Keys - p.marks.Keys|
  {
    assert g.Keys - p.marks[key := Visiting].Keys == g.Keys - p.marks.Keys - {key};
  }
}
