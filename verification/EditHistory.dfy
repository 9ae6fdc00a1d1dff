/** Topology edits as steps: which addresses survive whole histories of accepted edits
    (internal/pkg/clusterspec/config.go, addressing.go). */
module EditHistory {
  import opened Decimal
  import opened ClusterTopology
  import opened AddressPlan

  datatype Edit =
    | Append(pool: Pool)
    | Resize(at: nat, count: Int)
    | Remove(at: nat)
    | Reorder
    | ResizeControlPlane

  ghost predicate PoolsEdited(before: Pools, e: Edit, after: Pools) {
    match e
    case Append(pool) => after == before + [pool]
    case Resize(i, count) => i < |before| && after == before[i := before[i].(count := count)]
    case Remove(i) => i < |before| && after == before[..i] + before[i + 1..]
    case Reorder => multiset(after) == multiset(before)
    case ResizeControlPlane => after == before
  }

  /** One edit: the cluster keeps its name and its network. */
  ghost predicate Step(before: Topology, e: Edit, after: Topology) {
    && after.name == before.name && after.network == before.network
    && (e.ResizeControlPlane? || after.controlPlane == before.controlPlane)
    && PoolsEdited(before.pools, e, after.pools)
  }

  /** Every state is accepted and follows from the one before by one edit. */
  ghost predicate History(states: seq<Topology>, edits: seq<Edit>) {
    && |states| == |edits| + 1
    && (forall k :: 0 <= k < |states| ==> Accepted(states[k]))
    && forall k :: 0 <= k < |edits| ==> Step(states[k], edits[k], states[k + 1])
  }

  ghost predicate Names(t: Topology, i: nat, name: string) {
    i < |t.pools| && t.pools[i].name == name
  }

  /** A pool met again after an edit has the slot it was pinned to, or is still unpinned. */
  lemma StepKeepsPin(before: Topology, e: Edit, after: Topology, i: nat, j: nat)
    requires Accepted(before) && Accepted(after) && Step(before, e, after)
    requires i < |before.pools| && Names(after, j, before.pools[i].name)
    ensures after.pools[j].addressSlot == before.pools[i].addressSlot
  {
    if e.Append? {
      PoolNamesTell(after, i, j);
    } else {
      var k := Origin(before, e, after, j);
      PoolNamesTell(before, i, k);
    }
  }

  lemma Origin(before: Topology, e: Edit, after: Topology, j: nat) returns (k: nat)
    requires Step(before, e, after) && j < |after.pools|
    requires !e.Append?
    ensures k < |before.pools|
    ensures before.pools[k].name == after.pools[j].name && before.pools[k].addressSlot == after.pools[j].addressSlot
  {
    match e
    case Remove(i) => k := if j < i then j else j + 1;
    case Reorder =>
      assert after.pools[j] in multiset(before.pools);
      k :| 0 <= k < |before.pools| && before.pools[k] == after.pools[j];
    case _ => k := j;
  }

  ghost predicate Present(t: Topology, name: string) {
    exists i: nat :: Names(t, i, name)
  }

  lemma LastStep(states: seq<Topology>, edits: seq<Edit>, n: nat)
    requires History(states, edits) && 0 < n <= |edits|
    ensures Accepted(states[n - 1]) && Accepted(states[n]) && Step(states[n - 1], edits[n - 1], states[n])
  {
    assert Step(states[n - 1], edits[n - 1], states[n - 1 + 1]);
  }

  lemma NamedOnce(t: Topology, name: string, i: nat, j: nat)
    requires Accepted(t) && Names(t, i, name) && Names(t, j, name)
    ensures i == j
  {
    PoolNamesTell(t, i, j);
  }

  lemma PinThroughLastStep(states: seq<Topology>, edits: seq<Edit>, n: nat, p: nat, j: nat)
    requires History(states, edits) && 0 < n <= |edits|
    requires p < |states[n - 1].pools| && Names(states[n], j, states[n - 1].pools[p].name)
    ensures states[n].pools[j].addressSlot == states[n - 1].pools[p].addressSlot
  {
    LastStep(states, edits, n);
    StepKeepsPin(states[n - 1], edits[n - 1], states[n], p, j);
  }

  lemma {:induction false} HistoryKeepsPin(states: seq<Topology>, edits: seq<Edit>, n: nat, name: string, i: nat, j: nat)
    requires History(states, edits) && n <= |edits|
    requires forall k :: 0 <= k < |states| ==> Present(states[k], name)
    requires Names(states[0], i, name) && Names(states[n], j, name)
    ensures states[n].pools[j].addressSlot == states[0].pools[i].addressSlot
    decreases n
  {
    hide Accepted, Step;
    if n == 0 {
      NamedOnce(states[0], name, i, j);
    } else {
      assert Present(states[n - 1], name);
      var p: nat :| Names(states[n - 1], p, name);
      HistoryKeepsPin(states, edits, n - 1, name, i, p);
      PinThroughLastStep(states, edits, n, p, j);
    }
  }

  lemma {:induction false} HistoryKeepsNetwork(states: seq<Topology>, edits: seq<Edit>, n: nat)
    requires History(states, edits) && n <= |edits|
    ensures states[n].network == states[0].network
    decreases n
  {
    if n > 0 {
      HistoryKeepsNetwork(states, edits, n - 1);
      LastStep(states, edits, n);
    }
  }

  /** Over any history a pool pinned to a slot and never removed keeps the address of every
      ordinal it has at both ends, whatever was appended, resized, removed or reordered meanwhile. */
  lemma PinnedPoolKeepsAddresses(
    states: seq<Topology>, edits: seq<Edit>, name: string, i: nat, j: nat, ordinal: Int)
    requires History(states, edits)
    requires forall k :: 0 <= k < |states| ==> Present(states[k], name)
    requires Names(states[0], i, name) && Names(states[|edits|], j, name)
    requires states[0].pools[i].addressSlot.Some?
    requires Taken(states[0], WorkerNode(i, ordinal)) && Taken(states[|edits|], WorkerNode(j, ordinal))
    ensures AddressOf(states[|edits|], WorkerNode(j, ordinal)) == AddressOf(states[0], WorkerNode(i, ordinal))
  {
    HistoryKeepsPin(states, edits, |edits|, name, i, j);
    HistoryKeepsNetwork(states, edits, |edits|);
  }

  /** An edit that adds pools or nodes and moves no pool. */
  predicate InPlace(e: Edit) {
    e.Append? || e.Resize? || e.ResizeControlPlane?
  }

  lemma {:induction false} InPlaceKeepsPositions(states: seq<Topology>, edits: seq<Edit>, n: nat, i: nat)
    requires History(states, edits) && n <= |edits|
    requires forall k :: 0 <= k < |edits| ==> InPlace(edits[k])
    requires i < |states[0].pools|
    ensures i < |states[n].pools|
    ensures states[n].pools[i].name == states[0].pools[i].name
    ensures states[n].pools[i].addressSlot == states[0].pools[i].addressSlot
    decreases n
  {
    hide Accepted;
    if n > 0 {
      InPlaceKeepsPositions(states, edits, n - 1, i);
      LastStep(states, edits, n);
    }
  }

  /** Over any history of appends and resizes every pool, pinned or not, keeps its place and the
      address of every ordinal it has at both ends. */
  lemma GrowingKeepsAddresses(states: seq<Topology>, edits: seq<Edit>, i: nat, ordinal: Int)
    requires History(states, edits)
    requires forall k :: 0 <= k < |edits| ==> InPlace(edits[k])
    requires Taken(states[0], WorkerNode(i, ordinal))
    ensures i < |states[|edits|].pools| && states[|edits|].pools[i].name == states[0].pools[i].name
    ensures Taken(states[|edits|], WorkerNode(i, ordinal)) ==>
      AddressOf(states[|edits|], WorkerNode(i, ordinal)) == AddressOf(states[0], WorkerNode(i, ordinal))
  {
    InPlaceKeepsPositions(states, edits, |edits|, i);
    HistoryKeepsNetwork(states, edits, |edits|);
  }

  /** Removing the pool at `r` moves another pool exactly when that one stands behind it and is
      unpinned; reading its position before and after tells. */
  lemma RemovalMovesExactly(before: Topology, after: Topology, r: nat, i: nat)
    requires Step(before, Remove(r), after) && i < |before.pools| && i != r
    ensures var j := if i < r then i else i - 1;
            && after.pools[j] == before.pools[i]
            && (PoolSlot(after.pools, j) == PoolSlot(before.pools, i) <==> before.pools[i].addressSlot.Some? || i < r)
  {
  }

  /** No history moves a load balancer or a control-plane node it retains. */
  lemma ControlPlaneNeverMoves(states: seq<Topology>, edits: seq<Edit>, seat: Seat)
    requires History(states, edits) && !seat.WorkerNode?
    requires Taken(states[0], seat) && Taken(states[|edits|], seat)
    ensures AddressOf(states[|edits|], seat) == AddressOf(states[0], seat)
  {
    HistoryKeepsNetwork(states, edits, |edits|);
  }

  /** At no point of a history whose nodes fit do two seats share an address, so an address
      kept is nobody else's meanwhile. */
  lemma NeverShared(states: seq<Topology>, edits: seq<Edit>, k: nat, a: Seat, b: Seat)
    requires History(states, edits) && k < |states| && OccupiedFit(states[k])
    requires Taken(states[k], a) && Taken(states[k], b) && a != b
    ensures AddressOf(states[k], a).Ok? && AddressOf(states[k], a) != AddressOf(states[k], b)
  {
    EverySeatAddressed(states[k], a);
    AddressesDistinct(states[k], a, b);
  }
}
