/** The node names an accepted topology leads to (internal/pkg/clusterspec/config.go, firewall.go). */
module AcceptedNames {
  import opened Decimal
  import opened ClusterTopology
  import opened AddressPlan
  import opened NodeNames

  function NameOf(t: Topology, seat: Seat): string
    requires Taken(t, seat) && (seat.ControlPlaneNode? || seat.WorkerNode?)
  {
    match seat
    case ControlPlaneNode(ordinal) => NodeName(t.name, ROLE_CONTROL_PLANE, ordinal)
    case WorkerNode(pool, ordinal) => NodeName(t.name, t.pools[pool].name, ordinal)
  }

  /** No two nodes of an accepted topology share a name. */
  lemma NodeNamesDistinct(t: Topology, a: Seat, b: Seat)
    requires Accepted(t) && Taken(t, a) && Taken(t, b)
    requires (a.ControlPlaneNode? || a.WorkerNode?) && (b.ControlPlaneNode? || b.WorkerNode?)
    requires NameOf(t, a) == NameOf(t, b)
    ensures a == b
  {
    var p := if a.WorkerNode? then t.pools[a.pool].name else ROLE_CONTROL_PLANE;
    var q := if b.WorkerNode? then t.pools[b.pool].name else ROLE_CONTROL_PLANE;
    NamesDistinct(t.name, p, a.ordinal, q, b.ordinal);
    if a.WorkerNode? { assert PoolSound(t.pools[a.pool]); }
    if b.WorkerNode? { assert PoolSound(t.pools[b.pool]); }
    if a.WorkerNode? && b.WorkerNode? {
      PoolNamesTell(t, a.pool, b.pool);
    }
  }

  lemma EarlierNameFits(cluster: string, pool: string, count: Int, ordinal: Int)
    requires NameFits(cluster, pool, count) && 0 <= ordinal < count
    ensures |NodeName(cluster, pool, ordinal)| <= MAX_SERVER_NAME
  {
    ItoaGrows(ordinal, LastOrdinal(count));
  }

  /** A cluster's own name is accepted exactly when it is a label and leaves room for the name of a
      first control-plane node. */
  lemma NameSoundExactly(name: string)
    ensures NameSound(name) <==> LabelShape(name) && |NodeName(name, ROLE_CONTROL_PLANE, 0)| <= 63
  {
    assert |Itoa(0)| == 1;
  }

  /** The one name that is measured decides for all: the pool's, or its first where it has none. */
  lemma NameFitsExactly(cluster: string, pool: string, count: Int)
    ensures NameFits(cluster, pool, count) <==>
      && |NodeName(cluster, pool, 0)| <= 63
      && forall ordinal: Int :: 0 <= ordinal < count ==> |NodeName(cluster, pool, ordinal)| <= 63
  {
    if NameFits(cluster, pool, count) {
      ItoaGrows(0, LastOrdinal(count));
      forall ordinal: Int | 0 <= ordinal < count
        ensures |NodeName(cluster, pool, ordinal)| <= 63
      {
        EarlierNameFits(cluster, pool, count, ordinal);
      }
    }
  }

  /** Every node's name is a DNS label of at most 63 characters, though only each pool's last was measured. */
  lemma NodeNamesFit(t: Topology, seat: Seat)
    requires Accepted(t) && Taken(t, seat) && (seat.ControlPlaneNode? || seat.WorkerNode?)
    ensures LabelShape(NameOf(t, seat)) && |NameOf(t, seat)| <= 63
  {
    match seat
    case ControlPlaneNode(ordinal) =>
      EarlierNameFits(t.name, ROLE_CONTROL_PLANE, t.controlPlane.count, ordinal);
      RoleIsLabel();
      NameShape(t.name, ROLE_CONTROL_PLANE, ordinal);
    case WorkerNode(pool, ordinal) =>
      EarlierNameFits(t.name, t.pools[pool].name, t.pools[pool].count, ordinal);
      assert PoolSound(t.pools[pool]);
      NameShape(t.name, t.pools[pool].name, ordinal);
  }
}
