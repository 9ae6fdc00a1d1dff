/** What the validator's scattered checks add up to: the address plan of an accepted topology
    (internal/pkg/clusterspec/addressing.go, config.go, machineconfig.go). */
module AddressPlan {
  import opened Wrappers
  import opened Decimal
  import opened Cidr
  import opened Addressing
  import opened Words
  import opened ClusterTopology

  /** Everything that is given a private address. */
  datatype Seat =
    | ControlPlaneNode(ordinal: Int)
    | WorkerNode(pool: nat, ordinal: Int)
    | ApiBalancer
    | IngressBalancer

  predicate Taken(t: Topology, seat: Seat) {
    match seat
    case ControlPlaneNode(ordinal) => 0 <= ordinal < t.controlPlane.count
    case WorkerNode(pool, ordinal) => pool < |t.pools| && 0 <= ordinal < t.pools[pool].count
    case ApiBalancer => true
    case IngressBalancer => true
  }

  function PlanOf(t: Topology): (plan: Plan)
    requires t.network.nodeSubnet.Parsed?
    ensures plan.Valid() && plan.stride == POOL_ADDRESS_STRIDE
    ensures var p := t.network.nodeSubnet.prefix;
            plan.subnet.addr == p.Masked() && plan.subnet.bits == p.bits
  {
    NewAddressing(t.network.nodeSubnet.prefix, POOL_ADDRESS_STRIDE).value
  }

  function AddressOf(t: Topology, seat: Seat): Result<Quad, PlanError>
    requires t.network.nodeSubnet.Parsed? && Taken(t, seat)
  {
    var plan := PlanOf(t);
    match seat
    case ControlPlaneNode(ordinal) => plan.ControlPlaneIP(ordinal)
    case WorkerNode(pool, ordinal) => plan.WorkerIP(PoolSlot(t.pools, pool), ordinal)
    case ApiBalancer => plan.ApiLoadBalancerIP()
    case IngressBalancer => plan.IngressLoadBalancerIP()
  }

  /** The documented layout: which offset of the node subnet a seat stands at. A pool's slice is
      the one it is pinned to, or the one of its position in the list. */
  function Offset(t: Topology, seat: Seat): int
    requires Taken(t, seat)
  {
    match seat
    case ControlPlaneNode(ordinal) => 2 + ordinal
    case IngressBalancer => 38
    case ApiBalancer => 39
    case WorkerNode(pool, ordinal) =>
      var pinned := t.pools[pool].addressSlot;
      (if pinned == None then pool + 1 else pinned.value + 1) * 40 + ordinal
  }

  /** Every pool's slice, and the control plane's before them, ends inside the subnet. */
  ghost predicate SlicesFit(t: Topology)
    requires t.network.nodeSubnet.Parsed?
  {
    var size := t.network.nodeSubnet.prefix.Size();
    40 <= size && forall i :: 0 <= i < |t.pools| ==> (PoolSlot(t.pools, i) + 2) * 40 <= size
  }

  /** What the seats themselves need: the control plane's slice, and each pool's slice as far as
      its nodes fill it, end inside the subnet. */
  ghost predicate OccupiedFit(t: Topology)
    requires t.network.nodeSubnet.Parsed?
  {
    var size := t.network.nodeSubnet.prefix.Size();
    40 <= size && forall i :: 0 <= i < |t.pools| ==> PoolFits(t, i, size)
  }

  predicate PoolFits(t: Topology, i: nat, size: nat)
    requires i < |t.pools|
  {
    t.pools[i].count > 0 ==> Offset(t, WorkerNode(i, 0)) + t.pools[i].count <= size
  }

  lemma SlicesFitOccupied(t: Topology)
    requires Accepted(t) && SlicesFit(t)
    ensures OccupiedFit(t)
  {
    forall i | 0 <= i < |t.pools|
      ensures PoolFits(t, i, t.network.nodeSubnet.prefix.Size())
    {
      assert PoolSound(t.pools[i]);
      var slot := PoolSlot(t.pools, i);
      assert (slot + 2) * 40 <= t.network.nodeSubnet.prefix.Size();
      assert t.pools[i].count > 0 ==> Offset(t, WorkerNode(i, 0)) == (slot + 1) * 40;
    }
  }

  /** The largest slot whose slice ends within 64 bits. */
  const MAX_SAFE_SLOT := MAX_INT / 40 - 2

  lemma NeededExact(highest: Int)
    requires -1 <= highest <= MAX_SAFE_SLOT
    ensures Needed(highest) == (highest + 2) * 40
  {
  }

  lemma TwentyBits(p: Prefix)
    requires 32 - p.bits <= 20
    ensures p.Size() <= 0x10_0000
  {
    Pow2Sum(10, 10);
    assert Pow2(10) == 1024;
    Pow2Grows(32 - p.bits, 20);
  }

  /** The capacity check is right exactly as long as its sum does not wrap: with a subnet small
      enough to be checked and a highest slot up to MAX_SAFE_SLOT every slice fits, and past that
      slot the check passes topologies whose slices do not. */
  lemma CapacityExactly(t: Topology, highest: Int)
    requires Accepted(t) && IsHighest(Slots(t.pools), highest)
    requires 32 - t.network.nodeSubnet.prefix.bits <= MAX_HOST_BITS_CHECKED
    ensures SlicesFit(t) <==> highest <= MAX_SAFE_SLOT
  {
    var size := t.network.nodeSubnet.prefix.Size();
    TwentyBits(t.network.nodeSubnet.prefix);
    assert CapacityPasses(t, highest);
    if highest <= MAX_SAFE_SLOT {
      NeededExact(highest);
      forall i | 0 <= i < |t.pools|
        ensures (PoolSlot(t.pools, i) + 2) * 40 <= size
      {
        assert Slots(t.pools)[i] <= highest;
      }
    } else {
      var i :| 0 <= i < |t.pools| && Slots(t.pools)[i] == highest;
      assert (PoolSlot(t.pools, i) + 2) * 40 > size;
    }
  }

  lemma OffsetsInside(t: Topology, seat: Seat)
    requires Accepted(t) && OccupiedFit(t) && Taken(t, seat)
    ensures 2 <= Offset(t, seat) < t.network.nodeSubnet.prefix.Size() <= SPACE
  {
    SizeBelowSpace(t.network.nodeSubnet.prefix);
    if seat.WorkerNode? {
      WorkerOffsetsApart(t, seat);
      assert PoolFits(t, seat.pool, t.network.nodeSubnet.prefix.Size());
    }
  }

  lemma SeatStands(t: Topology, seat: Seat)
    requires Accepted(t) && Taken(t, seat)
    requires 2 <= Offset(t, seat) < SPACE
    ensures AddressOf(t, seat) == PlanOf(t).At(Offset(t, seat))
  {
    if seat.WorkerNode? {
      WorkerOffsetsApart(t, seat);
      WorkerOffset(PlanOf(t), PoolSlot(t.pools, seat.pool), seat.ordinal);
    }
  }

  lemma SizeBelowSpace(p: Prefix)
    ensures p.Size() <= SPACE
  {
    RunInside(p);
  }

  /** Two seats stand at two offsets. */
  lemma OffsetsApart(t: Topology, a: Seat, b: Seat)
    requires Accepted(t) && Taken(t, a) && Taken(t, b) && a != b
    ensures Offset(t, a) != Offset(t, b)
  {
    if a.WorkerNode? { WorkerOffsetsApart(t, a); }
    if b.WorkerNode? { WorkerOffsetsApart(t, b); }
    if a.WorkerNode? && b.WorkerNode? {
      SlotsTellPools(t, a.pool, b.pool);
    }
  }

  lemma SlotsTellPools(t: Topology, i: nat, j: nat)
    requires Accepted(t) && i < |t.pools| && j < |t.pools|
    ensures i != j ==> PoolSlot(t.pools, i) != PoolSlot(t.pools, j)
  {
    if i < j { assert Slots(t.pools)[i] != Slots(t.pools)[j]; }
    if j < i { assert Slots(t.pools)[j] != Slots(t.pools)[i]; }
  }

  lemma WorkerOffsetsApart(t: Topology, seat: Seat)
    requires Accepted(t) && Taken(t, seat) && seat.WorkerNode?
    ensures Offset(t, seat) >= 40 && 0 <= seat.ordinal < 40
    ensures Offset(t, seat) / 40 == PoolSlot(t.pools, seat.pool) + 1
  {
    assert PoolSound(t.pools[seat.pool]);
    assert Slots(t.pools)[seat.pool] >= 0;
  }

  /** A seat of an accepted topology whose nodes fit has an address; it is the documented offset
      from the subnet's base, inside the subnet, and not the network address. */
  lemma EverySeatAddressed(t: Topology, seat: Seat)
    requires Accepted(t) && OccupiedFit(t) && Taken(t, seat)
    ensures Addressed(t, seat)
    ensures var a := Word(AddressOf(t, seat).value); var p := t.network.nodeSubnet.prefix;
            p.Contains(a) && a != p.Masked()
  {
    OffsetsInside(t, seat);
    SeatStands(t, seat);
    BaseAndOffset(t.network.nodeSubnet.prefix, PlanOf(t), Offset(t, seat));
  }

  /** The seat has the address the documented layout gives it. */
  predicate Addressed(t: Topology, seat: Seat)
    requires t.network.nodeSubnet.Parsed? && Taken(t, seat)
  {
    AddressOf(t, seat).Ok? && Word(AddressOf(t, seat).value) == t.network.nodeSubnet.prefix.Masked() + Offset(t, seat)
  }

  /** Whatever was computed, an address given out lies in the subnet. */
  lemma GivenInside(t: Topology, seat: Seat)
    requires Accepted(t) && Taken(t, seat) && AddressOf(t, seat).Ok?
    ensures var p := t.network.nodeSubnet.prefix;
            Word(AddressOf(t, seat).value) < p.Masked() + p.Size()
  {
    var plan := PlanOf(t);
    var offset: Int :| AddressOf(t, seat) == plan.At(offset);
    AtExactly(plan, offset);
  }

  /** Every seat has the address of the documented layout. */
  ghost predicate PlanStands(t: Topology)
    requires t.network.nodeSubnet.Parsed?
  {
    forall seat :: Taken(t, seat) ==> Addressed(t, seat)
  }

  /** On any accepted topology, however big its subnet and its slots, the plan stands exactly
      when the nodes there are fit into the subnet. */
  lemma PlanStandsExactly(t: Topology)
    requires Accepted(t)
    ensures PlanStands(t) <==> OccupiedFit(t)
  {
    var size := t.network.nodeSubnet.prefix.Size();
    if OccupiedFit(t) {
      forall seat | Taken(t, seat)
        ensures Addressed(t, seat)
      {
        EverySeatAddressed(t, seat);
      }
    }
    if PlanStands(t) {
      assert Addressed(t, ApiBalancer);
      GivenInside(t, ApiBalancer);
      forall i | 0 <= i < |t.pools|
        ensures PoolFits(t, i, size)
      {
        if t.pools[i].count > 0 {
          var last := WorkerNode(i, t.pools[i].count - 1);
          assert Addressed(t, last);
          GivenInside(t, last);
        }
      }
    }
  }

  lemma BaseAndOffset(p: Prefix, plan: Plan, offset: Int)
    requires plan.Valid() && plan.subnet.addr == p.Masked() && plan.subnet.bits == p.bits
    requires 2 <= offset < p.Size()
    ensures plan.At(offset).Ok?
    ensures var a := Word(plan.At(offset).value);
            a == p.Masked() + offset && p.Contains(a) && a != p.Masked()
  {
    AtExactly(plan, offset);
    PrefixIsRun(p);
  }

  /** No two seats share an address. */
  lemma AddressesDistinct(t: Topology, a: Seat, b: Seat)
    requires Accepted(t) && OccupiedFit(t) && Taken(t, a) && Taken(t, b) && a != b
    ensures AddressOf(t, a) != AddressOf(t, b)
  {
    EverySeatAddressed(t, a);
    EverySeatAddressed(t, b);
    OffsetsApart(t, a, b);
  }

  /** `NetworkGateway`: the first address after the range's base. */
  function NetworkGateway(ipRange: Prefix): Address
    requires ipRange.Masked() + 1 < SPACE
  {
    ipRange.Masked() + 1
  }

  lemma AlignedRuns(outer: Prefix, inner: Prefix)
    requires Network.Inside(inner, outer)
    ensures inner.Masked() >= outer.Masked()
    ensures inner.Masked() > outer.Masked() ==> inner.Masked() >= outer.Masked() + inner.Size()
  {
    BaseInside(outer, inner);
    ContainsPrefixIsInclusion(outer, inner);
    var factor := SizesDivide(outer, inner);
    BasesApart(outer, inner, factor);
  }

  lemma BasesApart(outer: Prefix, inner: Prefix, factor: nat)
    requires outer.Size() == inner.Size() * factor && inner.Masked() >= outer.Masked()
    ensures inner.Masked() > outer.Masked() ==> inner.Masked() >= outer.Masked() + inner.Size()
  {
    var size := inner.Size();
    var q: nat, o: nat := inner.addr / size, outer.addr / (size * factor);
    Aligned(q, o, size, factor);
  }

  lemma BaseInside(outer: Prefix, inner: Prefix)
    requires Network.Inside(inner, outer)
    ensures inner.Masked() >= outer.Masked()
  {
    PrefixIsRun(inner);
    PrefixIsRun(outer);
    assert inner.Contains(inner.Masked());
  }

  lemma Aligned(q: nat, o: nat, size: nat, factor: nat)
    requires q * size >= o * (size * factor)
    ensures q * size > o * (size * factor) ==> q * size >= o * (size * factor) + size
  {
    assert o * (size * factor) == o * factor * size;
    MultipleApart(q, o * factor, size);
  }

  lemma MultipleApart(q: nat, r: nat, size: nat)
    requires q * size >= r * size
    ensures q * size > r * size ==> q * size >= r * size + size
  {
    if q > r { TimesGrows(r + 1, q, size); } else { TimesGrows(q, r, size); }
  }

  /** Wherever the node subnet sits inside the range, the gateway is nobody's address, and no
      address is a pod's or a service's. */
  lemma AddressesKeepOut(t: Topology, seat: Seat)
    requires Accepted(t) && OccupiedFit(t) && Taken(t, seat)
    ensures AddressOf(t, seat).Ok?
    ensures var a := Word(AddressOf(t, seat).value);
            && t.network.ipRange.prefix.Contains(a)
            && !t.network.podCidr.prefix.Contains(a)
            && !t.network.serviceCidr.prefix.Contains(a)
            && t.network.ipRange.prefix.Masked() + 1 < SPACE
            && NetworkGateway(t.network.ipRange.prefix) == t.network.ipRange.prefix.Masked() + 1 != a
  {
    EverySeatAddressed(t, seat);
    OffsetsInside(t, seat);
    AlignedRuns(t.network.ipRange.prefix, t.network.nodeSubnet.prefix);
    var a := Word(AddressOf(t, seat).value);
    assert t.network.nodeSubnet.prefix.Contains(a);
  }

  /** What the validator's own guard gives: with a subnet it checks and a highest slot its sum
      can represent, the nodes of an accepted topology fit and no two seats share an address. */
  lemma AcceptedPlanWorks(t: Topology, highest: Int)
    requires Accepted(t) && IsHighest(Slots(t.pools), highest)
    ensures 32 - t.network.nodeSubnet.prefix.bits <= MAX_HOST_BITS_CHECKED && highest <= MAX_SAFE_SLOT ==>
      && OccupiedFit(t)
      && forall a, b :: Taken(t, a) && Taken(t, b) && a != b ==> AddressOf(t, a) != AddressOf(t, b)
  {
    if 32 - t.network.nodeSubnet.prefix.bits <= MAX_HOST_BITS_CHECKED && highest <= MAX_SAFE_SLOT {
      CapacityExactly(t, highest);
      SlicesFitOccupied(t);
      forall a, b | Taken(t, a) && Taken(t, b) && a != b
        ensures AddressOf(t, a) != AddressOf(t, b)
      {
        AddressesDistinct(t, a, b);
      }
    }
  }
}
