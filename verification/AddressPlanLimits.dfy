/** Where the capacity check stops justifying the plan: accepted topologies whose addresses
    collide or do not exist. Both lie beyond a bound the check does not state. */
module AddressPlanLimits {
  import opened Wrappers
  import opened Decimal
  import opened Cidr
  import opened Addressing
  import opened Words
  import opened ClusterTopology
  import opened AddressPlan

  /** A slot whose slice starts at 40 * 2^61, which is 0 in 64 bits. */
  const WRAPPING_SLOT: Int := 0x1FFF_FFFF_FFFF_FFFF

  function Net(ipRange: Prefix, nodeSubnet: Prefix, podCidr: Prefix, serviceCidr: Prefix): Network.Network {
    Network.Network(
      Network.Parsed(ipRange), Network.Parsed(nodeSubnet), Network.Parsed(podCidr), Network.Parsed(serviceCidr),
      [Network.Parsed(Prefix(0xCB00_7100, 24))])
  }

  lemma NetSound(ipRange: Prefix, nodeSubnet: Prefix, podCidr: Prefix, serviceCidr: Prefix)
    requires ipRange.addr == ipRange.Masked() && nodeSubnet.addr == nodeSubnet.Masked()
    requires podCidr.addr == podCidr.Masked() && serviceCidr.addr == serviceCidr.Masked()
    requires ContainsPrefix(ipRange, nodeSubnet)
    requires !Overlaps(ipRange, podCidr) && !Overlaps(ipRange, serviceCidr) && !Overlaps(podCidr, serviceCidr)
    ensures Network.Sound(Net(ipRange, nodeSubnet, podCidr, serviceCidr))
  {
    ContainsPrefixIsInclusion(ipRange, nodeSubnet);
    OverlapsIsIntersection(ipRange, podCidr);
    OverlapsIsIntersection(ipRange, serviceCidr);
    OverlapsIsIntersection(podCidr, serviceCidr);
    var admin := Prefix(0xCB00_7100, 24);
    assert Pow2(8) == 256;
    assert admin.addr == admin.Masked();
  }

  function OnePool(network: Network.Network, slot: Int): Topology {
    Topology("c", network, ControlPlane(1, "cx23", ""), [Pool("w", 3, "cx33", [], Some(slot))])
  }

  lemma OnePoolNames(network: Network.Network, slot: Int)
    ensures var t := OnePool(network, slot);
            NameFits(t.name, NodeNames.ROLE_CONTROL_PLANE, t.controlPlane.count) && NameFits(t.name, t.pools[0].name, 3)
  {
  }

  lemma OnePoolSound(network: Network.Network, slot: Int)
    ensures PoolsSound(OnePool(network, slot).pools)
  {
    assert Taints.Read([]) == [];
  }

  lemma OnePoolAccepted(network: Network.Network, slot: Int)
    requires Network.Sound(network) && slot >= 0
    requires CapacityPasses(OnePool(network, slot), slot)
    ensures Accepted(OnePool(network, slot))
  {
    var t := OnePool(network, slot);
    OnePoolSound(network, slot);
    OnePoolNames(network, slot);
    assert Slots(t.pools) == [slot];
    forall highest | IsHighest(Slots(t.pools), highest)
      ensures highest == slot
    {
      assert Slots(t.pools)[0] == slot;
    }
  }

  /** The defaults of internal/pkg/clusterspec/config.go: 10.0.0.0/16, 10.0.1.0/24,
      10.244.0.0/16 and 10.96.0.0/12. */
  function DefaultNet(): Network.Network {
    Net(Prefix(0x0A00_0000, 16), Prefix(0x0A00_0100, 24), Prefix(0x0AF4_0000, 16), Prefix(0x0A60_0000, 12))
  }

  lemma DefaultNetSound()
    ensures Network.Sound(DefaultNet())
  {
    assert Pow2(8) == 256 && Pow2(16) == 0x1_0000 && Pow2(20) == 0x10_0000;
    NetSound(Prefix(0x0A00_0000, 16), Prefix(0x0A00_0100, 24), Prefix(0x0AF4_0000, 16), Prefix(0x0A60_0000, 12));
  }

  /** On the default network a pool pinned to the wrapping slot is accepted, and its nodes are
      given the first addresses of the subnet: the third one the first control-plane node's. */
  lemma WrappedSlotCollides() returns (t: Topology)
    ensures t == OnePool(DefaultNet(), WRAPPING_SLOT)
    ensures Accepted(t) && 32 - t.network.nodeSubnet.prefix.bits <= MAX_HOST_BITS_CHECKED
    ensures Taken(t, WorkerNode(0, 2)) && Taken(t, ControlPlaneNode(0))
    ensures AddressOf(t, WorkerNode(0, 2)).Ok? && AddressOf(t, WorkerNode(0, 2)) == AddressOf(t, ControlPlaneNode(0))
    ensures !OccupiedFit(t)
  {
    t := OnePool(DefaultNet(), WRAPPING_SLOT);
    DefaultNetSound();
    WrappedArithmetic();
    assert Pow2(8) == 256;
    OnePoolAccepted(DefaultNet(), WRAPPING_SLOT);
    WrapsToStart(PlanOf(t));
    NotFit(t);
  }

  lemma NotFit(t: Topology)
    requires Accepted(t) && Taken(t, WorkerNode(0, 2)) && Taken(t, ControlPlaneNode(0))
    requires AddressOf(t, WorkerNode(0, 2)) == AddressOf(t, ControlPlaneNode(0))
    ensures !OccupiedFit(t)
  {
    if OccupiedFit(t) {
      AddressesDistinct(t, WorkerNode(0, 2), ControlPlaneNode(0));
    }
  }

  lemma WrapsToStart(plan: Plan)
    requires plan.Valid() && plan.subnet.bits == 24 && plan.stride == POOL_ADDRESS_STRIDE
    ensures plan.WorkerIP(WRAPPING_SLOT, 2).Ok? && plan.WorkerIP(WRAPPING_SLOT, 2) == plan.ControlPlaneIP(0)
  {
    WrappedArithmetic();
    assert Pow2(8) == 256;
    AtExactly(plan, 2);
  }

  lemma WrappedArithmetic()
    ensures Needed(WRAPPING_SLOT) == 40
    ensures Wrap(Wrap(Wrap(WRAPPING_SLOT + 1) * POOL_ADDRESS_STRIDE) + 2) == 2
  {
  }

  /** 10.0.0.0/11 as range and node subnet at once, with pods and services elsewhere. */
  function WideNet(): Network.Network {
    Net(Prefix(0x0A00_0000, 11), Prefix(0x0A00_0000, 11), Prefix(0x6440_0000, 16), Prefix(0xAC10_0000, 16))
  }

  lemma TwentyOneBits()
    ensures Pow2(21) == 0x20_0000
  {
    assert Pow2(11) == 2048;
    Pow2Sum(11, 10);
  }

  lemma WideNetSound()
    ensures Network.Sound(WideNet())
  {
    TwentyOneBits();
    assert Pow2(16) == 0x1_0000;
    NetSound(Prefix(0x0A00_0000, 11), Prefix(0x0A00_0000, 11), Prefix(0x6440_0000, 16), Prefix(0xAC10_0000, 16));
  }

  /** A node subnet of more than twenty host bits is not checked at all: this topology is
      accepted and its workers have no address. */
  lemma UncheckedSubnetOverflows() returns (t: Topology)
    ensures t == OnePool(WideNet(), 60_000)
    ensures Accepted(t) && 32 - t.network.nodeSubnet.prefix.bits > MAX_HOST_BITS_CHECKED
    ensures Taken(t, WorkerNode(0, 0)) && AddressOf(t, WorkerNode(0, 0)) == Err(OutsideSubnet) && !OccupiedFit(t)
  {
    t := OnePool(WideNet(), 60_000);
    WideNetSound();
    OnePoolAccepted(WideNet(), 60_000);
    BeyondSubnet(PlanOf(t));
    Unaddressed(t, WorkerNode(0, 0));
  }

  lemma Unaddressed(t: Topology, seat: Seat)
    requires Accepted(t) && Taken(t, seat) && AddressOf(t, seat).Err?
    ensures !OccupiedFit(t)
  {
    if OccupiedFit(t) {
      EverySeatAddressed(t, seat);
    }
  }

  lemma BeyondSubnet(plan: Plan)
    requires plan.Valid() && plan.subnet.bits == 11 && plan.stride == POOL_ADDRESS_STRIDE
    ensures plan.WorkerIP(60_000, 0) == Err(OutsideSubnet)
  {
    TwentyOneBits();
  }
}
