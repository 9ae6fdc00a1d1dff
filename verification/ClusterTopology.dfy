/** A cluster topology and the checks on its control plane, its worker pools and the names and
    addresses they lead to (internal/pkg/clusterspec/config.go). */
module ClusterTopology {
  import opened Wrappers
  import opened Decimal
  import opened FirstSeen
  import Cidr
  import Network
  import NodeNames
  import Taints
  import Addressing
  import Words

  const POOL_ADDRESS_STRIDE := 40
  const MAX_CONTROL_PLANE_COUNT := POOL_ADDRESS_STRIDE - Addressing.RESERVED_PER_SUBNET - Addressing.LOAD_BALANCER_ADDRESSES
  const MAX_SERVER_NAME := 63
  const MAX_CLUSTER_NAME_LENGTH := MAX_SERVER_NAME - (1 + |NodeNames.ROLE_CONTROL_PLANE| + 1 + 1)
  const RESERVED_SLICES := 2
  const MAX_HOST_BITS_CHECKED := 20

  datatype ControlPlane = ControlPlane(count: Int, serverType: string, loadBalancerType: string)

  datatype Pool = Pool(name: string, count: Int, serverType: string, taints: seq<string>, addressSlot: Option<Int>)

  type Pools = s: seq<Pool> | |s| <= MAX_INT

  datatype Topology = Topology(
    name: string, network: Network.Network, controlPlane: ControlPlane, pools: Pools)

  /** `PoolSlot`. */
  function PoolSlot(pools: Pools, i: nat): Int
    requires i < |pools|
  {
    match pools[i].addressSlot
    case Some(slot) => slot
    case None => i
  }

  function Slots(pools: Pools): (r: seq<Int>)
    ensures |r| == |pools|
    ensures forall i :: 0 <= i < |pools| ==> r[i] == PoolSlot(pools, i)
  {
    seq(|pools|, i requires 0 <= i < |pools| => PoolSlot(pools, i))
  }

  // Control plane

  datatype ControlPlaneProblem = TooFew | TooMany | Even | NoLoadBalancer | NoServerType

  ghost predicate ControlPlaneFault(c: ControlPlane, q: ControlPlaneProblem) {
    match q
    case TooFew => c.count < 1
    case TooMany => c.count > MAX_CONTROL_PLANE_COUNT
    case Even => 1 <= c.count <= MAX_CONTROL_PLANE_COUNT && c.count % 2 == 0
    case NoLoadBalancer => c.count > 1 && c.loadBalancerType == ""
    case NoServerType => c.serverType == ""
  }

  /** An odd count the first slice seats, a server type, and a load balancer for more than one. */
  ghost predicate ControlPlaneSound(c: ControlPlane) {
    && 1 <= c.count <= 36 && c.count % 2 == 1
    && (c.count > 1 ==> c.loadBalancerType != "")
    && c.serverType != ""
  }

  /** `validateControlPlane`. */
  method ValidateControlPlane(c: ControlPlane) returns (problems: seq<ControlPlaneProblem>)
    ensures forall q :: q in problems <==> ControlPlaneFault(c, q)
    ensures problems == [] <==> ControlPlaneSound(c)
  {
    problems := [];
    if c.count < 1 {
      problems := [TooFew];
    } else if c.count > MAX_CONTROL_PLANE_COUNT {
      problems := [TooMany];
    } else if c.count % 2 == 0 {
      problems := [Even];
    }
    if c.count > 1 && c.loadBalancerType == "" {
      problems := problems + [NoLoadBalancer];
    }
    if c.serverType == "" {
      problems := problems + [NoServerType];
    }
  }

  // Worker pools, one by one

  datatype PoolKind =
    | NameRequired | BadName | ReservedName
    | DuplicateName(first: nat)
    | NegativeCount | TooManyNodes | ServerTypeRequired
    | BadTaint(problem: Taints.Problem)

  /** What is wrong with one pool, given where its name was first met. */
  ghost predicate PoolFault(pool: Pool, q: PoolKind) {
    match q
    case NameRequired => pool.name == ""
    case BadName => pool.name != "" && !NodeNames.LabelShape(pool.name)
    case ReservedName => pool.name == NodeNames.ROLE_CONTROL_PLANE
    case DuplicateName(_) => false
    case NegativeCount => pool.count < 0
    case TooManyNodes => pool.count > POOL_ADDRESS_STRIDE
    case ServerTypeRequired => pool.serverType == ""
    case BadTaint(problem) => Taints.Fault(Taints.Read(pool.taints), problem)
  }

  ghost predicate PoolSound(pool: Pool) {
    && NodeNames.LabelShape(pool.name) && pool.name != NodeNames.ROLE_CONTROL_PLANE
    && 0 <= pool.count <= POOL_ADDRESS_STRIDE
    && pool.serverType != ""
    && Taints.Clean(Taints.Read(pool.taints))
  }

  lemma RoleIsLabel()
    ensures NodeNames.LabelShape(NodeNames.ROLE_CONTROL_PLANE)
  {
  }

  function NameKeys(pools: Pools): (r: seq<Option<string>>)
    ensures |r| == |pools|
    ensures forall i :: 0 <= i < |pools| ==> r[i] == if pools[i].name == "" then None else Some(pools[i].name)
  {
    seq(|pools|, i requires 0 <= i < |pools| => if pools[i].name == "" then None else Some(pools[i].name))
  }

  function Tagged(problems: seq<Taints.Problem>): (r: seq<PoolKind>)
    ensures forall q :: q in r <==> q.BadTaint? && q.problem in problems
    ensures r == [] <==> problems == []
  {
    if problems == [] then [] else [BadTaint(problems[0])] + Tagged(problems[1..])
  }

  /** The switch over a pool's name. */
  method CheckName(pool: Pool) returns (faults: seq<PoolKind>)
    ensures forall q :: q in faults <==> (q.NameRequired? || q.BadName? || q.ReservedName?) && PoolFault(pool, q)
    ensures faults == [] <==> NodeNames.LabelShape(pool.name) && pool.name != NodeNames.ROLE_CONTROL_PLANE
  {
    faults := [];
    RoleIsLabel();
    if pool.name == "" {
      faults := [NameRequired];
    } else if !NodeNames.LabelShape(pool.name) {
      faults := [BadName];
    } else if pool.name == NodeNames.ROLE_CONTROL_PLANE {
      faults := [ReservedName];
    }
  }

  method CheckSize(pool: Pool) returns (faults: seq<PoolKind>)
    ensures forall q :: q in faults <==>
      (q.NegativeCount? || q.TooManyNodes? || q.ServerTypeRequired?) && PoolFault(pool, q)
    ensures faults == [] <==> 0 <= pool.count <= POOL_ADDRESS_STRIDE && pool.serverType != ""
  {
    faults := [];
    if pool.count < 0 {
      faults := faults + [NegativeCount];
    }
    if pool.count > POOL_ADDRESS_STRIDE {
      faults := faults + [TooManyNodes];
    }
    if pool.serverType == "" {
      faults := faults + [ServerTypeRequired];
    }
  }

  method CheckTaints(pool: Pool) returns (faults: seq<PoolKind>)
    ensures forall q :: q in faults <==> q.BadTaint? && PoolFault(pool, q)
    ensures faults == [] <==> Taints.Clean(Taints.Read(pool.taints))
  {
    var taints := Taints.ValidateTaints(pool.taints);
    faults := Tagged(taints);
  }

  /** The checks inside the loop that need only the pool itself. */
  method CheckPool(pool: Pool) returns (faults: seq<PoolKind>)
    ensures forall q :: q in faults <==> PoolFault(pool, q)
    ensures faults == [] <==> PoolSound(pool)
  {
    var name := CheckName(pool);
    var size := CheckSize(pool);
    var taints := CheckTaints(pool);
    faults := name + size + taints;
  }

  datatype PoolProblem = InPool(at: nat, kind: PoolKind)

  ghost predicate PoolsFault(pools: Pools, q: PoolProblem) {
    && q.at < |pools|
    && if q.kind.DuplicateName? then Repeats(NameKeys(pools), q.at, q.kind.first) else PoolFault(pools[q.at], q.kind)
  }

  ghost predicate PoolsSound(pools: Pools) {
    && (forall i :: 0 <= i < |pools| ==> PoolSound(pools[i]))
    && forall i, j :: 0 <= i < j < |pools| ==> pools[i].name != pools[j].name
  }

  function InPools(at: nat, faults: seq<PoolKind>): (r: seq<PoolProblem>)
    ensures forall q :: q in r <==> q.at == at && q.kind in faults
  {
    if faults == [] then [] else [InPool(at, faults[0])] + InPools(at, faults[1..])
  }

  /** The loop of `validateWorkerPools`. */
  method ValidatePools(pools: Pools) returns (problems: seq<PoolProblem>)
    ensures forall q :: q in problems <==> PoolsFault(pools, q)
    ensures problems == [] <==> PoolsSound(pools)
  {
    ghost var names := NameKeys(pools);
    problems := [];
    var seen: map<string, nat> := map[];
    var i := 0;
    while i < |pools|
      invariant 0 <= i <= |pools|
      invariant Seen(names, seen, i)
      invariant forall q :: q in problems <==> q.at < i && PoolsFault(pools, q)
      invariant problems == [] ==> forall j :: 0 <= j < i ==> PoolSound(pools[j])
    {
      var pool := pools[i];
      SeenStep(names, seen, i);
      var faults := CheckPool(pool);
      if pool.name in seen && pool.name != "" {
        faults := faults + [DuplicateName(seen[pool.name])];
      } else if pool.name != "" {
        seen := seen[pool.name := i];
      }
      assert forall q: PoolProblem :: q.at == i ==> (q.kind in faults <==> PoolsFault(pools, q));
      problems := problems + InPools(i, faults);
      if faults != [] { assert InPool(i, faults[0]) in problems; }
      i := i + 1;
    }
    PoolsSoundHasNoFault(pools, problems);
  }

  lemma PoolsSoundHasNoFault(pools: Pools, problems: seq<PoolProblem>)
    requires forall q :: q in problems <==> PoolsFault(pools, q)
    requires problems == [] ==> forall j :: 0 <= j < |pools| ==> PoolSound(pools[j])
    ensures problems == [] <==> PoolsSound(pools)
  {
    var names := NameKeys(pools);
    DistinctMeansNoRepeat(names);
    if problems == [] {
      forall j, first
        ensures !Repeats(names, j, first)
      {
        assert !PoolsFault(pools, InPool(j, DuplicateName(first)));
      }
      forall i, j | 0 <= i < j < |pools|
        ensures pools[i].name != pools[j].name
      {
        assert PoolSound(pools[i]);
        assert names[i] != names[j];
      }
    } else {
      FaultyPools(pools, problems[0]);
    }
  }

  lemma FaultyPools(pools: Pools, q: PoolProblem)
    requires PoolsFault(pools, q)
    ensures !PoolsSound(pools)
  {
    if q.kind.DuplicateName? {
      assert HasKey(NameKeys(pools), q.kind.first, pools[q.at].name);
    } else {
      FaultyPool(pools[q.at], q.kind);
    }
  }

  lemma FaultyPool(pool: Pool, q: PoolKind)
    requires PoolFault(pool, q)
    ensures !PoolSound(pool)
  {
    if q.BadTaint? && Taints.Clean(Taints.Read(pool.taints)) {
      Taints.CleanIsFaultless(Taints.Read(pool.taints), q.problem);
    }
  }

  // Slots

  datatype SlotProblem = NegativeSlot(at: nat) | SlotTaken(at: nat, first: nat)

  function SlotKeys(slots: seq<Int>): (r: seq<Option<Int>>)
    ensures |r| == |slots|
    ensures forall i :: 0 <= i < |slots| ==> r[i] == if slots[i] < 0 then None else Some(slots[i])
  {
    seq(|slots|, i requires 0 <= i < |slots| => if slots[i] < 0 then None else Some(slots[i]))
  }

  ghost predicate SlotFault(slots: seq<Int>, q: SlotProblem) {
    match q
    case NegativeSlot(i) => i < |slots| && slots[i] < 0
    case SlotTaken(i, first) => Repeats(SlotKeys(slots), i, first)
  }

  ghost predicate SlotsSound(slots: seq<Int>) {
    && (forall i :: 0 <= i < |slots| ==> slots[i] >= 0)
    && forall i, j :: 0 <= i < j < |slots| ==> slots[i] != slots[j]
  }

  /** `validatePoolSlots`, on the slot each pool actually gets. */
  method ValidatePoolSlots(pools: Pools) returns (problems: seq<SlotProblem>)
    ensures forall q :: q in problems <==> SlotFault(Slots(pools), q)
    ensures problems == [] <==> SlotsSound(Slots(pools))
  {
    ghost var slots := Slots(pools);
    ghost var keys := SlotKeys(slots);
    problems := [];
    var owner: map<Int, nat> := map[];
    var i := 0;
    while i < |pools|
      invariant 0 <= i <= |pools|
      invariant Seen(keys, owner, i)
      invariant forall q :: q in problems <==> q.at < i && SlotFault(slots, q)
    {
      var slot := PoolSlot(pools, i);
      SeenStep(keys, owner, i);
      if slot < 0 {
        problems := problems + [NegativeSlot(i)];
      } else if slot in owner {
        problems := problems + [SlotTaken(i, owner[slot])];
      } else {
        owner := owner[slot := i];
      }
      i := i + 1;
    }
    SlotsSoundHasNoFault(slots, problems);
  }

  lemma SlotsSoundHasNoFault(slots: seq<Int>, problems: seq<SlotProblem>)
    requires forall q :: q in problems <==> SlotFault(slots, q)
    ensures problems == [] <==> SlotsSound(slots)
  {
    var keys := SlotKeys(slots);
    DistinctMeansNoRepeat(keys);
    if problems == [] {
      forall i | 0 <= i < |slots|
        ensures slots[i] >= 0
      {
        assert !SlotFault(slots, NegativeSlot(i));
      }
      forall j, first
        ensures !Repeats(keys, j, first)
      {
        assert !SlotFault(slots, SlotTaken(j, first));
      }
      forall i, j | 0 <= i < j < |slots|
        ensures slots[i] != slots[j]
      {
        assert keys[i] != keys[j];
      }
    } else {
      assert SlotFault(slots, problems[0]);
    }
  }

  // Capacity

  /** `highest` is the largest slot, or -1 of none. */
  ghost predicate IsHighest(slots: seq<Int>, highest: Int) {
    && highest >= -1
    && (forall i :: 0 <= i < |slots| ==> slots[i] <= highest)
    && (highest == -1 || highest in slots)
  }

  /** `highestPoolSlot`. */
  method HighestPoolSlot(pools: Pools) returns (highest: Int)
    ensures IsHighest(Slots(pools), highest)
  {
    highest := -1;
    var i := 0;
    while i < |pools|
      invariant 0 <= i <= |pools|
      invariant IsHighest(Slots(pools)[..i], highest)
    {
      assert Slots(pools)[..i + 1] == Slots(pools)[..i] + [PoolSlot(pools, i)];
      if PoolSlot(pools, i) > highest {
        highest := PoolSlot(pools, i);
      }
      i := i + 1;
    }
    assert Slots(pools)[..i] == Slots(pools);
  }

  lemma HighestUnique(slots: seq<Int>, a: Int, b: Int)
    requires IsHighest(slots, a) && IsHighest(slots, b)
    ensures a == b
  {
  }

  /** The addresses the checked sum asks for, in Go's 64 bits. */
  function Needed(highest: Int): Int
    requires highest >= -1
  {
    Words.Wrap(Words.Wrap(highest + RESERVED_SLICES) * POOL_ADDRESS_STRIDE)
  }

  /** What `validatePoolCapacity` lets pass: a subnet it cannot read or finds too big to check,
      or one that holds what the sum asks for. */
  ghost predicate CapacityPasses(t: Topology, highest: Int)
    requires highest >= -1
  {
    t.network.nodeSubnet.Parsed? ==>
      var p := t.network.nodeSubnet.prefix;
      32 - p.bits > MAX_HOST_BITS_CHECKED || Needed(highest) <= p.Size()
  }

  /** `validatePoolCapacity`. */
  method ValidatePoolCapacity(t: Topology) returns (ok: bool)
    ensures forall highest :: IsHighest(Slots(t.pools), highest) ==> (ok <==> CapacityPasses(t, highest))
  {
    var highest := HighestPoolSlot(t.pools);
    forall other | IsHighest(Slots(t.pools), other) { HighestUnique(Slots(t.pools), highest, other); }
    match t.network.nodeSubnet
    case Parsed(prefix) =>
      var hostBits := 32 - prefix.bits;
      if hostBits > MAX_HOST_BITS_CHECKED {
        return true;
      }
      var capacity := Cidr.Pow2(hostBits);
      ok := Needed(highest) <= capacity;
    case _ =>
      ok := true;
  }

  // Names

  function LastOrdinal(count: Int): nat {
    if count - 1 > 0 then count - 1 else 0
  }

  predicate NameFits(cluster: string, pool: string, count: Int) {
    |NodeNames.NodeName(cluster, pool, LastOrdinal(count))| <= MAX_SERVER_NAME
  }

  datatype NameProblem = ControlPlaneTooLong | PoolTooLong(at: nat)

  ghost predicate NameFault(t: Topology, q: NameProblem) {
    && t.name != "" && |t.name| <= MAX_CLUSTER_NAME_LENGTH
    && match q
       case ControlPlaneTooLong => !NameFits(t.name, NodeNames.ROLE_CONTROL_PLANE, t.controlPlane.count)
       case PoolTooLong(i) => i < |t.pools| && t.pools[i].name != "" && !NameFits(t.name, t.pools[i].name, t.pools[i].count)
  }

  /** `validateNodeNames`: only the last name of each pool is looked at. */
  method ValidateNodeNames(t: Topology) returns (problems: seq<NameProblem>)
    ensures forall q :: q in problems <==> NameFault(t, q)
  {
    problems := [];
    if t.name == "" || |t.name| > MAX_CLUSTER_NAME_LENGTH {
      return;
    }
    if !NameFits(t.name, NodeNames.ROLE_CONTROL_PLANE, t.controlPlane.count) {
      problems := [ControlPlaneTooLong];
    }
    var i := 0;
    while i < |t.pools|
      invariant 0 <= i <= |t.pools|
      invariant forall q :: q in problems <==> NameFault(t, q) && (q.PoolTooLong? ==> q.at < i)
    {
      if t.pools[i].name != "" && !NameFits(t.name, t.pools[i].name, t.pools[i].count) {
        problems := problems + [PoolTooLong(i)];
      }
      i := i + 1;
    }
  }

  predicate NameSound(name: string) {
    name != "" && |name| <= MAX_CLUSTER_NAME_LENGTH && NodeNames.LabelShape(name)
  }

  // The whole

  /** What an accepted topology satisfies. */
  ghost predicate Accepted(t: Topology) {
    && NameSound(t.name)
    && Network.Sound(t.network)
    && ControlPlaneSound(t.controlPlane)
    && PoolsSound(t.pools)
    && SlotsSound(Slots(t.pools))
    && (forall highest :: IsHighest(Slots(t.pools), highest) ==> CapacityPasses(t, highest))
    && NameFits(t.name, NodeNames.ROLE_CONTROL_PLANE, t.controlPlane.count)
    && forall i :: 0 <= i < |t.pools| ==> NameFits(t.name, t.pools[i].name, t.pools[i].count)
  }

  lemma PoolNamesTell(t: Topology, i: nat, j: nat)
    requires Accepted(t) && i < |t.pools| && j < |t.pools|
    ensures i != j ==> t.pools[i].name != t.pools[j].name
  {
    if i < j { assert t.pools[i].name != t.pools[j].name; }
    if j < i { assert t.pools[j].name != t.pools[i].name; }
  }

  lemma FaultyNames(t: Topology, q: NameProblem)
    requires NameFault(t, q)
    ensures !Accepted(t)
  {
  }

  /** `Validate`: no problem anywhere is exactly acceptance. */
  method Validate(t: Topology) returns (ok: bool)
    ensures ok <==> Accepted(t)
  {
    var network := Network.ValidateNetwork(t.network);
    var controlPlane := ValidateControlPlane(t.controlPlane);
    var pools := ValidatePools(t.pools);
    var slots := ValidatePoolSlots(t.pools);
    var capacity := ValidatePoolCapacity(t);
    var names := ValidateNodeNames(t);
    var highest := HighestPoolSlot(t.pools);
    ok := NameSound(t.name) && network == [] && controlPlane == [] && pools == [] && slots == [] && capacity && names == [];
    if ok {
      assert !NameFault(t, ControlPlaneTooLong);
      forall i | 0 <= i < |t.pools|
        ensures NameFits(t.name, t.pools[i].name, t.pools[i].count)
      {
        assert !NameFault(t, PoolTooLong(i));
        assert PoolSound(t.pools[i]);
      }
    } else if names != [] {
      FaultyNames(t, names[0]);
    }
  }
}
