/** The address plan (internal/pkg/clusterspec/addressing.go): a node's private address as a
    function of its slice, its ordinal, the node subnet and the stride. */
module Addressing {
  import opened Wrappers
  import opened Cidr
  import opened Decimal
  import opened Words

  const RESERVED_PER_SUBNET := 2
  const API_LOAD_BALANCER_FROM_TOP := 1
  const INGRESS_LOAD_BALANCER_FROM_TOP := 2
  const LOAD_BALANCER_ADDRESSES := INGRESS_LOAD_BALANCER_FROM_TOP

  datatype PlanError = StrideTooSmall | OrdinalTooBig | Negative | OutsideSubnet

  function ControlPlaneCapacity(stride: Int): Int
    requires stride >= 0
  {
    stride - RESERVED_PER_SUBNET - LOAD_BALANCER_ADDRESSES
  }

  datatype Plan = Plan(subnet: Prefix, stride: Int) {
    /** What `NewAddressing` hands out: a masked subnet and a stride that seats someone. */
    predicate Valid() {
      stride >= 5 && subnet.addr == subnet.Masked()
    }

    /** `at`: the bounds check in 64 bits, the sum in 32. */
    function At(offset: Int): Result<Quad, PlanError> {
      var base := Word(Octets(subnet.addr));
      if Unsigned(offset) >= subnet.Size() then
        Err(OutsideSubnet)
      else
        Ok(Octets(Sum32(base, Unsigned(offset))))
    }

    function ControlPlaneIP(ordinal: Int): Result<Quad, PlanError>
      requires stride >= 0
    {
      if ordinal < 0 then Err(Negative)
      else if ordinal >= ControlPlaneCapacity(stride) then Err(OrdinalTooBig)
      else At(RESERVED_PER_SUBNET + ordinal)
    }

    function WorkerIP(slot: Int, ordinal: Int): Result<Quad, PlanError> {
      if slot < 0 then Err(Negative)
      else if ordinal < 0 then Err(Negative)
      else if ordinal >= stride then Err(OrdinalTooBig)
      else At(Wrap(Wrap(Wrap(slot + 1) * stride) + ordinal))
    }

    function ApiLoadBalancerIP(): Result<Quad, PlanError>
      requires stride >= 5
    {
      At(stride - API_LOAD_BALANCER_FROM_TOP)
    }

    function IngressLoadBalancerIP(): Result<Quad, PlanError>
      requires stride >= 5
    {
      At(stride - INGRESS_LOAD_BALANCER_FROM_TOP)
    }
  }

  /** `NewAddressing` on a parsed prefix. */
  function NewAddressing(nodeSubnet: Prefix, stride: Int): (r: Result<Plan, PlanError>)
    requires stride >= 0
    ensures r.Ok? ==> r.value.Valid() && forall a: Address :: r.value.subnet.Contains(a) <==> nodeSubnet.Contains(a)
    ensures r.Ok? <==> ControlPlaneCapacity(stride) >= 1
  {
    if ControlPlaneCapacity(stride) < 1 then
      Err(StrideTooSmall)
    else
      PrefixIsRun(nodeSubnet);
      var masked := nodeSubnet.(addr := nodeSubnet.Masked());
      assert masked.Masked() == nodeSubnet.Masked();
      Ok(Plan(masked, stride))
  }

  /** An offset has an address exactly when it lies in the subnet, and then it is the base plus
      the offset: the 32-bit sum never wraps and the octets lose nothing. */
  lemma AtExactly(plan: Plan, offset: Int)
    requires plan.Valid()
    ensures plan.At(offset).Ok? <==> 0 <= offset < plan.subnet.Size()
    ensures plan.At(offset).Ok? ==>
      && Word(plan.At(offset).value) == plan.subnet.addr + offset
      && plan.subnet.Contains(Word(plan.At(offset).value))
  {
    PrefixIsRun(plan.subnet);
    if 0 <= offset < plan.subnet.Size() {
      AtSum(plan, offset);
      OctetsRoundTrip(plan.subnet.addr + offset);
    }
  }

  lemma AtSum(plan: Plan, offset: Int)
    requires plan.subnet.addr + plan.subnet.Size() <= SPACE && 0 <= offset < plan.subnet.Size()
    ensures plan.At(offset) == Ok(Octets(plan.subnet.addr + offset))
  {
    OctetsRoundTrip(plan.subnet.addr);
    NoWrap(plan.subnet.addr, plan.subnet.Size(), offset);
  }

  /** A slice whose end is representable starts where the layout puts it. */
  lemma WorkerOffset(plan: Plan, slot: Int, ordinal: Int)
    requires plan.Valid() && slot >= 0 && 0 <= ordinal < plan.stride
    requires (slot + 2) * plan.stride <= MAX_INT
    ensures Wrap(Wrap(Wrap(slot + 1) * plan.stride) + ordinal) == (slot + 1) * plan.stride + ordinal
    ensures plan.WorkerIP(slot, ordinal) == plan.At((slot + 1) * plan.stride + ordinal)
  {
    var start := SliceStart(slot, plan.stride, ordinal);
    Unwrapped(slot + 1);
    SameProduct(Wrap(slot + 1), slot + 1, plan.stride);
    Unwrapped(start);
    Unwrapped(start + ordinal);
    hide Wrap, Plan.At, Plan.Valid;
  }

  lemma SliceStart(slot: Int, stride: Int, ordinal: Int) returns (start: Int)
    requires slot >= 0 && 0 <= ordinal < stride && (slot + 2) * stride <= MAX_INT
    ensures start == (slot + 1) * stride && 0 <= start && start + ordinal <= MAX_INT && slot + 1 <= MAX_INT
  {
    SliceBounds(slot, stride);
    start := (slot + 1) * stride;
  }

  lemma SameProduct(a: int, b: int, c: int)
    requires a == b
    ensures a * c == b * c
  {
  }

  lemma Unwrapped(n: int)
    requires 0 <= n <= MAX_INT
    ensures Wrap(n) == n
  {
  }

  /** A node outside its slice is refused as such, whatever the subnet holds there: a worker below
      zero or at the stride, a control-plane node below zero or at the two balancers' addresses. */
  lemma OutsideSlice(plan: Plan, slot: Int, ordinal: Int)
    requires plan.Valid()
    ensures plan.WorkerIP(slot, ordinal).Err? && plan.WorkerIP(slot, ordinal).error != OutsideSubnet <==>
      slot < 0 || ordinal < 0 || ordinal >= plan.stride
    ensures plan.ControlPlaneIP(ordinal).Err? && plan.ControlPlaneIP(ordinal).error != OutsideSubnet <==>
      ordinal < 0 || 2 + ordinal >= plan.stride - 2
  {
  }

  lemma SliceBounds(slot: nat, stride: nat)
    requires stride > 0
    ensures slot + 1 <= (slot + 1) * stride
    ensures (slot + 1) * stride + stride == (slot + 2) * stride
  {
    TimesGrows(1, stride, slot + 1);
  }
}
