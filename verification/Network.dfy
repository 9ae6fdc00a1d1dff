/** The network section of a topology and its checks
    (`parsePrefix`, `validateNetwork`, internal/pkg/clusterspec/config.go). */
module Network {
  import opened Wrappers
  import opened Cidr

  /** One CIDR field as the YAML holds it. */
  datatype CidrText = Blank | Unreadable | Parsed(prefix: Prefix)

  datatype Network = Network(
    ipRange: CidrText, nodeSubnet: CidrText, podCidr: CidrText, serviceCidr: CidrText,
    adminCidrs: seq<CidrText>)

  datatype Field = IpRange | NodeSubnet | PodCidr | ServiceCidr | Admin(at: nat)

  datatype Reason = Required | NotCidr | HostBitsSet

  datatype Problem =
    | BadField(field: Field, reason: Reason)
    | NotInside
    | Overlapping(first: Field, second: Field)
    | NoAdmins
    | WholeInternet(at: nat)

  /** `parsePrefix`. */
  function ParsePrefix(text: CidrText): Result<Prefix, Reason> {
    match text
    case Blank => Err(Required)
    case Unreadable => Err(NotCidr)
    case Parsed(p) => if p.addr != p.Masked() then Err(HostBitsSet) else Ok(p)
  }

  ghost predicate Usable(text: CidrText) {
    text.Parsed? && text.prefix.addr == text.prefix.Masked()
  }

  ghost predicate Inside(inner: Prefix, outer: Prefix) {
    forall a: Address :: inner.Contains(a) ==> outer.Contains(a)
  }

  ghost predicate Disjoint(p: Prefix, q: Prefix) {
    forall a: Address :: !(p.Contains(a) && q.Contains(a))
  }

  /** What the documentation asks of the network section, in terms of addresses. */
  ghost predicate Sound(n: Network) {
    && Usable(n.ipRange) && Usable(n.nodeSubnet) && Usable(n.podCidr) && Usable(n.serviceCidr)
    && Inside(n.nodeSubnet.prefix, n.ipRange.prefix)
    && Disjoint(n.ipRange.prefix, n.podCidr.prefix)
    && Disjoint(n.ipRange.prefix, n.serviceCidr.prefix)
    && Disjoint(n.podCidr.prefix, n.serviceCidr.prefix)
    && n.adminCidrs != []
    && forall i :: 0 <= i < |n.adminCidrs| ==> Usable(n.adminCidrs[i]) && n.adminCidrs[i].prefix.bits > 0
  }

  ghost predicate FieldText(n: Network, f: Field, text: CidrText) {
    match f
    case IpRange => text == n.ipRange
    case NodeSubnet => text == n.nodeSubnet
    case PodCidr => text == n.podCidr
    case ServiceCidr => text == n.serviceCidr
    case Admin(i) => i < |n.adminCidrs| && text == n.adminCidrs[i]
  }

  ghost predicate BadFor(text: CidrText, reason: Reason) {
    match reason
    case Required => text.Blank?
    case NotCidr => text.Unreadable?
    case HostBitsSet => text.Parsed? && text.prefix.addr != text.prefix.Masked()
  }

  ghost predicate Clash(a: CidrText, b: CidrText) {
    Usable(a) && Usable(b) && !Disjoint(a.prefix, b.prefix)
  }

  /** What deserves a message. */
  ghost predicate Fault(n: Network, q: Problem) {
    match q
    case BadField(f, reason) => exists text :: FieldText(n, f, text) && BadFor(text, reason)
    case NotInside => Usable(n.ipRange) && Usable(n.nodeSubnet) && !Inside(n.nodeSubnet.prefix, n.ipRange.prefix)
    case Overlapping(IpRange, PodCidr) => Clash(n.ipRange, n.podCidr)
    case Overlapping(IpRange, ServiceCidr) => Clash(n.ipRange, n.serviceCidr)
    case Overlapping(PodCidr, ServiceCidr) => Clash(n.podCidr, n.serviceCidr)
    case Overlapping(_, _) => false
    case NoAdmins => n.adminCidrs == []
    case WholeInternet(i) => i < |n.adminCidrs| && Usable(n.adminCidrs[i]) && n.adminCidrs[i].prefix.bits == 0
  }

  datatype Range = Range(field: Field, parsed: Result<Prefix, Reason>)

  ghost predicate RangeClash(ranges: seq<Range>, i: nat, j: nat) {
    && i < j < |ranges|
    && ranges[i].parsed.Ok? && ranges[j].parsed.Ok?
    && !Disjoint(ranges[i].parsed.value, ranges[j].parsed.value)
  }

  /** The loop over the pairs of ranges that must stay disjoint. */
  method OverlapProblems(ranges: seq<Range>) returns (problems: seq<Problem>)
    ensures forall q :: q in problems <==>
      exists i: nat, j: nat :: RangeClash(ranges, i, j) && q == Overlapping(ranges[i].field, ranges[j].field)
  {
    problems := [];
    var i := 0;
    while i < |ranges|
      invariant 0 <= i <= |ranges|
      invariant forall q :: q in problems <==>
        exists k: nat, j: nat :: k < i && RangeClash(ranges, k, j) && q == Overlapping(ranges[k].field, ranges[j].field)
    {
      var first := ranges[i];
      ghost var before := problems;
      var j := i + 1;
      while j < |ranges|
        invariant i < j <= |ranges|
        invariant forall q :: q in problems <==>
          q in before || exists l: nat :: l < j && RangeClash(ranges, i, l) && q == Overlapping(first.field, ranges[l].field)
      {
        var second := ranges[j];
        if first.parsed.Ok? && second.parsed.Ok? {
          OverlapsIsIntersection(first.parsed.value, second.parsed.value);
          if Overlaps(first.parsed.value, second.parsed.value) {
            problems := problems + [Overlapping(first.field, second.field)];
          }
        }
        j := j + 1;
      }
      i := i + 1;
    }
  }

  ghost predicate AdminFault(admins: seq<CidrText>, n: nat, q: Problem)
    requires n <= |admins|
  {
    match q
    case BadField(Admin(i), reason) => i < n && BadFor(admins[i], reason)
    case WholeInternet(i) => i < n && Usable(admins[i]) && admins[i].prefix.bits == 0
    case _ => false
  }

  /** The loop over the admin CIDRs. */
  method AdminProblems(admins: seq<CidrText>) returns (problems: seq<Problem>)
    ensures forall q :: q in problems <==> AdminFault(admins, |admins|, q)
  {
    problems := [];
    var i := 0;
    while i < |admins|
      invariant 0 <= i <= |admins|
      invariant forall q :: q in problems <==> AdminFault(admins, i, q)
    {
      match ParsePrefix(admins[i]) {
        case Err(reason) => problems := problems + [BadField(Admin(i), reason)];
        case Ok(prefix) =>
          if prefix.bits == 0 {
            problems := problems + [WholeInternet(i)];
          }
      }
      i := i + 1;
    }
  }

  /** `record`: keep a field's problem if it has one. */
  function Recorded(field: Field, parsed: Result<Prefix, Reason>): seq<Problem> {
    match parsed
    case Ok(_) => []
    case Err(reason) => [BadField(field, reason)]
  }

  /** `validateNetwork`: exactly the faults, and none exactly on sound networks. */
  method ValidateNetwork(n: Network) returns (problems: seq<Problem>)
    ensures forall q :: q in problems <==> Fault(n, q)
    ensures problems == [] <==> Sound(n)
  {
    var ipRange := ParsePrefix(n.ipRange);
    var nodeSubnet := ParsePrefix(n.nodeSubnet);
    var podCidr := ParsePrefix(n.podCidr);
    var serviceCidr := ParsePrefix(n.serviceCidr);
    problems := Recorded(IpRange, ipRange) + Recorded(NodeSubnet, nodeSubnet)
              + Recorded(PodCidr, podCidr) + Recorded(ServiceCidr, serviceCidr);
    ghost var fields := problems;
    if ipRange.Ok? && nodeSubnet.Ok? {
      ContainsPrefixIsInclusion(ipRange.value, nodeSubnet.value);
      if !ContainsPrefix(ipRange.value, nodeSubnet.value) {
        problems := problems + [NotInside];
      }
    }
    var ranges := [Range(IpRange, ipRange), Range(PodCidr, podCidr), Range(ServiceCidr, serviceCidr)];
    var overlaps := OverlapProblems(ranges);
    problems := problems + overlaps;
    if |n.adminCidrs| == 0 {
      problems := problems + [NoAdmins];
    }
    var admins := AdminProblems(n.adminCidrs);
    problems := problems + admins;
    forall q
      ensures q in problems <==> Fault(n, q)
    {
      RangePairs(n, ranges, q);
      FieldFaults(n, q);
    }
    SoundHasNoFault(n, problems);
  }

  /** The three pairs the list of ranges has. */
  lemma RangePairs(n: Network, ranges: seq<Range>, q: Problem)
    requires ranges == [Range(IpRange, ParsePrefix(n.ipRange)), Range(PodCidr, ParsePrefix(n.podCidr)),
                        Range(ServiceCidr, ParsePrefix(n.serviceCidr))]
    ensures (exists i: nat, j: nat :: RangeClash(ranges, i, j) && q == Overlapping(ranges[i].field, ranges[j].field))
            <==> q.Overlapping? && Fault(n, q)
  {
    forall i: nat, j: nat | RangeClash(ranges, i, j)
      ensures Fault(n, Overlapping(ranges[i].field, ranges[j].field))
    {
      assert (i == 0 && j == 1) || (i == 0 && j == 2) || (i == 1 && j == 2);
    }
    if q.Overlapping? && Fault(n, q) {
      if q.first.PodCidr? {
        assert RangeClash(ranges, 1, 2);
      } else if q.second.PodCidr? {
        assert RangeClash(ranges, 0, 1);
      } else {
        assert RangeClash(ranges, 0, 2);
      }
    }
  }

  lemma FieldFaults(n: Network, q: Problem)
    ensures q.BadField? && !q.field.Admin? ==>
      (Fault(n, q) <==> q in Recorded(IpRange, ParsePrefix(n.ipRange)) + Recorded(NodeSubnet, ParsePrefix(n.nodeSubnet))
                           + Recorded(PodCidr, ParsePrefix(n.podCidr)) + Recorded(ServiceCidr, ParsePrefix(n.serviceCidr)))
    ensures (q.BadField? && q.field.Admin?) || q.WholeInternet? ==>
      (Fault(n, q) <==> AdminFault(n.adminCidrs, |n.adminCidrs|, q))
  {
    if q.BadField? {
      match q.field
      case IpRange => assert FieldText(n, q.field, n.ipRange);
      case NodeSubnet => assert FieldText(n, q.field, n.nodeSubnet);
      case PodCidr => assert FieldText(n, q.field, n.podCidr);
      case ServiceCidr => assert FieldText(n, q.field, n.serviceCidr);
      case Admin(i) => if i < |n.adminCidrs| { assert FieldText(n, q.field, n.adminCidrs[i]); }
    }
  }

  lemma UsableOrBad(n: Network, f: Field, text: CidrText)
    requires FieldText(n, f, text)
    ensures Usable(text) <==> forall reason :: !Fault(n, BadField(f, reason))
  {
    if !Usable(text) {
      var reason := ParsePrefix(text).error;
      assert BadFor(text, reason);
      assert Fault(n, BadField(f, reason));
    }
  }

  lemma SoundHasNoFault(n: Network, problems: seq<Problem>)
    requires forall q :: q in problems <==> Fault(n, q)
    ensures problems == [] <==> Sound(n)
  {
    if problems == [] {
      FaultlessIsSound(n);
    } else {
      assert Fault(n, problems[0]);
      SoundIsFaultless(n, problems[0]);
    }
  }

  lemma SoundIsFaultless(n: Network, q: Problem)
    requires Fault(n, q)
    ensures !Sound(n)
  {
    if q.BadField? {
      var text :| FieldText(n, q.field, text) && BadFor(text, q.reason);
    }
  }

  lemma FaultlessIsSound(n: Network)
    requires forall q :: !Fault(n, q)
    ensures Sound(n)
  {
    UsableOrBad(n, IpRange, n.ipRange);
    UsableOrBad(n, NodeSubnet, n.nodeSubnet);
    UsableOrBad(n, PodCidr, n.podCidr);
    UsableOrBad(n, ServiceCidr, n.serviceCidr);
    assert !Fault(n, NotInside) && !Fault(n, NoAdmins);
    assert !Fault(n, Overlapping(IpRange, PodCidr));
    assert !Fault(n, Overlapping(IpRange, ServiceCidr));
    assert !Fault(n, Overlapping(PodCidr, ServiceCidr));
    forall i: nat | i < |n.adminCidrs|
      ensures Usable(n.adminCidrs[i]) && n.adminCidrs[i].prefix.bits > 0
    {
      UsableOrBad(n, Admin(i), n.adminCidrs[i]);
      assert !Fault(n, WholeInternet(i));
    }
  }
}
