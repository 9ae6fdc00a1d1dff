/** Filling in what a topology file leaves out (`ApplyDefaults`, internal/pkg/clusterspec/config.go). */
module Defaults {
  import opened Wrappers
  import opened Decimal
  import ClusterTopology

  const API_VERSION := "hetzner-iac/v1"
  const KIND := "Cluster"
  const IP_RANGE := "10.0.0.0/16"
  const NODE_SUBNET := "10.0.1.0/24"
  const POD_CIDR := "10.244.0.0/16"
  const SERVICE_CIDR := "10.96.0.0/12"
  const ROUTING_MODE := "native"
  const KUBERNETES := "v1.37.1"
  const LOAD_BALANCER_TYPE := "lb11"
  const X86 := "x86"
  const ARM := "arm"

  /** `validLocations`. */
  const ZONES: map<string, string> :=
    map["fsn1" := "eu-central", "nbg1" := "eu-central", "hel1" := "eu-central",
        "ash" := "us-east", "hil" := "us-west", "sin" := "ap-southeast"]

  const CONTROL_PLANE_TYPES: map<string, string> := map[X86 := "cx23", ARM := "cax11"]
  const WORKER_TYPES: map<string, string> := map[X86 := "cx33", ARM := "cax21"]

  /** A Go map read: the empty string for a missing key. */
  function Look(table: map<string, string>, key: string): string {
    if key in table then table[key] else ""
  }

  function Or(value: string, fallback: string): string {
    if value == "" then fallback else value
  }

  /** `setBoolIfUnset`. */
  function OrUnset(value: Option<bool>, fallback: bool): Option<bool> {
    if value.None? then Some(fallback) else value
  }

  datatype Placement = Placement(location: string, zone: string)

  datatype Ranges = Ranges(
    ipRange: string, nodeSubnet: string, podCidr: string, serviceCidr: string, routingMode: string,
    publicIPv4: Option<bool>, allowIcmp: Option<bool>)

  datatype Fields = Fields(
    apiVersion: string, kind: string, placement: Placement, ranges: Ranges, architecture: string,
    kubernetes: string, controlPlane: ClusterTopology.ControlPlane, poolTypes: seq<string>)

  class Draft {
    var apiVersion: string
    var kind: string
    var placement: Placement
    var ranges: Ranges
    var architecture: string
    var kubernetes: string
    var controlPlane: ClusterTopology.ControlPlane
    var poolTypes: seq<string>

    constructor (f: Fields)
      ensures View() == f
    {
      apiVersion, kind, placement, ranges := f.apiVersion, f.kind, f.placement, f.ranges;
      architecture, kubernetes, controlPlane, poolTypes := f.architecture, f.kubernetes, f.controlPlane, f.poolTypes;
    }

    function View(): Fields
      reads this
    {
      Fields(apiVersion, kind, placement, ranges, architecture, kubernetes, controlPlane, poolTypes)
    }

    /** `ApplyDefaults`. The architecture is settled before the types that depend on it. */
    method ApplyDefaults()
      modifies this
      ensures View() == Defaulted(old(View()))
    {
      hide Or, OrUnset, Look, ZONES, CONTROL_PLANE_TYPES, WORKER_TYPES, API_VERSION, KIND, X86, KUBERNETES;
      hide IP_RANGE, NODE_SUBNET, POD_CIDR, SERVICE_CIDR, ROUTING_MODE, LOAD_BALANCER_TYPE;
      apiVersion := Or(apiVersion, API_VERSION);
      kind := Or(kind, KIND);
      if placement.location != "" && placement.zone == "" {
        placement := placement.(zone := Look(ZONES, placement.location));
      }
      ranges := ranges.(
        ipRange := Or(ranges.ipRange, IP_RANGE), nodeSubnet := Or(ranges.nodeSubnet, NODE_SUBNET),
        podCidr := Or(ranges.podCidr, POD_CIDR), serviceCidr := Or(ranges.serviceCidr, SERVICE_CIDR),
        routingMode := Or(ranges.routingMode, ROUTING_MODE));
      architecture := Or(architecture, X86);
      kubernetes := Or(kubernetes, KUBERNETES);
      controlPlane := controlPlane.(
        serverType := Or(controlPlane.serverType, Look(CONTROL_PLANE_TYPES, architecture)));
      if controlPlane.count == 0 {
        controlPlane := controlPlane.(count := 1);
      }
      if controlPlane.count > 1 {
        controlPlane := controlPlane.(loadBalancerType := Or(controlPlane.loadBalancerType, LOAD_BALANCER_TYPE));
      }
      FillPools();
      ranges := ranges.(publicIPv4 := OrUnset(ranges.publicIPv4, true), allowIcmp := OrUnset(ranges.allowIcmp, false));
    }

    /** The loop over the pools, which writes each in place. */
    method FillPools()
      modifies this`poolTypes
      ensures poolTypes == Filled(old(poolTypes), architecture)
    {
      var i := 0;
      while i < |poolTypes|
        invariant 0 <= i <= |poolTypes| == |old(poolTypes)|
        invariant forall k :: 0 <= k < i ==> poolTypes[k] == Or(old(poolTypes)[k], Look(WORKER_TYPES, architecture))
        invariant forall k :: i <= k < |poolTypes| ==> poolTypes[k] == old(poolTypes)[k]
      {
        poolTypes := poolTypes[i := Or(poolTypes[i], Look(WORKER_TYPES, architecture))];
        i := i + 1;
      }
    }
  }

  function Filled(types: seq<string>, architecture: string): seq<string> {
    seq(|types|, i requires 0 <= i < |types| => Or(types[i], Look(WORKER_TYPES, architecture)))
  }

  function ControlPlaneFilled(c: ClusterTopology.ControlPlane, architecture: string): ClusterTopology.ControlPlane {
    var count: Int := if c.count == 0 then 1 else c.count;
    ClusterTopology.ControlPlane(
      count, Or(c.serverType, Look(CONTROL_PLANE_TYPES, architecture)),
      if count > 1 then Or(c.loadBalancerType, LOAD_BALANCER_TYPE) else c.loadBalancerType)
  }

  function RangesFilled(r: Ranges): Ranges {
    Ranges(Or(r.ipRange, IP_RANGE), Or(r.nodeSubnet, NODE_SUBNET), Or(r.podCidr, POD_CIDR),
           Or(r.serviceCidr, SERVICE_CIDR), Or(r.routingMode, ROUTING_MODE),
           OrUnset(r.publicIPv4, true), OrUnset(r.allowIcmp, false))
  }

  function Defaulted(f: Fields): Fields {
    var architecture := Or(f.architecture, X86);
    Fields(
      Or(f.apiVersion, API_VERSION), Or(f.kind, KIND),
      if f.placement.location != "" && f.placement.zone == "" then
        f.placement.(zone := Look(ZONES, f.placement.location))
      else f.placement,
      RangesFilled(f.ranges), architecture, Or(f.kubernetes, KUBERNETES),
      ControlPlaneFilled(f.controlPlane, architecture), Filled(f.poolTypes, architecture))
  }

  /** What was given stays, and what was left out is the documented default. */
  predicate Given(was: string, now: string, fallback: string) {
    now == if was == "" then fallback else was
  }

  lemma DefaultsGive(f: Fields)
    ensures var d := Defaulted(f);
      && Given(f.apiVersion, d.apiVersion, "hetzner-iac/v1") && Given(f.kind, d.kind, "Cluster")
      && Given(f.ranges.ipRange, d.ranges.ipRange, "10.0.0.0/16")
      && Given(f.ranges.nodeSubnet, d.ranges.nodeSubnet, "10.0.1.0/24")
      && Given(f.ranges.podCidr, d.ranges.podCidr, "10.244.0.0/16")
      && Given(f.ranges.serviceCidr, d.ranges.serviceCidr, "10.96.0.0/12")
      && Given(f.ranges.routingMode, d.ranges.routingMode, "native")
      && Given(f.architecture, d.architecture, "x86") && Given(f.kubernetes, d.kubernetes, "v1.37.1")
    ensures var was, now := f.ranges, Defaulted(f).ranges;
      && now.publicIPv4 == (if was.publicIPv4 == None then Some(true) else was.publicIPv4)
      && now.allowIcmp == (if was.allowIcmp == None then Some(false) else was.allowIcmp)
    ensures var was, now := f.placement, Defaulted(f).placement;
      && now.location == was.location
      && (was.zone != "" || was.location == "" ==> now.zone == was.zone)
      && (was.zone == "" && was.location in {"fsn1", "nbg1", "hel1"} ==> now.zone == "eu-central")
      && (was.zone == "" ==>
            && (was.location == "ash" ==> now.zone == "us-east") && (was.location == "hil" ==> now.zone == "us-west")
            && (was.location == "sin" ==> now.zone == "ap-southeast"))
      && (was.zone == "" && was.location !in {"fsn1", "nbg1", "hel1", "ash", "hil", "sin"} ==> now.zone == "")
  {
  }

  /** Server types follow the architecture as settled: an empty one is x86, and one that is
      neither x86 nor arm has no types. */
  lemma TypesFollowArchitecture(f: Fields)
    ensures var was, now := f.controlPlane, Defaulted(f).controlPlane;
      && Given(was.serverType, now.serverType,
               if f.architecture in {"", "x86"} then "cx23" else if f.architecture == "arm" then "cax11" else "")
      && now.count == (if was.count == 0 then 1 else was.count)
      && (was.count > 1 ==> Given(was.loadBalancerType, now.loadBalancerType, "lb11"))
      && (was.count <= 1 ==> now.loadBalancerType == was.loadBalancerType)
    ensures |Defaulted(f).poolTypes| == |f.poolTypes|
    ensures forall i :: 0 <= i < |f.poolTypes| ==>
      Given(f.poolTypes[i], Defaulted(f).poolTypes[i],
            if f.architecture in {"", "x86"} then "cx33" else if f.architecture == "arm" then "cax21" else "")
  {
  }

  /** Applying defaults to a topology that has them changes nothing. */
  lemma DefaultsIdempotent(f: Fields)
    ensures Defaulted(Defaulted(f)) == Defaulted(f)
  {
    var architecture := Or(f.architecture, X86);
    assert Filled(Filled(f.poolTypes, architecture), architecture) == Filled(f.poolTypes, architecture);
  }

  /** After defaults the control plane lacks nothing but what the architecture cannot give:
      it can only be wrong in its count, or name an unknown architecture and no server type. */
  lemma DefaultsLeaveOnlyCounts(f: Fields, q: ClusterTopology.ControlPlaneProblem)
    ensures ClusterTopology.ControlPlaneFault(Defaulted(f).controlPlane, q) <==>
      match q
      case TooFew => f.controlPlane.count < 0
      case TooMany => f.controlPlane.count > ClusterTopology.MAX_CONTROL_PLANE_COUNT
      case Even => 2 <= f.controlPlane.count <= ClusterTopology.MAX_CONTROL_PLANE_COUNT && f.controlPlane.count % 2 == 0
      case NoLoadBalancer => false
      case NoServerType => f.controlPlane.serverType == "" && f.architecture !in {"", X86, ARM}
  {
  }
}
