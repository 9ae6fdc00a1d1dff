/** Which resources are reported as orphans, and why, kind by kind (tools/orphans/orphans.go). */
module OrphanReasons {
  import opened Ordering
  import opened Decimal
  import opened Orphans

  predicate StackHolds(claims: Claims, kind: string, id: int) {
    kind in claims.held.ids && id in claims.held.ids[kind]
  }

  /** Made by this repository, for a cluster, or by something else. */
  function Maker(labels: Labels): Why {
    if "managed-by" in labels && labels["managed-by"] == "hetzner-iac" then
      LeftBehind(if "cluster" in labels then labels["cluster"] else "")
    else MadeElsewhere
  }

  /** Held by no stack, and of no PersistentVolume or of one whose claim is gone. */
  predicate VolumeReported(v: Volume, claims: Claims, f: Finding) {
    && !StackHolds(claims, "volume", v.id) && (v.name !in claims.volumes || v.name in claims.released)
    && f == Finding("volume", v.name, v.size, if v.name in claims.released then Released else NoVolume)
  }

  /** Held by no stack, and of no Service or of one that is gone. */
  predicate BalancerReported(b: LoadBalancer, claims: Claims, f: Finding) {
    && !StackHolds(claims, "load balancer", b.id)
    && if "hcloud-ccm/service-uid" !in b.labels then f == Finding("load balancer", b.name, 0.0, Maker(b.labels))
       else
         var uid := b.labels["hcloud-ccm/service-uid"];
         uid !in claims.services && f == Finding("load balancer", b.name, 0.0, ServiceGone(uid))
  }

  /** Held by no stack and no node. */
  predicate ServerReported(s: Server, claims: Claims, f: Finding) {
    && !StackHolds(claims, "server", s.id) && s.name !in claims.nodes
    && f == Finding("server", s.name, 0.0, NotANode(s.flavour))
  }

  /** Held by no stack and assigned to nothing. */
  predicate AddressReported(a: PrimaryIP, claims: Claims, f: Finding) {
    && !StackHolds(claims, "primary ip", a.id) && a.assignee == 0
    && f == Finding("primary ip", a.name, 0.0, Unassigned(a.ip))
  }

  /** Held by no stack and baked for a version that is not the pinned one. */
  predicate SnapshotReported(s: Snapshot, claims: Claims, f: Finding) {
    && !StackHolds(claims, "snapshot", s.id)
    && "talos-version" in s.labels && s.labels["talos-version"] != "" && s.labels["talos-version"] != claims.talosVersion
    && f == Finding("snapshot", s.description, s.size, OtherVersion(s.labels["talos-version"], claims.talosVersion))
  }

  /** Held by no stack; a DNS zone is held by its name or its number as well. */
  predicate ResourceReported(r: Resource, claims: Claims, f: Finding) {
    && !StackHolds(claims, r.kind, r.id)
    && !(r.kind == "dns zone" && (r.name in claims.held.zones || FormatInt(r.id) in claims.held.zones))
    && f == Finding(r.kind, r.name, 0.0, Maker(r.labels))
  }

  predicate ItemReported(item: Item, claims: Claims, f: Finding) {
    match item
    case VolumeItem(v) => VolumeReported(v, claims, f)
    case BalancerItem(b) => BalancerReported(b, claims, f)
    case ServerItem(s) => ServerReported(s, claims, f)
    case AddressItem(a) => AddressReported(a, claims, f)
    case SnapshotItem(s) => SnapshotReported(s, claims, f)
    case ResourceItem(r) => ResourceReported(r, claims, f)
  }

  lemma ItemFound(item: Item, claims: Claims, f: Finding)
    ensures !Claimed(item, claims) && f == Report(item, claims) <==> ItemReported(item, claims, f)
  {
  }

  lemma {:induction false} FoundMembers(items: seq<Item>, claims: Claims, f: Finding)
    ensures f in Found(items, claims) <==> exists i :: 0 <= i < |items| && ItemReported(items[i], claims, f)
    decreases |items|
  {
    hide ItemReported, Claimed, Report;
    if items != [] {
      var n := |items| - 1;
      FoundMembers(items[..n], claims, f);
      ItemFound(items[n], claims, f);
    }
  }

  lemma VolumesFound(volumes: seq<Volume>, claims: Claims, f: Finding)
    ensures f in Found(Volumes(volumes), claims) <==> exists v :: v in volumes && VolumeReported(v, claims, f)
  {
    FoundMembers(Volumes(volumes), claims, f);
    hide Found, VolumeReported;
    if v :| v in volumes && VolumeReported(v, claims, f) {
      var i :| 0 <= i < |volumes| && volumes[i] == v;
      assert ItemReported(Volumes(volumes)[i], claims, f);
    }
  }

  lemma BalancersFound(balancers: seq<LoadBalancer>, claims: Claims, f: Finding)
    ensures f in Found(Balancers(balancers), claims) <==> exists b :: b in balancers && BalancerReported(b, claims, f)
  {
    FoundMembers(Balancers(balancers), claims, f);
    hide Found, BalancerReported;
    if b :| b in balancers && BalancerReported(b, claims, f) {
      var i :| 0 <= i < |balancers| && balancers[i] == b;
      assert ItemReported(Balancers(balancers)[i], claims, f);
    }
  }

  lemma ServersFound(servers: seq<Server>, claims: Claims, f: Finding)
    ensures f in Found(Servers(servers), claims) <==> exists s :: s in servers && ServerReported(s, claims, f)
  {
    FoundMembers(Servers(servers), claims, f);
    hide Found, ServerReported;
    if s :| s in servers && ServerReported(s, claims, f) {
      var i :| 0 <= i < |servers| && servers[i] == s;
      assert ItemReported(Servers(servers)[i], claims, f);
    }
  }

  lemma AddressesFound(addresses: seq<PrimaryIP>, claims: Claims, f: Finding)
    ensures f in Found(Addresses(addresses), claims) <==> exists a :: a in addresses && AddressReported(a, claims, f)
  {
    FoundMembers(Addresses(addresses), claims, f);
    hide Found, AddressReported;
    if a :| a in addresses && AddressReported(a, claims, f) {
      var i :| 0 <= i < |addresses| && addresses[i] == a;
      assert ItemReported(Addresses(addresses)[i], claims, f);
    }
  }

  lemma SnapshotsFound(snapshots: seq<Snapshot>, claims: Claims, f: Finding)
    ensures f in Found(Snapshots(snapshots), claims) <==> exists s :: s in snapshots && SnapshotReported(s, claims, f)
  {
    FoundMembers(Snapshots(snapshots), claims, f);
    hide Found, SnapshotReported;
    if s :| s in snapshots && SnapshotReported(s, claims, f) {
      var i :| 0 <= i < |snapshots| && snapshots[i] == s;
      assert ItemReported(Snapshots(snapshots)[i], claims, f);
    }
  }

  lemma OthersFound(resources: seq<Resource>, claims: Claims, f: Finding)
    ensures f in Found(Others(resources), claims) <==> exists r :: r in resources && ResourceReported(r, claims, f)
  {
    FoundMembers(Others(resources), claims, f);
    hide Found, ResourceReported;
    if r :| r in resources && ResourceReported(r, claims, f) {
      var i :| 0 <= i < |resources| && resources[i] == r;
      assert ItemReported(Others(resources)[i], claims, f);
    }
  }

  lemma SortMembers(found: seq<Finding>, f: Finding)
    ensures f in StableSort(found) <==> f in found
  {
    StableSortCorrect(found);
    assert f in multiset(StableSort(found)) <==> f in multiset(found);
  }

  /** The report says of every resource of the project whether and why it is an orphan, and
      nothing of anything else. */
  lemma ReportedExactly(inventory: Inventory, claims: Claims, f: Finding)
    ensures f in StableSort(Found(Items(inventory), claims)) <==>
      || (exists v :: v in inventory.volumes && VolumeReported(v, claims, f))
      || (exists b :: b in inventory.balancers && BalancerReported(b, claims, f))
      || (exists s :: s in inventory.servers && ServerReported(s, claims, f))
      || (exists a :: a in inventory.addresses && AddressReported(a, claims, f))
      || (exists s :: s in inventory.snapshots && SnapshotReported(s, claims, f))
      || (exists r :: r in inventory.resources && ResourceReported(r, claims, f))
  {
    SortMembers(Found(Items(inventory), claims), f);
    FoundInParts(inventory, claims);
    VolumesFound(inventory.volumes, claims, f);
    BalancersFound(inventory.balancers, claims, f);
    ServersFound(inventory.servers, claims, f);
    AddressesFound(inventory.addresses, claims, f);
    SnapshotsFound(inventory.snapshots, claims, f);
    OthersFound(inventory.resources, claims, f);
    hide StableSort, Found, Items, VolumeReported, BalancerReported, ServerReported;
    hide AddressReported, SnapshotReported, ResourceReported;
  }

  /** And it is sorted by kind, then by name. */
  lemma ReportSorted(inventory: Inventory, claims: Claims, i: nat, j: nat)
    requires i < j < |StableSort(Found(Items(inventory), claims))|
    ensures var r := StableSort(Found(Items(inventory), claims));
      Smaller(r[i].kind, r[j].kind) || (r[i].kind == r[j].kind && (Smaller(r[i].name, r[j].name) || r[i].name == r[j].name))
  {
    var r := StableSort(Found(Items(inventory), claims));
    StableSortCorrect(Found(Items(inventory), claims));
    assert !Less(r[j], r[i]);
    LeTotal(r[i].kind, r[j].kind);
    LeTotal(r[i].name, r[j].name);
    LeIsSmaller(r[i].kind, r[j].kind);
    LeIsSmaller(r[i].name, r[j].name);
  }
}
