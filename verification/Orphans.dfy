/** Which resources of the project nothing accounts for (tools/orphans/orphans.go). */
module Orphans {
  import opened Ordering
  import opened Decimal

  const VOLUME := "volume"
  const LOAD_BALANCER := "load balancer"
  const SERVER := "server"
  const PRIMARY_IP := "primary ip"
  const SNAPSHOT := "snapshot"
  const ZONE := "dns zone"

  const SERVICE_UID := "hcloud-ccm/service-uid"
  const TALOS_VERSION := "talos-version"
  const MANAGED_BY := "managed-by"
  const CLUSTER := "cluster"
  const THIS_REPOSITORY := "hetzner-iac"

  type Labels = map<string, string>

  datatype Volume = Volume(id: int, name: string, size: real)
  datatype LoadBalancer = LoadBalancer(id: int, name: string, labels: Labels)
  datatype Server = Server(id: int, name: string, flavour: string)
  datatype PrimaryIP = PrimaryIP(id: int, name: string, ip: string, assignee: int)
  datatype Snapshot = Snapshot(id: int, description: string, size: real, labels: Labels)
  datatype Resource = Resource(kind: string, id: int, name: string, labels: Labels)

  datatype Inventory = Inventory(
    volumes: seq<Volume>, balancers: seq<LoadBalancer>, servers: seq<Server>,
    addresses: seq<PrimaryIP>, snapshots: seq<Snapshot>, resources: seq<Resource>)

  /** What the stacks' states hold. */
  datatype Holdings = Holdings(ids: map<string, set<int>>, zones: set<string>) {
    predicate Holds(kind: string, id: int) {
      kind in ids && id in ids[kind]
    }

    /** A zone is held by name or by the decimal text of its ID. */
    predicate HoldsZone(zone: Resource) {
      zone.name in zones || FormatInt(zone.id) in zones
    }
  }

  /** The table the states are read into. */
  class Held {
    var ids: map<string, set<int>>
    var zones: set<string>

    constructor ()
      ensures View() == Holdings(map[], {})
    {
      ids, zones := map[], {};
    }

    function View(): Holdings
      reads this
    {
      Holdings(ids, zones)
    }

    /** Adds one resource; what was held stays held, and nothing else becomes so. */
    method Add(kind: string, id: int)
      modifies this
      ensures forall k, i :: View().Holds(k, i) <==> old(View().Holds(k, i)) || (k == kind && i == id)
      ensures zones == old(zones)
    {
      if kind !in ids {
        ids := ids[kind := {}];
      }
      ids := ids[kind := ids[kind] + {id}];
    }
  }

  datatype Claims = Claims(
    held: Holdings, volumes: set<string>, released: set<string>, services: set<string>,
    nodes: set<string>, talosVersion: string)

  /** What makes a resource an orphan. */
  datatype Why =
    | NotANode(flavour: string)
    | Unassigned(ip: string)
    | LeftBehind(cluster: string)
    | MadeElsewhere
    | OtherVersion(version: string, pinned: string)
    | Released
    | NoVolume
    | ServiceGone(uid: string)

  datatype Finding = Finding(kind: string, name: string, size: real, why: Why)

  function Label(labels: Labels, key: string): string {
    if key in labels then labels[key] else ""
  }

  /** `unheld`. */
  function Unheld(labels: Labels): Why {
    if Label(labels, MANAGED_BY) == THIS_REPOSITORY then LeftBehind(Label(labels, CLUSTER)) else MadeElsewhere
  }

  // The judgement, resource by resource.

  datatype Item =
    | VolumeItem(volume: Volume)
    | BalancerItem(balancer: LoadBalancer)
    | ServerItem(server: Server)
    | AddressItem(address: PrimaryIP)
    | SnapshotItem(snapshot: Snapshot)
    | ResourceItem(resource: Resource)

  /** Whether something accounts for the resource. */
  predicate Claimed(item: Item, claims: Claims) {
    match item
    case VolumeItem(v) => claims.held.Holds(VOLUME, v.id) || (v.name in claims.volumes && v.name !in claims.released)
    case BalancerItem(b) =>
      claims.held.Holds(LOAD_BALANCER, b.id) || (SERVICE_UID in b.labels && b.labels[SERVICE_UID] in claims.services)
    case ServerItem(s) => claims.held.Holds(SERVER, s.id) || s.name in claims.nodes
    case AddressItem(a) => claims.held.Holds(PRIMARY_IP, a.id) || a.assignee != 0
    case SnapshotItem(s) =>
      claims.held.Holds(SNAPSHOT, s.id) || Label(s.labels, TALOS_VERSION) in {"", claims.talosVersion}
    case ResourceItem(r) => claims.held.Holds(r.kind, r.id) || (r.kind == ZONE && claims.held.HoldsZone(r))
  }

  /** What the report says of a resource nothing accounts for. */
  function Report(item: Item, claims: Claims): Finding {
    match item
    case VolumeItem(v) => Finding(VOLUME, v.name, v.size, if v.name in claims.released then Released else NoVolume)
    case BalancerItem(b) =>
      Finding(LOAD_BALANCER, b.name, 0.0,
              if SERVICE_UID in b.labels then ServiceGone(b.labels[SERVICE_UID]) else Unheld(b.labels))
    case ServerItem(s) => Finding(SERVER, s.name, 0.0, NotANode(s.flavour))
    case AddressItem(a) => Finding(PRIMARY_IP, a.name, 0.0, Unassigned(a.ip))
    case SnapshotItem(s) =>
      Finding(SNAPSHOT, s.description, s.size, OtherVersion(Label(s.labels, TALOS_VERSION), claims.talosVersion))
    case ResourceItem(r) => Finding(r.kind, r.name, 0.0, Unheld(r.labels))
  }

  /** One finding per unclaimed item, in the items' order. */
  function Found(items: seq<Item>, claims: Claims): seq<Finding> {
    if items == [] then []
    else Found(items[..|items| - 1], claims)
         + if Claimed(items[|items| - 1], claims) then [] else [Report(items[|items| - 1], claims)]
  }

  lemma FoundStep(items: seq<Item>, i: nat, claims: Claims)
    requires i < |items|
    ensures Found(items[..i + 1], claims)
            == Found(items[..i], claims) + if Claimed(items[i], claims) then [] else [Report(items[i], claims)]
  {
    assert items[..i + 1][..i] == items[..i];
  }

  function Volumes(volumes: seq<Volume>): seq<Item> {
    seq(|volumes|, i requires 0 <= i < |volumes| => VolumeItem(volumes[i]))
  }

  /** `volumeFindings`. */
  method VolumeFindings(volumes: seq<Volume>, claims: Claims) returns (found: seq<Finding>)
    ensures found == Found(Volumes(volumes), claims)
  {
    found := [];
    ghost var items := Volumes(volumes);
    for i := 0 to |volumes|
      invariant found == Found(items[..i], claims)
    {
      FoundStep(items, i, claims);
      var volume := volumes[i];
      if claims.held.Holds(VOLUME, volume.id) {
        continue;
      }
      if volume.name in claims.released {
        found := found + [Finding(VOLUME, volume.name, volume.size, Released)];
        continue;
      }
      if volume.name in claims.volumes {
        continue;
      }
      found := found + [Finding(VOLUME, volume.name, volume.size, NoVolume)];
    }
    assert items[..|volumes|] == items;
  }

  function Balancers(balancers: seq<LoadBalancer>): seq<Item> {
    seq(|balancers|, i requires 0 <= i < |balancers| => BalancerItem(balancers[i]))
  }

  /** `loadBalancerFindings`. */
  method LoadBalancerFindings(balancers: seq<LoadBalancer>, claims: Claims) returns (found: seq<Finding>)
    ensures found == Found(Balancers(balancers), claims)
  {
    found := [];
    ghost var items := Balancers(balancers);
    for i := 0 to |balancers|
      invariant found == Found(items[..i], claims)
    {
      FoundStep(items, i, claims);
      var balancer := balancers[i];
      if claims.held.Holds(LOAD_BALANCER, balancer.id) {
        continue;
      }
      if SERVICE_UID !in balancer.labels {
        found := found + [Finding(LOAD_BALANCER, balancer.name, 0.0, Unheld(balancer.labels))];
      } else if balancer.labels[SERVICE_UID] !in claims.services {
        found := found + [Finding(LOAD_BALANCER, balancer.name, 0.0, ServiceGone(balancer.labels[SERVICE_UID]))];
      }
    }
    assert items[..|balancers|] == items;
  }

  function Servers(servers: seq<Server>): seq<Item> {
    seq(|servers|, i requires 0 <= i < |servers| => ServerItem(servers[i]))
  }

  /** `serverFindings`. */
  method ServerFindings(servers: seq<Server>, claims: Claims) returns (found: seq<Finding>)
    ensures found == Found(Servers(servers), claims)
  {
    found := [];
    ghost var items := Servers(servers);
    for i := 0 to |servers|
      invariant found == Found(items[..i], claims)
    {
      FoundStep(items, i, claims);
      var server := servers[i];
      if server.name in claims.nodes || claims.held.Holds(SERVER, server.id) {
        continue;
      }
      found := found + [Finding(SERVER, server.name, 0.0, NotANode(server.flavour))];
    }
    assert items[..|servers|] == items;
  }

  function Addresses(addresses: seq<PrimaryIP>): seq<Item> {
    seq(|addresses|, i requires 0 <= i < |addresses| => AddressItem(addresses[i]))
  }

  /** `primaryIPFindings`. */
  method PrimaryIPFindings(addresses: seq<PrimaryIP>, claims: Claims) returns (found: seq<Finding>)
    ensures found == Found(Addresses(addresses), claims)
  {
    found := [];
    ghost var items := Addresses(addresses);
    for i := 0 to |addresses|
      invariant found == Found(items[..i], claims)
    {
      FoundStep(items, i, claims);
      var address := addresses[i];
      if address.assignee != 0 || claims.held.Holds(PRIMARY_IP, address.id) {
        continue;
      }
      found := found + [Finding(PRIMARY_IP, address.name, 0.0, Unassigned(address.ip))];
    }
    assert items[..|addresses|] == items;
  }

  function Snapshots(snapshots: seq<Snapshot>): seq<Item> {
    seq(|snapshots|, i requires 0 <= i < |snapshots| => SnapshotItem(snapshots[i]))
  }

  /** `snapshotFindings`. */
  method SnapshotFindings(snapshots: seq<Snapshot>, claims: Claims) returns (found: seq<Finding>)
    ensures found == Found(Snapshots(snapshots), claims)
  {
    found := [];
    ghost var items := Snapshots(snapshots);
    for i := 0 to |snapshots|
      invariant found == Found(items[..i], claims)
    {
      FoundStep(items, i, claims);
      var snapshot := snapshots[i];
      var version := Label(snapshot.labels, TALOS_VERSION);
      if claims.held.Holds(SNAPSHOT, snapshot.id) || version == "" || version == claims.talosVersion {
        continue;
      }
      found := found + [Finding(SNAPSHOT, snapshot.description, snapshot.size, OtherVersion(version, claims.talosVersion))];
    }
    assert items[..|snapshots|] == items;
  }

  function Others(resources: seq<Resource>): seq<Item> {
    seq(|resources|, i requires 0 <= i < |resources| => ResourceItem(resources[i]))
  }

  /** `resourceFindings`. */
  method ResourceFindings(resources: seq<Resource>, claims: Claims) returns (found: seq<Finding>)
    ensures found == Found(Others(resources), claims)
  {
    found := [];
    ghost var items := Others(resources);
    for i := 0 to |resources|
      invariant found == Found(items[..i], claims)
    {
      FoundStep(items, i, claims);
      var res := resources[i];
      if claims.held.Holds(res.kind, res.id) || (res.kind == ZONE && claims.held.HoldsZone(res)) {
        continue;
      }
      found := found + [Finding(res.kind, res.name, 0.0, Unheld(res.labels))];
    }
    assert items[..|resources|] == items;
  }

  /** Everything the project holds. */
  function Items(inventory: Inventory): seq<Item> {
    Volumes(inventory.volumes) + Balancers(inventory.balancers) + Servers(inventory.servers)
    + Addresses(inventory.addresses) + Snapshots(inventory.snapshots) + Others(inventory.resources)
  }

  lemma {:induction false} FoundAppend(a: seq<Item>, b: seq<Item>, claims: Claims)
    ensures Found(a + b, claims) == Found(a, claims) + Found(b, claims)
    decreases |b|
  {
    if b == [] {
      assert a + b == a;
    } else {
      var n := |b| - 1;
      FoundAppend(a, b[..n], claims);
      assert (a + b)[..|a| + n] == a + b[..n];
    }
  }

  // The report's order.

  /** `lessFinding`. */
  predicate Less(a: Finding, b: Finding) {
    if a.kind != b.kind then Le(a.kind, b.kind) else a.name != b.name && Le(a.name, b.name)
  }

  predicate SameKey(a: Finding, b: Finding) {
    a.kind == b.kind && a.name == b.name
  }

  lemma LessTotal(a: Finding, b: Finding)
    ensures Less(a, b) || Less(b, a) || SameKey(a, b)
    ensures !(Less(a, b) && Less(b, a)) && (SameKey(a, b) ==> !Less(a, b))
  {
    LeTotal(a.kind, b.kind);
    LeTotal(a.name, b.name);
    if Less(a, b) && Less(b, a) {
      if a.kind != b.kind { LeAntisymmetric(a.kind, b.kind); } else { LeAntisymmetric(a.name, b.name); }
    }
  }

  lemma NotLessTransitive(a: Finding, b: Finding, c: Finding)
    requires !Less(b, a) && !Less(c, b)
    ensures !Less(c, a)
  {
    hide Le;
    LessTotal(a, b);
    LessTotal(b, c);
    LessTotal(a, c);
    if Less(a, b) && Less(b, c) {
      LessTransitive(a, b, c);
    }
  }

  lemma LessTransitive(a: Finding, b: Finding, c: Finding)
    requires Less(a, b) && Less(b, c)
    ensures Less(a, c)
  {
    hide Le;
    LessTotal(a, b);
    LessTotal(b, c);
    if a.kind != b.kind && b.kind != c.kind {
      LeTransitive(a.kind, b.kind, c.kind);
    } else if a.kind == b.kind == c.kind {
      LeTransitive(a.name, b.name, c.name);
      if a.name == c.name { LeAntisymmetric(a.name, b.name); }
    }
    if a.kind == c.kind && a.kind != b.kind { LeAntisymmetric(a.kind, b.kind); }
  }

  ghost predicate InOrder(s: seq<Finding>) {
    forall i, j :: 0 <= i < j < |s| ==> !Less(s[j], s[i])
  }

  /** `x` goes behind everything not after it. */
  function Insert(s: seq<Finding>, x: Finding): seq<Finding> {
    if s == [] || !Less(x, s[|s| - 1]) then s + [x]
    else Insert(s[..|s| - 1], x) + [s[|s| - 1]]
  }

  /** `sort.SliceStable` with `lessFinding`. */
  function StableSort(s: seq<Finding>): seq<Finding> {
    if s == [] then [] else Insert(StableSort(s[..|s| - 1]), s[|s| - 1])
  }

  /** `Orphans`. */
  method Orphans(inventory: Inventory, claims: Claims) returns (found: seq<Finding>)
    ensures found == StableSort(Found(Items(inventory), claims))
  {
    var volumes := VolumeFindings(inventory.volumes, claims);
    var balancers := LoadBalancerFindings(inventory.balancers, claims);
    var servers := ServerFindings(inventory.servers, claims);
    var addresses := PrimaryIPFindings(inventory.addresses, claims);
    var snapshots := SnapshotFindings(inventory.snapshots, claims);
    var resources := ResourceFindings(inventory.resources, claims);
    FoundInParts(inventory, claims);
    found := StableSort(volumes + balancers + servers + addresses + snapshots + resources);
  }

  lemma FoundInParts(inventory: Inventory, claims: Claims)
    ensures Found(Items(inventory), claims)
            == Found(Volumes(inventory.volumes), claims) + Found(Balancers(inventory.balancers), claims)
               + Found(Servers(inventory.servers), claims) + Found(Addresses(inventory.addresses), claims)
               + Found(Snapshots(inventory.snapshots), claims) + Found(Others(inventory.resources), claims)
  {
    var v, b, s := Volumes(inventory.volumes), Balancers(inventory.balancers), Servers(inventory.servers);
    var a, n, o := Addresses(inventory.addresses), Snapshots(inventory.snapshots), Others(inventory.resources);
    hide *;
    FoundAppend(v, b, claims);
    FoundAppend(v + b, s, claims);
    FoundAppend(v + b + s, a, claims);
    FoundAppend(v + b + s + a, n, claims);
    FoundAppend(v + b + s + a + n, o, claims);
    ItemsInParts(inventory);
  }

  lemma ItemsInParts(inventory: Inventory)
    ensures Items(inventory)
            == Volumes(inventory.volumes) + Balancers(inventory.balancers) + Servers(inventory.servers)
               + Addresses(inventory.addresses) + Snapshots(inventory.snapshots) + Others(inventory.resources)
  {
  }

  // What the order is.

  /** The findings of one kind and name, in the order they stand. */
  function OfKey(s: seq<Finding>, key: Finding): seq<Finding> {
    if s == [] then []
    else OfKey(s[..|s| - 1], key) + if SameKey(s[|s| - 1], key) then [s[|s| - 1]] else []
  }

  lemma OfKeyLast(s: seq<Finding>, x: Finding, key: Finding)
    ensures OfKey(s + [x], key) == OfKey(s, key) + if SameKey(x, key) then [x] else []
  {
  }

  lemma {:induction false} InsertKeeps(s: seq<Finding>, x: Finding)
    ensures multiset(Insert(s, x)) == multiset(s) + multiset{x}
    decreases |s|
  {
    if s != [] && Less(x, s[|s| - 1]) {
      InsertKeeps(s[..|s| - 1], x);
      assert s == s[..|s| - 1] + [s[|s| - 1]];
    }
  }

  lemma {:induction false} InsertStable(s: seq<Finding>, x: Finding, key: Finding)
    ensures OfKey(Insert(s, x), key) == OfKey(s + [x], key)
    decreases |s|
  {
    hide Less, SameKey;
    OfKeyLast(s, x, key);
    if s != [] && Less(x, s[|s| - 1]) {
      var before, last := s[..|s| - 1], s[|s| - 1];
      InsertStable(before, x, key);
      OfKeyLast(before, x, key);
      OfKeyLast(Insert(before, x), last, key);
      OneOfKey(x, last, key);
    }
  }

  lemma OneOfKey(x: Finding, y: Finding, key: Finding)
    requires Less(x, y)
    ensures !(SameKey(x, key) && SameKey(y, key))
  {
  }

  lemma {:induction false} InsertInOrder(s: seq<Finding>, x: Finding)
    requires InOrder(s)
    ensures InOrder(Insert(s, x))
    decreases |s|
  {
    hide Less, SameKey;
    if s == [] || !Less(x, s[|s| - 1]) {
      BehindAll(s, x);
    } else {
      var before, last := s[..|s| - 1], s[|s| - 1];
      InsertInOrder(before, x);
      InsertKeeps(before, x);
      LessTotal(x, last);
      var r := Insert(before, x);
      forall y | y in r
        ensures !Less(last, y)
      {
        assert y in multiset(r);
        assert y in multiset(before) || y == x;
      }
    }
  }

  /** What is not before the last is not before any. */
  lemma BehindAll(s: seq<Finding>, x: Finding)
    requires InOrder(s) && (s == [] || !Less(x, s[|s| - 1]))
    ensures InOrder(s + [x])
  {
    hide Less;
    forall i | 0 <= i < |s|
      ensures !Less(x, s[i])
    {
      if i < |s| - 1 { NotLessTransitive(s[i], s[|s| - 1], x); }
    }
  }

  /** The report holds the same findings, ordered by kind then name, those of one kind and name
      in the order they were found. */
  lemma {:induction false} StableSortCorrect(s: seq<Finding>)
    ensures multiset(StableSort(s)) == multiset(s)
    ensures InOrder(StableSort(s))
    ensures forall key :: OfKey(StableSort(s), key) == OfKey(s, key)
    decreases |s|
  {
    hide Less, SameKey;
    if s != [] {
      var before, last := s[..|s| - 1], s[|s| - 1];
      assert s == before + [last];
      StableSortCorrect(before);
      InsertKeeps(StableSort(before), last);
      InsertInOrder(StableSort(before), last);
      forall key
        ensures OfKey(StableSort(s), key) == OfKey(s, key)
      {
        InsertStable(StableSort(before), last, key);
        OfKeyLast(StableSort(before), last, key);
        OfKeyLast(before, last, key);
      }
    }
  }

  lemma {:induction false} OfKeyHas(s: seq<Finding>, key: Finding)
    ensures OfKey(s, key) != [] <==> exists x :: x in s && SameKey(x, key)
    decreases |s|
  {
    if s != [] {
      OfKeyHas(s[..|s| - 1], key);
      assert s == s[..|s| - 1] + [s[|s| - 1]];
    }
  }

  lemma LessByKey(a: Finding, b: Finding, c: Finding, d: Finding)
    requires SameKey(a, c) && SameKey(b, d)
    ensures Less(a, b) == Less(c, d)
  {
  }

  /** The last of an ordered list is after everything with any key that occurs in it. */
  lemma LastIsGreatest(s: seq<Finding>, x: Finding)
    requires InOrder(s) && s != [] && OfKey(s, x) != []
    ensures !Less(s[|s| - 1], x)
  {
    hide Less;
    OfKeyHas(s, x);
    var y :| y in s && SameKey(y, x);
    var i :| 0 <= i < |s| && s[i] == y;
    LessTotal(s[|s| - 1], y);
    assert SameKey(s[|s| - 1], s[|s| - 1]);
    LessByKey(s[|s| - 1], y, s[|s| - 1], x);
    LessTotal(s[|s| - 1], s[|s| - 1]);
  }

  /** Those properties leave no choice: any sort that has them gives this report. */
  lemma {:induction false} OrderDetermined(a: seq<Finding>, b: seq<Finding>)
    requires InOrder(a) && InOrder(b)
    requires forall key :: OfKey(a, key) == OfKey(b, key)
    ensures a == b
    decreases |a|
  {
    hide Less, SameKey, OfKey;
    if a == [] || b == [] {
      EmptyByKey(a, b);
      EmptyByKey(b, a);
    } else {
      var x, y, restA, restB := a[|a| - 1], b[|b| - 1], a[..|a| - 1], b[..|b| - 1];
      assert a == restA + [x] && b == restB + [y];
      SameLast(restA, x, restB, y);
      forall key
        ensures OfKey(restA, key) == OfKey(restB, key)
      {
        OfKeyLast(restA, x, key);
        OfKeyLast(restB, y, key);
        assert OfKey(a, key) == OfKey(b, key);
        SameBefore(OfKey(restA, key), OfKey(restB, key), if SameKey(x, key) then [x] else []);
      }
      OrderDetermined(restA, restB);
    }
  }

  lemma SameBefore(p: seq<Finding>, q: seq<Finding>, s: seq<Finding>)
    requires p + s == q + s
    ensures p == q
  {
    assert |p| == |q|;
    assert p == (p + s)[..|p|] && q == (q + s)[..|q|];
  }

  lemma SameEnd(p: seq<Finding>, x: Finding, q: seq<Finding>, y: Finding)
    requires p + [x] == q + [y]
    ensures x == y
  {
    assert (p + [x])[|p + [x]| - 1] == x && (q + [y])[|q + [y]| - 1] == y;
  }

  lemma EmptyByKey(a: seq<Finding>, b: seq<Finding>)
    requires forall key :: OfKey(a, key) == OfKey(b, key)
    ensures a == [] ==> b == []
  {
    if b != [] {
      OfKeyLast(b[..|b| - 1], b[|b| - 1], b[|b| - 1]);
      assert b == b[..|b| - 1] + [b[|b| - 1]];
      assert OfKey(a, b[|b| - 1]) != [];
    }
  }

  lemma SameLast(restA: seq<Finding>, x: Finding, restB: seq<Finding>, y: Finding)
    requires InOrder(restA + [x]) && InOrder(restB + [y])
    requires forall key :: OfKey(restA + [x], key) == OfKey(restB + [y], key)
    ensures x == y
  {
    hide Less, InOrder, OfKey;
    OfKeyLast(restA, x, x);
    OfKeyLast(restB, y, y);
    assert OfKey(restA + [x], x) != [] && OfKey(restB + [y], y) != [];
    LastIsGreatest(restB + [y], x);
    LastIsGreatest(restA + [x], y);
    LessTotal(x, y);
    OfKeyLast(restB, y, x);
    SameEnd(OfKey(restA, x), x, OfKey(restB, x), y);
  }

  // Nothing lost, nothing invented.

  function Unclaimed(items: seq<Item>, claims: Claims): seq<Item> {
    if items == [] then []
    else Unclaimed(items[..|items| - 1], claims)
         + if Claimed(items[|items| - 1], claims) then [] else [items[|items| - 1]]
  }

  function Reports(items: seq<Item>, claims: Claims): seq<Finding> {
    seq(|items|, i requires 0 <= i < |items| => Report(items[i], claims))
  }

  /** Every item left over is reported, once. */
  lemma {:induction false} FoundIsReports(items: seq<Item>, claims: Claims)
    ensures Found(items, claims) == Reports(Unclaimed(items, claims), claims)
    decreases |items|
  {
    hide Claimed, Report;
    if items != [] {
      FoundIsReports(items[..|items| - 1], claims);
    }
  }

  /** The report is the unclaimed items' findings, as many times as the items occur. */
  lemma ReportConserves(inventory: Inventory, claims: Claims)
    ensures multiset(StableSort(Found(Items(inventory), claims)))
            == multiset(Reports(Unclaimed(Items(inventory), claims), claims))
  {
    FoundIsReports(Items(inventory), claims);
    StableSortCorrect(Found(Items(inventory), claims));
  }

  // More claims.

  /** Everything `small` knows to be in use `big` knows too. */
  ghost predicate Enlarges(small: Claims, big: Claims) {
    && (forall k, i :: small.held.Holds(k, i) ==> big.held.Holds(k, i)) && small.held.zones <= big.held.zones
    && small.volumes <= big.volumes && small.services <= big.services && small.nodes <= big.nodes
    && small.released == big.released && small.talosVersion == big.talosVersion
  }

  lemma ClaimedStays(item: Item, small: Claims, big: Claims)
    requires Enlarges(small, big)
    ensures Claimed(item, small) ==> Claimed(item, big)
    ensures Report(item, small) == Report(item, big)
  {
  }

  /** More claims never add a finding. */
  lemma {:induction false} MoreClaims(items: seq<Item>, small: Claims, big: Claims)
    requires Enlarges(small, big)
    ensures multiset(Found(items, big)) <= multiset(Found(items, small))
    decreases |items|
  {
    hide Claimed, Report, Enlarges;
    if items != [] {
      var n := |items| - 1;
      MoreClaims(items[..n], small, big);
      ClaimedStays(items[n], small, big);
    }
  }

  lemma MoreClaimsFewerFindings(inventory: Inventory, small: Claims, big: Claims)
    requires Enlarges(small, big)
    ensures multiset(StableSort(Found(Items(inventory), big))) <= multiset(StableSort(Found(Items(inventory), small)))
  {
    MoreClaims(Items(inventory), small, big);
    StableSortCorrect(Found(Items(inventory), small));
    StableSortCorrect(Found(Items(inventory), big));
  }

  function Keys(s: seq<Finding>): (r: seq<(string, string)>)
    ensures |r| == |s|
    ensures forall i :: 0 <= i < |s| ==> r[i] == (s[i].kind, s[i].name)
  {
    seq(|s|, i requires 0 <= i < |s| => (s[i].kind, s[i].name))
  }

  lemma KeysAppend(a: seq<Finding>, b: seq<Finding>)
    ensures Keys(a + b) == Keys(a) + Keys(b)
  {
  }

  lemma FoundKeysStep(items: seq<Item>, claims: Claims)
    requires items != []
    ensures var n := |items| - 1;
      multiset(Keys(Found(items, claims)))
      == multiset(Keys(Found(items[..n], claims)))
         + if Claimed(items[n], claims) then multiset{} else multiset(Keys([Report(items[n], claims)]))
  {
    var n := |items| - 1;
    var before, one := Found(items[..n], claims), [Report(items[n], claims)];
    assert Found(items, claims) == if Claimed(items[n], claims) then before else before + one;
    hide *;
    KeysAppend(before, one);
  }

  lemma ReleasedStays(item: Item, claims: Claims, released: set<string>)
    requires claims.released <= released
    ensures !Claimed(item, claims) ==> !Claimed(item, claims.(released := released))
    ensures Keys([Report(item, claims)]) == Keys([Report(item, claims.(released := released))])
  {
  }

  /** More released volumes never remove a finding: a reason may change, a resource stays listed. */
  lemma {:induction false} MoreReleased(items: seq<Item>, claims: Claims, released: set<string>)
    requires claims.released <= released
    ensures multiset(Keys(Found(items, claims))) <= multiset(Keys(Found(items, claims.(released := released))))
    decreases |items|
  {
    hide Claimed, Report;
    if items != [] {
      var n, more := |items| - 1, claims.(released := released);
      MoreReleased(items[..n], claims, released);
      ReleasedStays(items[n], claims, released);
      hide Found;
      FoundKeysStep(items, claims);
      FoundKeysStep(items, more);
    }
  }

  lemma {:induction false} SortKeepsKeys(s: seq<Finding>)
    ensures multiset(Keys(StableSort(s))) == multiset(Keys(s))
    decreases |s|
  {
    hide Less;
    if s != [] {
      var before, last := s[..|s| - 1], s[|s| - 1];
      SortKeepsKeys(before);
      InsertKeepsKeys(StableSort(before), last);
      KeysAppend(before, [last]);
      assert s == before + [last];
    }
  }

  lemma {:induction false} InsertKeepsKeys(s: seq<Finding>, x: Finding)
    ensures multiset(Keys(Insert(s, x))) == multiset(Keys(s)) + multiset(Keys([x]))
    decreases |s|
  {
    hide Less;
    if s == [] || !Less(x, s[|s| - 1]) {
      KeysAppend(s, [x]);
    } else {
      var before, last := s[..|s| - 1], s[|s| - 1];
      InsertKeepsKeys(before, x);
      KeysAppend(Insert(before, x), [last]);
      KeysAppend(before, [last]);
      assert s == before + [last];
    }
  }

  lemma MoreReleasedKeepsFindings(inventory: Inventory, claims: Claims, released: set<string>)
    requires claims.released <= released
    ensures multiset(Keys(StableSort(Found(Items(inventory), claims))))
            <= multiset(Keys(StableSort(Found(Items(inventory), claims.(released := released)))))
  {
    MoreReleased(Items(inventory), claims, released);
    SortKeepsKeys(Found(Items(inventory), claims));
    SortKeepsKeys(Found(Items(inventory), claims.(released := released)));
  }
}
