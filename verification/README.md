# Verified model of hetzner-iac

hetzner-iac builds Kubernetes clusters on Hetzner Cloud from a committed topology file. These modules
model the parts of it that decide something without a cloud, and prove what those decisions promise.

- **Components** (`DependencyGraph`, `Traversal`, `TraversalProof`, `TieBreaks`, `ComponentOrder`,
  `Deployment`). A layer is a table of components with `After` names. The ordering pass is a three-colour
  depth-first search over the sorted names; it succeeds exactly on well-formed, closed, acyclic tables, a
  reported cycle is a real closed walk, and neither the table's order nor that of any `After` list changes the
  sequence. Which sequence it is, is told without the search: ties break by name, and of two components that do
  not follow each other a chain of smallest names that lead to them decides; no other order has these
  properties. The deploy loop hands each component exactly what the finished deployment holds for its `After`
  names. Over any distance the engine learns exactly the walks none of whose later members declined: the comment
  on `After` says it becomes a dependency the engine holds, but a component that declines cuts the chain behind
  it.
- **Addresses** (`Words`, `Cidr`, `Addressing`, `Network`, `ClusterTopology`, `AddressPlan`,
  `AddressPlanLimits`, `EditHistory`, `Defaults`). Node addresses are arithmetic on pool slot, ordinal, subnet
  and stride, in 32 and 64 bits that wrap. Each validator reports exactly its declared faults, and together they
  give every seat an address of its own, inside the node subnet and clear of the gateway, the pods and the
  services. That is not so for every accepted topology, and `OccupiedFit` is the exact condition: the plan
  stands exactly when the nodes themselves, not their whole slices, fit into the subnet. Two gaps of the
  validator let topologies through for which they do not: the capacity sum wraps at 64 bits, so a pinned slot
  near 2^61 is accepted and collides (`MAX_SAFE_SLOT` is the exact bound), and a subnet of more than twenty host
  bits is not checked at all. Over any history of accepted edits a pinned pool keeps its addresses.
- **Names and taints** (`Decimal`, `NodeNames`, `AcceptedNames`, `Taints`, `FirstSeen`). Node names of an
  accepted topology are distinct labels of at most 63 characters, and an etcd snapshot is accepted for a cluster
  exactly when it is that cluster's. Validated taints survive the map they are written into.
- **Selectors** (`Selectors`). The expansion of a label selector into one selector per named pod never loses a
  match. It invents none exactly when, in every alternative some pod can match, the values that end up in it
  agree with the labels and values they overwrite; a counterexample shows the other case.
- **Taskfile shell** (`Text`, `Templates`, `SourceMap`, `PreambleBlocks`, `PlaceholderUse`). Resolving templates
  removes every action, moves no line and is idempotent. A finding on the script is reported at its own taskfile
  line exactly when no included variable's name breaks a line. The program assigns the placeholder when the
  shell uses it, so every use stands below its assignment exactly when the shell uses it or no variable put
  above the shell does; names that break no line and close no action guarantee that, and a name that closes one
  breaks it.
- **Image pins** (`PinText`, `Inventory`, `PinRepair`, `PinMoves`, `PinMovesExact`, `PinOutcome`, `PinCheck`,
  `PinCounts`, `Repin`, `InventoryFile`, `NumberTags`). Setting a pin splices two scalars into a buffer of lines
  with columns found before the first splice. The exact condition under which that writes the new pin and
  nothing else is proved, and it fails when a tag of another length stands before the digest on one line. Over
  the whole loop, on any document, every moved repository has its new pin and every other piece of the text is
  the one that was there, or the first repository that cannot be moved stops it. Each entry the charts render
  then has the digest its tag points to, and the count is that of the entries that had another tag or digest.
  Afterwards the check passes exactly when no pinned repository is rendered at two tags, every pinned one is
  rendered, and the inventory's reader gives every tag moved to back; a second run changes exactly the pins for
  which it does not. A tag such as `1.10`, which a YAML reader takes for a number, never settles: each run moves
  it again and the check fails. The file is left alone unless the new text parses.
- **Orphans** (`Orphans`, `OrphanReasons`). Each resource of the project is either accounted for or reported
  once, in an order that is determined; more claims never add a finding, more released volumes never remove one.
- **Storage probe** (`StorageProbe`, `StorageCleanup`). Runs that may be killed at any call, against a server
  that finishes deletions and binds claims in its own time: no creation ever collides, Passed is a verdict on
  the run's own claim, and a retained volume is left behind only for a recorded reason. Every verdict behind the
  storage class comes at the end of a cleanup, which leaves nothing of the probe when its calls are answered and
  never turns a pass into a failure, and a run whose polls give up has its verdict within sixteen calls. A pod
  stranded by a killed run on a late-binding class blocks every run on an immediate class until a late-binding
  run starts; from every history such a run can clear what is there and pass on a claim of its own.

Code that works in place is a class or a loop proved against a function or predicate; its promises are
lemmas about that. `dafny verify dfyconfig.toml` checks the whole project.

## Model

| member | source | states |
|---|---|---|
| ComponentOrder.Index | internal/pkg/layer/component.go:343-382 | the table by name exactly on well-formed sets, else the first component that is wrong and why |
| ComponentOrder.Sorter.Visit | internal/pkg/layer/component.go:403-438 | one visit changes marks and output exactly as the traversal function does |
| ComponentOrder.Sorter.VisitDependencies | internal/pkg/layer/component.go:418-431 | the loop over one component's sorted dependencies, against the traversal function |
| ComponentOrder.Sorter.VisitEvery | internal/pkg/layer/component.go:440-444 | the outer loop over the names, against the traversal function |
| ComponentOrder.Order | internal/pkg/layer/component.go:389-447 | success exactly on well-formed, closed, acyclic tables; the table's own components, each once, behind everything they follow, ties broken by name; otherwise the real first fault |
| TraversalProof.VisitCorrect | internal/pkg/layer/component.go:403-438 | every visit keeps what is finished in dependency order, and a failure names a real missing edge or a real cycle |
| TraversalProof.OrderKeysCorrect | internal/pkg/layer/component.go:389-447 | the traversal succeeds exactly on closed, acyclic sets and then gives an order of the set |
| DependencyGraph.OrderedIsAcyclic | internal/pkg/layer/component.go:389-447 | a set that has an order is closed and acyclic |
| DependencyGraph.CycleCloses | internal/pkg/layer/component.go:407-408 | a reported cycle path ends in a closed walk of real edges |
| TieBreaks.TiesByName | internal/pkg/layer/component.go:395 | of two components the one with the smaller name stands first, unless it follows the other or something follows the other alone |
| TieBreaks.OrderDecides | internal/pkg/layer/component.go:418-444 | two that do not follow each other: from the whole table on take the smallest name leading to either, go on with what it follows while it leads to both, and the one the last leads to stands first |
| TieBreaks.Comparable | internal/pkg/layer/component.go:384-388 | of any two components one follows the other or such a chain decides |
| TieBreaks.ToldOnce | internal/pkg/layer/component.go:384-388 | no other sequence of the table has these properties |
| TraversalProof.OrderIgnoresAfterOrder | internal/pkg/layer/component.go:415-418 | rewriting `After` lists in another order changes neither sequence nor failure |
| ComponentOrder.OrderIgnoresTableOrder | internal/pkg/layer/component.go:384-395 | permuting the table changes neither sequence nor failure |
| Deployment.ResourcesFor | internal/pkg/layer/component.go:312-322 | the resources present for the names, in their order, and no absent one |
| Deployment.CreateEach | internal/pkg/layer/component.go:219-236 | each component once in order, handed what is deployed so far for its names, stopping at the first error |
| Deployment.Deploy | internal/pkg/layer/component.go:207-239 | nothing is called without a provider or an order; what is called, with what, and what is deployed |
| Deployment.GivenFromFinal | internal/pkg/layer/component.go:222-236 | what a component is given is what the finished deployment holds for its `After` names |
| Deployment.HeldExactly | internal/pkg/layer/component.go:241-272 | the finished deployment holds a resource for a component exactly when it is wanted and its own function, given what the deployment holds for its `After` names, makes that one |
| Deployment.RefusedExactly | internal/pkg/layer/component.go:241-272 | a component stops the loop exactly when its setting cannot be read, or it is wanted and its own function refuses |
| Deployment.GatheredParts | internal/pkg/layer/component.go:312-322 | resources are gathered name by name, in the list's order |
| Deployment.HandedExactly | internal/pkg/layer/component.go:312-322 | the engine is told of an edge exactly when it is an `After` edge to a component that was created |
| Deployment.HandedWalkExactly | internal/pkg/layer/component.go:312-322 | over any distance: exactly the walks none of whose later members declined |
| Deployment.NothingLostWithoutDecliners | internal/pkg/layer/component.go:207-239 | with no decliner the engine's relation reaches exactly as far as `After` |
| Deployment.DeclinedCutsTheChain | internal/pkg/layer/component.go:312-322 | behind a declined component nothing of the chain is passed on |
| Cidr.PrefixIsRun | internal/pkg/clusterspec/config.go:1040-1055 | a prefix is one aligned run of addresses inside the address space (section 3.1 of RFC 4632) |
| Cidr.ContainsPrefixIsInclusion | internal/pkg/clusterspec/config.go:1074-1076 | `contains` is exactly inclusion of the address sets |
| Cidr.OverlapsIsIntersection | internal/pkg/clusterspec/config.go:767-774 | `Overlaps` is exactly a common address |
| Words.OctetsRoundTrip | internal/pkg/clusterspec/addressing.go:140-157 | splitting a word into octets and joining them is the identity |
| Addressing.NewAddressing | internal/pkg/clusterspec/addressing.go:64-84 | a masked subnet with a stride that seats someone, or the refusal |
| Addressing.AtExactly | internal/pkg/clusterspec/addressing.go:133-158 | an offset has an address exactly when it lies in the subnet; then it is base plus offset, and the 32-bit sum does not wrap |
| Addressing.WorkerOffset | internal/pkg/clusterspec/addressing.go:115-129 | where a worker's slice starts, as long as its end is representable |
| Addressing.OutsideSlice | internal/pkg/clusterspec/addressing.go:86-129 | a node outside its slice is refused as such, a control-plane node from the balancers' addresses on |
| Network.OverlapProblems | internal/pkg/clusterspec/config.go:757-774 | the pair loop reports exactly the clashing pairs |
| Network.AdminProblems | internal/pkg/clusterspec/config.go:780-788 | the admin loop reports exactly the malformed and zero-length entries |
| Network.ValidateNetwork | internal/pkg/clusterspec/config.go:730-791 | exactly the faults; none exactly when prefixes are masked, nested and disjoint and the admin list is sound |
| ClusterTopology.ValidateControlPlane | internal/pkg/clusterspec/config.go:832-857 | exactly the faults; none exactly for an odd count within capacity, a type, and a load balancer when needed |
| ClusterTopology.ValidatePools | internal/pkg/clusterspec/config.go:859-907 | exactly the faults of every pool, each repeated name with its first use; none exactly on sound, uniquely named pools |
| ClusterTopology.ValidatePoolSlots | internal/pkg/clusterspec/config.go:965-992 | exactly the negative and the taken slots, with the owner; none exactly on distinct non-negative slots |
| ClusterTopology.HighestPoolSlot | internal/pkg/clusterspec/config.go:995-1002 | the largest slot in use, or -1 |
| ClusterTopology.ValidatePoolCapacity | internal/pkg/clusterspec/config.go:1009-1031 | passes exactly what the 64-bit sum lets pass, and any subnet over twenty host bits |
| ClusterTopology.ValidateNodeNames | internal/pkg/clusterspec/config.go:604-630 | exactly the pools whose last name is too long |
| ClusterTopology.Validate | internal/pkg/clusterspec/config.go:574-590 | no problem anywhere is exactly acceptance |
| AddressPlan.CapacityExactly | internal/pkg/clusterspec/config.go:1009-1031 | for an accepted topology with a checked subnet, every slice fits exactly when the highest slot is at most `MAX_SAFE_SLOT` |
| AddressPlan.PlanStandsExactly | internal/pkg/clusterspec/addressing.go:88-158 | for every accepted topology, whatever its subnet and slots: each seat has the address of the documented layout, a pool's slice being the one it is pinned to or else that of its position, exactly when the control plane's slice and every pool's nodes fit into the subnet |
| AddressPlan.EverySeatAddressed | internal/pkg/clusterspec/addressing.go:88-158 | when they fit, every node and load balancer has an address: the documented offset, in the subnet, not its network address |
| AddressPlan.AddressesDistinct | internal/pkg/clusterspec/addressing.go:88-158 | when they fit, no two seats share an address |
| AddressPlan.AddressesKeepOut | internal/pkg/clusterspec/machineconfig.go:110-123 | when they fit, no address is the gateway, a pod's or a service's, wherever the subnet sits in the range |
| AddressPlan.AcceptedPlanWorks | internal/pkg/clusterspec/config.go:1009-1031 | the validator's own guard suffices: a checked subnet and a highest slot up to `MAX_SAFE_SLOT` make the nodes of an accepted topology fit |
| AddressPlanLimits.WrappedSlotCollides | internal/pkg/clusterspec/config.go:1020-1023 | an accepted topology whose nodes do not fit: the sum wraps, and a worker gets a control-plane node's address |
| AddressPlanLimits.UncheckedSubnetOverflows | internal/pkg/clusterspec/config.go:1014-1018 | an accepted topology over twenty host bits whose nodes do not fit and have no addresses; `AddressPlan.PlanStandsExactly` is the exact condition |
| EditHistory.PinnedPoolKeepsAddresses | internal/pkg/clusterspec/config.go:209-227 | over any history of accepted edits a pool with a pinned slot keeps the address of every ordinal it retains |
| EditHistory.GrowingKeepsAddresses | internal/pkg/clusterspec/config.go:209-227 | under appends and resizes every pool, pinned or not, keeps its addresses |
| EditHistory.RemovalMovesExactly | internal/pkg/clusterspec/config.go:213-219 | a removal moves another pool's slot exactly when that pool is behind it and unpinned |
| EditHistory.ControlPlaneNeverMoves | internal/pkg/clusterspec/addressing.go:88-111 | no history moves a load balancer or a retained control-plane node |
| EditHistory.NeverShared | internal/pkg/clusterspec/addressing.go:88-158 | at every point of a history whose nodes fit there, no two seats share an address |
| Defaults.Draft.ApplyDefaults | internal/pkg/clusterspec/config.go:480-522 | the whole new state: empty fields filled, types from the settled architecture, the rest kept |
| Defaults.Draft.FillPools | internal/pkg/clusterspec/config.go:514-516 | every pool without a type gets its architecture's, and no other pool changes |
| Defaults.DefaultsIdempotent | internal/pkg/clusterspec/config.go:480-522 | defaults applied twice are defaults applied once |
| Defaults.DefaultsGive | internal/pkg/clusterspec/config.go:480-500 | what was given stays and what was left out is the documented value |
| Defaults.TypesFollowArchitecture | internal/pkg/clusterspec/config.go:502-518 | server types follow the architecture as settled, in the control plane and in every pool |
| Defaults.DefaultsLeaveOnlyCounts | internal/pkg/clusterspec/config.go:480-522 | what the control-plane check can still report after defaults, and exactly when |
| Decimal.ItoaReads | internal/pkg/clusterspec/firewall.go:136-138 | printing an ordinal and reading its digits back is the identity |
| Decimal.AtoiOfFormatInt | tools/orphans/orphans.go:161-163 | so it is with a sign |
| NodeNames.NamesDistinct | internal/pkg/clusterspec/firewall.go:136-144 | within a cluster a node name determines its pool and its ordinal |
| NodeNames.NameShape | internal/pkg/clusterspec/firewall.go:136-144 | label-shaped cluster and pool names give label-shaped node names (section 2.1 of RFC 1123) |
| NodeNames.LabelExactly | internal/pkg/clusterspec/config.go:457 | letters, digits and hyphens, with no hyphen at either end |
| AcceptedNames.NodeNamesDistinct | internal/pkg/clusterspec/config.go:604-630 | no two nodes of an accepted topology share a name |
| AcceptedNames.NodeNamesFit | internal/pkg/clusterspec/config.go:604-630 | every node's name is a label of at most 63 characters although only the last of a pool is measured |
| AcceptedNames.NameFitsExactly | internal/pkg/clusterspec/config.go:611-618 | the last name of a pool is measured, and it fits exactly when all of them do, or the first of an empty pool |
| AcceptedNames.NameSoundExactly | internal/pkg/clusterspec/config.go:680-690 | a cluster name is accepted exactly when it is a label and leaves room for the name of a first control-plane node |
| NodeNames.BelongsTo | tools/etcd/main.go:193-215 | refuses an empty member list, and any list with a foreign member naming all of those in order |
| NodeNames.OwnExactly | tools/etcd/main.go:193-215 | a control-plane name of cluster x is cluster y's exactly when x is y |
| NodeNames.BelongsToExactly | tools/etcd/main.go:193-215 | a snapshot of x's control plane is accepted for y exactly when x is y |
| Taints.ParseUndoesPrint | internal/pkg/clusterspec/firewall.go:147-156 | parsing undoes printing |
| Taints.PrintUndoesParse | internal/pkg/clusterspec/firewall.go:147-156 | printing undoes parsing for every text that parses |
| Taints.MatchesIsPattern | internal/pkg/clusterspec/config.go:466-469 | the computed match is the taint pattern: a key, a value and one of the three effects, none holding a sign that separates them |
| Taints.ValidateTaints | internal/pkg/clusterspec/config.go:916-946 | exactly the malformed and the repeated, with the first use |
| Taints.NodeTaints | internal/pkg/clusterspec/machineconfig.go:447-461 | the map carries each key's last taint and nothing else, or the first text that does not parse |
| Taints.TaintsSurvive | internal/pkg/clusterspec/machineconfig.go:447-461 | from a validated list each taint can be read back from its own entry |
| Taints.OneEntryEach | internal/pkg/clusterspec/machineconfig.go:447-461 | there is one entry per taint exactly when keys are distinct |
| Selectors.Alternatives | tools/charts/policies.go:215-245 | the loop computes the step-by-step expansion |
| Selectors.AlternativesCover | tools/charts/policies.go:215-273 | a pod the selector matches is matched by some alternative, whatever the selector |
| Selectors.AlternativesPrecise | tools/charts/policies.go:215-273 | in an agreeing selector no alternative matches a pod the selector does not |
| Selectors.PreciseExactly | tools/charts/policies.go:229-237 | for every selector that holds exactly when the values of each alternative some pod can match agree; agreement of the selector itself where every list has a value and every alternative a pod |
| Selectors.DistinctKeysAgree | tools/charts/policies.go:229-237 | expression keys that are distinct and no label's agree |
| Selectors.OverwrittenLabelMatchesMore | tools/charts/policies.go:236 | a selector whose overwritten label lets an alternative match more |
| Selectors.AlternativesCount | tools/charts/policies.go:215-245 | as many alternatives as the product of the split lists' lengths |
| Selectors.AlternativesExactly | tools/charts/policies.go:212-245 | the alternatives are exactly those of choosing one value from each In list over a pod label, later over earlier; the namespace's expression stays |
| Selectors.HeldExactly | tools/charts/policies.go:37-44 | a selector is held to its pods exactly when it says something of a pod's labels and carries none of the three labels no chart renders |
| Selectors.PodTerms | tools/charts/policies.go:183-201 | exactly the pod-label terms of a selector |
| Selectors.UnmatchedSelectors | tools/charts/policies.go:153-179 | exactly the alternatives of held selectors that no rendered pod matches |
| Selectors.NoneGone | tools/charts/policies.go:168-175 | without a message every value of a split list has a rendered pod |
| Templates.CleanExactly | tools/taskshell/main.go:486 | the computed absence of an action is the absence of `{{...}}` on any line |
| Templates.ResolveEliminates | tools/taskshell/main.go:460-486 | no action is left, even where substituted values join into one |
| Templates.ResolveIdempotent | tools/taskshell/main.go:460-486 | resolving again changes nothing, under any variables |
| Templates.ResolveLinewise | tools/taskshell/main.go:452-454 | line k of the result is line k of the input resolved, and there are as many |
| Templates.ResolvePlain | tools/taskshell/main.go:460-486 | text in which no brace is followed by another or by nothing stays |
| Templates.ResolveVariable | tools/taskshell/main.go:97-99 | a reference to a variable, by letters, digits and underscores, becomes the variable's one-line value |
| Templates.ResolvePlaced | tools/taskshell/main.go:475-486 | every other action becomes the placeholder: one of another form, of no variable, or of one with several lines |
| Templates.ActionSurvives | tools/taskshell/main.go:461-473 | the action of a multi-line variable reaches the second pass wherever it stands |
| SourceMap.NumberLines | tools/taskshell/main.go:436-438 | a variable's lines, numbered from its declaration |
| SourceMap.AddVariables | tools/taskshell/main.go:428-439 | the multi-line variables the block names, in name order |
| SourceMap.Preamble | tools/taskshell/main.go:421-442 | the header, the assignment if the placeholder is used, then those variables |
| PreambleBlocks.PreambleExactly | tools/taskshell/main.go:421-442 | the lines above the block: the two headers, the assignment exactly when the resolved shell uses the placeholder, then one block for each variable of several lines the shell names, in the order of the names, its name and its lines without the empty last ones |
| PreambleBlocks.OwnAtBlock | tools/taskshell/main.go:604-613 | a comment on one of the program's own lines is reported at the block |
| SourceMap.Findings | tools/taskshell/main.go:587-623 | one finding per comment, at the mapped line; an unknown file refuses all |
| SourceMap.ScriptLines | tools/taskshell/main.go:394-403 | the script is the preamble's lines, the shell's own lines each resolved, and the end |
| SourceMap.ShellRoundTrip | tools/taskshell/main.go:602-613 | a comment on the line carrying shell line k is reported at that line exactly when no included name breaks a line |
| SourceMap.SplitNameMisreports | tools/taskshell/main.go:430-432 | a block and an included variable whose name breaks a line: the shell's first line is reported at another |
| SourceMap.VariableRoundTrip | tools/taskshell/main.go:604-613 | a variable's line i maps to its own preamble entry, and so to line i of its declaration, exactly when neither its name nor one declared above it breaks a line |
| PlaceholderUse.AssignedExactly | tools/taskshell/main.go:424-439 | every script line that uses the placeholder stands below the one that assigns it, exactly when the resolved shell uses it or no included variable's name or resolved value does |
| PlaceholderUse.AssignedBeforeUse | tools/taskshell/main.go:424-432 | included names that break no line and close no action are enough for that |
| PlaceholderUse.BracedNameUnassigned | tools/taskshell/main.go:430-432 | a variable name with closing braces breaks it: a use nothing assigns |
| PinText.SetPin | tools/charts/repin.go:189-221 | both splices in the buffer, the second at the column found before the first, or the error that stops them |
| PinText.SetPinExactly | tools/charts/repin.go:200-218 | the text with the two values changed and all else kept, exactly when the tag is plain and the digest has not moved, or keeps its value and a copy stands where it was looked for |
| PinText.LongerTagRefused | tools/charts/repin.go:205-211 | a flow line whose tag grows by one character: the digest is not found and nothing is written |
| PinText.CopyEdited | tools/charts/repin.go:205-218 | a flow line with a copy of the digest where it was looked for: the copy is edited in its place |
| PinText.SetPinApart | tools/charts/repin.go:200-218 | when no column moves: the pin is set, or a dressed scalar is refused |
| PinText.SetPinFrame | tools/charts/repin.go:200-220 | on two lines, two spans change and every other byte is where it was |
| PinText.ChangeIsSplice | tools/charts/repin.go:214-217 | changing a scalar is splicing its line where the value starts |
| PinText.ColumnShifts | tools/charts/repin.go:205-207 | how far the first edit moves the second scalar |
| Inventory.Parse | internal/pkg/imagepolicy/imagepolicy.go:114-144 | the first entry that is not normal, repeated or invalid, and none exactly on inventories a policy can be built from |
| Inventory.ValidExactly | internal/pkg/imagepolicy/imagepolicy.go:146-175 | an entry is valid exactly with a consistent signer or a pin that has a reason, a tag and a digest, and not both |
| Inventory.Find | tools/charts/repin.go:246-258 | the first entry with a repository |
| Inventory.Pinned | internal/pkg/imagepolicy/imagepolicy.go:212-226 | a repository's pin, or that it is signed or missing |
| Inventory.SortedRepositories | internal/pkg/imagepolicy/imagepolicy.go:256-265 | every repository, sorted |
| PinMoves.SetPinIn | tools/charts/repin.go:189-261 | the parse, the search for the two scalars in the first entry with the name, either of which may be missing, then the edit |
| PinMoves.MovePins | tools/charts/repin.go:83-120 | the loop over the sorted repositories computes the turns one after the other, each on the text the last one left, up to the first that fails |
| PinMovesExact.MovesExactly | tools/charts/repin.go:83-120 | on the text of any document: if every rendered repository can be moved or need not, the text is the moved document's and the count that of the pins that changed; otherwise the first that cannot stops the loop with the reason, or its edits hit a copy of the digest |
| PinOutcome.MovesBring | tools/charts/repin.go:83-120 | where every repository can be moved or need not: every entry with a rendered tag ends with the digest that tag points to and that tag as the reader takes it, every other is as it was, and the count is that of the entries whose tag or digest differed |
| PinMovesExact.TurnMoves | tools/charts/repin.go:90-117 | one turn on a movable repository: the document one pin further, or the same text when the pin follows already |
| PinMoves.PlacedIsRight | tools/charts/repin.go:200-218 | in the document reached so far the edits give it one pin further exactly when that pin is placed |
| PinRepair.MoveStep | tools/charts/repin.go:90-117 | one more pin set carries the plan one repository further and touches no other piece |
| PinRepair.MovedByUnique | tools/charts/repin.go:83-120 | the plan determines the document |
| PinCheck.TagTable.AddUnsignedTags | tools/charts/repin.go:148-161 | writes the tags of pinned repositories into the table, up to the first unreadable image |
| PinCheck.RenderedPinTags | tools/charts/repin.go:124-144 | the table over all charts, or nothing if one does not render or read |
| PinCheck.TagsExactly | tools/charts/repin.go:148-161 | the table holds the last tag of every rendered pinned repository and nothing else |
| PinCheck.StalePins | tools/charts/pins.go:105-135 | one problem per unreadable image or tag that is not the pin's, and the repositories seen |
| PinCheck.UncheckedPins | tools/charts/pins.go:140-152 | the pinned repositories not seen |
| PinCheck.PinFailures | tools/charts/pins.go:43-78 | the number of failures over all charts |
| PinCheck.NoFailures | tools/charts/pins.go:43-78 | none exactly when every chart renders, every image reads, every pin is shown and every shown tag is the pin's |
| PinCounts.FailuresExactly | tools/charts/pins.go:43-78 | the number counts every chart that does not render, every wrong image of one that does and every pinned entry none shows, each once |
| Repin.ReadMoved | tools/charts/repin.go:83-120 | the moved document reads as the inventory with the planned pins replaced, each tag as the reader takes it, and nothing else |
| Repin.RepairEstablishesCheck | tools/charts/repin.go:41-79 | after the move the check passes exactly when no pinned repository is rendered at two tags, every pinned one is rendered, and the reader gives every tag moved to back |
| Repin.SecondRunMoves | tools/charts/repin.go:106-108 | with the same answers a second run changes exactly the pins whose tag the reader turns into another |
| Repin.ParsesAfter | tools/charts/repin.go:73-76 | the moved inventory parses exactly when what the reader makes of every tag moved to is a tag |
| InventoryFile.RepinFile | tools/charts/repin.go:47-79 | the file is untouched, or holds the text the loop gave, which loads and parses; and exactly when |
| InventoryFile.RepinExactly | tools/charts/repin.go:47-79 | on a document whose rendered pins can be moved: the text with every entry brought there, exactly when the reader makes a tag of every tag moved to, else the file as it was |
| InventoryFile.RepinStops | tools/charts/repin.go:47-79 | on a document with one that cannot, and no copy of a digest hit: the file as it was |
| NumberTags.NumberTagNeverSettles | tools/charts/repin.go:106-108 | rendered at `1.10`, read back as `1.1`: the pin moves, the result parses, the check fails and the next run moves it again |
| Orphans.Held.Add | tools/orphans/orphans.go:145-151 | adds one resource; what was held stays held and nothing else becomes so |
| Orphans.VolumeFindings | tools/orphans/orphans.go:387-435 | the report of every volume no stack holds and no unreleased PersistentVolume claims |
| Orphans.LoadBalancerFindings | tools/orphans/orphans.go:440-462 | the report of every balancer no stack holds and no live Service owns |
| Orphans.ServerFindings | tools/orphans/orphans.go:292-310 | the report of every server that is no node and no stack's |
| Orphans.PrimaryIPFindings | tools/orphans/orphans.go:314-329 | the report of every unassigned address no stack holds |
| Orphans.SnapshotFindings | tools/orphans/orphans.go:349-366 | the report of every Talos snapshot for another version no stack holds |
| Orphans.ResourceFindings | tools/orphans/orphans.go:332-344 | the report of every other resource no stack holds, a zone by name or ID |
| Orphans.Orphans | tools/orphans/orphans.go:267-280 | all of them, stably sorted |
| Orphans.StableSortCorrect | tools/orphans/orphans.go:277-289 | the same findings, ordered by kind then name, those of one kind and name in the order found |
| Orphans.OrderDetermined | tools/orphans/orphans.go:277-289 | any list with those properties is this report |
| OrphanReasons.ReportedExactly | tools/orphans/orphans.go:267-462 | what is in the report, kind by kind: which resources, and why |
| OrphanReasons.ReportSorted | tools/orphans/orphans.go:283-289 | sorted by kind, then by name |
| Orphans.ReportConserves | tools/orphans/orphans.go:267-280 | the report is the left-over items' findings, as many times as they occur |
| Orphans.MoreClaimsFewerFindings | tools/orphans/orphans.go:267-280 | more holdings, volumes, Services or nodes never add a finding |
| Orphans.MoreReleasedKeepsFindings | tools/orphans/orphans.go:387-418 | more released volumes never remove one |
| StorageProbe.StepSafe | internal/pkg/clustersmoke/run.go:526-563 | whatever a run or the cluster does next, the invariant is kept and nothing forbidden shows |
| StorageProbe.ProbeSafe | internal/pkg/clustersmoke/run.go:526-601 | in every history no creation collides, Passed judges the run's own claim, and after an undisturbed cleanup its volume goes with it |
| StorageProbe.PassedWasJudged | internal/pkg/clustersmoke/run.go:551-562 | a run about to report Passed has judged a claim of its own |
| StorageCleanup.CleanupDeletes | internal/pkg/clustersmoke/run.go:709-728 | every cleanup whose calls are answered leaves the claim gone or going, on a late-binding class the pod too, and the claim's volume to go with it unless the claim binds meanwhile |
| StorageCleanup.VerdictAfterCleanup | internal/pkg/clustersmoke/run.go:538 | every verdict but one on the storage class ends a cleanup, with that effect |
| StorageCleanup.JudgedPasses | internal/pkg/clustersmoke/run.go:705-708 | a run that has seen its claim bound reports Passed, however its cleanup goes |
| StorageCleanup.PassedOnlyJudged | internal/pkg/clustersmoke/run.go:551-562 | and no other run does |
| StorageCleanup.WrongReportsFailed | internal/pkg/clustersmoke/run.go:543-555 | a run of which another call is not answered, or a wait runs out, reports Failed |
| StorageCleanup.RunEnds | internal/pkg/clustersmoke/run.go:526-563 | a run whose polls give up has its verdict within sixteen calls, whatever they are answered |
| StorageProbe.LeftBehindForAReason | internal/pkg/clustersmoke/run.go:740-765 | a retained volume without its claim was excused: a call failed, or the claim bound too late |
| StorageProbe.NothingLeftBehind | internal/pkg/clustersmoke/run.go:709-765 | in a calm history, however often runs are killed, a retained volume always has its claim |
| StorageProbe.StrandingHappens | internal/pkg/clustersmoke/run.go:714-789 | every history can go on to strand a pod |
| StorageProbe.StrandedBlocks | internal/pkg/clustersmoke/run.go:714-789 | a stranded pod blocks every run on an immediate class until a late-binding run starts |
| StorageProbe.LateRunPasses | internal/pkg/clustersmoke/run.go:714-825 | from every history, a stranded one too, killing what runs and starting a late-binding run can go on to that run judging its own claim and passing |
| StorageProbe.ImmediateRunPasses | internal/pkg/clustersmoke/run.go:526-563 | from every history that leaves no live pod on the claim a run on an immediate class can pass as well |

## Left out

- Libraries are taken at their word where a parameter does not stand for them: image references, digests, regular expressions other than the template, taint and label patterns, netip parsing, Go's stable sort (its result is proved to be the only possible one), and UTF-8 (columns count characters; the files are ASCII).
- The two YAML libraries of the image pins are parameters: the parser of `setPin` (`PinMoves.Parser`), taken to find a document's scalars where they stand, and the inventory's loader (`InventoryFile.Loader`) with what its reader makes of a scalar (`Inventory.Reader`), of which only that no digest looks like anything else is taken.
- Building the resources: internal/pkg/hetzner, infra, layers, Helm releases and the deployment engine; a component's `Create`, its chart release and its `When` are answers of a parameter.
- Subprocesses, file reading other than the inventory's, clients of Kubernetes, Hetzner and Talos, and every report's wording; problems and findings are tagged data.
- IPv6 prefixes, and admin CIDRs beyond being well formed and not zero-length; `Validate` accepts an IPv6 node subnet that `NewAddressing` refuses.
- ComponentOrder.Order: which of several faults of a set that cannot be ordered is reported is told by the traversal alone.
- ClusterTopology.Validate: leaves out the DNS, version, location, placement and contract checks and the length of `metadata.name` beyond what node names need, so its acceptance is wider than the source's; each is one branch over fields nothing here computes with.
- `BuildFirewallRules`, `dedupe`, node labels and the patches other than the taint map: short loops with one easy property.
- The arrays behind Go's slices: `append(path, key)` in the traversal may share one, which no later read observes.
- 32-bit builds, where Go's `int` and the address arithmetic are narrower.
- Folded scalars, whose lines the parser joins before the source map sees them; a block's line is the one its first line of shell stands on, as `firstContentLine` gives it for literal and one-line scalars.
- Signature, key and policy generation from the inventory; the storage class, data volume and network checks of the cluster smoke test; credentials, audit policies and chart versions.
- SourceMap.Findings: the findings are in shellcheck's order, before they are sorted by file, line and column; levels and messages are not carried.
- Selectors.PodTerms: a set of terms rather than the sorted list with repeats.
- Selectors.UnmatchedSelectors: the messages' order and the dropping of equal ones are not modelled.
- Inventory.Parse: a signer's own fields are one flag that says they are consistent, and the strict decoding before the loop is not modelled.
- PinMovesExact.MovesExactly: once the edits of a pin have hit a copy of its digest, what the loop does after it is not described beyond `PinMoves.MovePins`.
- PinMoves.SetPinIn: a column past the end of its line, where Go panics, is an error like the others.
- PinCheck.StalePins: problems are in the images' order, before their messages are sorted.
- InventoryFile.RepinFile: the inventory is an argument, as in the source; the lemmas about it take the one embedded in the program to be the one in the file.
- InventoryFile.RepinStops: needs that no copy of a digest was hit, for the reason given at `PinMovesExact.MovesExactly`.
- StorageProbe.StepSafe: the run is a relation over its calls rather than a method on a cluster object, since the cluster and the kill act between any two of them.
- StorageProbe.ProbeSafe: no other actor uses the probe's names, and the finalizer is the only thing a deletion waits for beyond time.
