# Verified model of the kmc networking control plane and console algorithms

kmc runs virtual networks on Kubernetes: VPCs on VLANs, IP pools with address claims,
router appliances with floating IPs and port forwards, and a console that groups VMs
behind Services. This project models the parts of it that allocate and reconcile, in
Dafny 4.11, and proves what they are there to keep.

| file | what it models |
|---|---|
| `machine_words`, `text`, `slice_sort` | 32-bit words of Go and JavaScript, their string functions, Go's unstable `sort.Slice` |
| `ipv4`, `pool_window` | addresses as words and as canonical strings; the address window of a pool and the search for a free address |
| `claims`, `claims_allocator`, `claims_preferred`, `claims_uniqueness`, `claim_contents` | the claim protocol: snapshot, pick, atomic create, retry on HTTP 409; one call as an automaton, the imperative code that follows it, wanted addresses, any number of calls interleaved with deletions, and what the claims say |
| `policy_doc`, `policy_render`, `policy_entries`, `policy_order`, `generation`, `generation_runs`, `config_map_write` | router policy documents, rendering them from resource lists in any order, what each entry stands for, the generation number, whole runs of reconciles, stale and failed reads, conflicts, crashes and agent heartbeats, and what one pass leaves in the ConfigMap |
| `nic_sync`, `nic_sync_fields`, `nic_sync_runs`, `nic_sync_history` | hot-plug and hot-unplug of the appliance's interfaces: one sync field by field, two syncs, any history |
| `floating_ip`, `floating_ip_runs`, `floating_ip_claims`, `floating_ip_moves`, `floating_ip_reads`, `floating_ip_outside`, `floating_ip_delete`, `floating_ip_release` | keeping, allocating and releasing a floating IP's public address: one call, whole runs, where claims come from, when an address moves, which reads may be lost, claims removed by others, what a deletion leaves |
| `vlan` | the VLAN allocator and the pool inventory |
| `dex_name` | the console's base32 encoder for Dex storage names |
| `labels_text` | the label text printer and parser |
| `error_text`, `backend_group`, `membership`, `backend_selection` | stamping VMs into a backend group with its search of error texts, the Service metadata that records the group, and the VMs whose pods the Service selects |

Code that changes state is imperative here too: a class or an array where the source
mutates one, a loop with invariants where the source loops, proved equal to a function
or a predicate about which the theorems are stated. JSON text is an injective encoding.
The steps of concurrent actors are atomic API calls in any order.

Failures are inputs, module by module:

- Address claims and floating IPs: any request or its reply may be lost, any read may be
  old, workers crash, other actors create and delete claims.
- Policy runs: a render reads any earlier version of the stored document and of the
  status, or fails to read the document; writes meet conflicts; passes crash anywhere.
- VLANs: a reconcile reads its VPC and lists the others in any earlier state.
- Backend groups: VM calls fail with any text or go through, and a VM write may land
  while its reply is lost. Reads of the Service may fail, the lookup of a create with any
  text, and its write may be refused or land unheard.
- The NIC sync has no failing step.

Each theorem says which of these it holds for.

## Findings

Where the code does not do what its comments or documentation intend, the model
follows the code, and the exact condition is a theorem.

- **Free address search at the top of the address space.** For a window whose last
  address is 255.255.255.255 (a /31 or /32 there), the `n <= last; n++` loop wraps: when
  the window is full it returns an address outside the pool, or never ends. A /0 never
  offers 255.255.255.254. Every other window is served as promised
  (`PoolWindows.FirstFreeSoundExactly`, `PoolWindows.TopOfSpaceEscapes`).
- **A wanted address is checked against the CIDR only**, so the pool's gateway can be
  leased. An excluded address is never leased exactly when the wanted one is blank,
  rejected, outside the CIDR or not excluded
  (`PreferredAddress.NeverLeasesExcludedExactly`, `PreferredAddress.GatewayIsLeased`).
- **Pool addresses are unique over the cluster** only while list and create do not
  interleave. With interleaving, two calls from an empty pool, with wanted addresses or
  without, are safe exactly when they run in one namespace or do not go for one address
  (`ClaimUniqueness.InterleavedUniqueExactly`).
- **List order can race the policy generation upward** when two projected entries tie on
  their sort key, and only then; two port forwards of one address, protocol and port do
  (`PolicyOrder.RenderDeterminedExactly`, `PolicyOrder.TwoForwardsTie`,
  `GenerationRuns.FixpointExactly`).
- **A failed read of the stored policy counts from the status instead.** The data can
  then change twice and the generation go down. All runs from a start are free of that
  exactly when the status leads to the same generation as the stored document
  (`GenerationRuns.LostReadsHarmlessExactly`, `GenerationRuns.LostReadGoesBack`).
- **A lost controller mark is never restored.** `ownerRefsEqual` ignores it, so when the
  mark on the router's owner reference is all that is missing, nothing is written, and
  only then (`ConfigMapWrite.PassLeaves`, `ConfigMapWrite.MarkIsNotRestored`).
- **`mapsEqual`** takes a missing key for an empty value. It decides equality exactly when
  no value of its first argument is empty; after a merge, where it is used, always.
- **Interfaces can end on the wrong network.** An existing network entry is kept whatever
  it names, so `team-a` followed by `teama` (equal interface names), or a changed
  external network, leaves an interface where it was. Histories end right exactly when
  names distinguish the VPCs and there is one external network at most
  (`NicSyncHistory.RunsRightExactly`).
- **The first sync of a new appliance unplugs every private NIC it was built with**,
  because built names are positional and synced names are not
  (`NicSyncHistory.FirstSyncReplacesBuiltNics`).
- **A failed stamp does not always restore the labels**: rollback clears the group label
  instead of remembering it, and it does not reach a stamp that landed while its reply
  was lost. One that fails restores all VMs exactly when no VM it counted carried a
  group label, and the stamp it stopped at did not land or changed nothing
  (`BackendGroup.FailedStampRestoresExactly`, `BackendGroup.UnheardStampStays`). Over all
  patterns of failures that leaves a list whose first VM does not exist, or a single VM
  that is in the group already (`BackendGroup.FailedStampsRestoreExactly`).
- **Unstamping swallows a failure whose text says 404 or "not found" anywhere**, in the
  VM's name, in its namespace, or about something else
  (`BackendGroup.UnstampTruthfulExactly`, `BackendGroup.NamespaceIsEnough`).
- **Stamps are not undone when the ports or the Service write are refused.** With every
  VM call going through, no VM is changed exactly when each next member already carries
  the next id and no dropped one a group label
  (`ServiceMembership.LateFailureSparesExactly`).
- **A refused duplicate create breaks the Service it collides with**: undoing its stamps
  clears the group label of VMs that were members before. It leaves all VMs alone exactly
  when none of the named ones was in a group. A lookup error that says "already exists"
  is taken for the function's own, and the stamps stay
  (`ServiceMembership.DuplicateCreateSparesExactly`).
- **A create that lands unheard leaves a Service that selects none of its members**
  (`ServiceMembership.CreateStampsExactly`).
- **A recorded public address can move**, and the old claim then stays behind. One
  reconcile of an idle floating IP keeps it exactly when a question about a recorded
  claim is answered and the address read was the recorded one (or the write of another
  is lost), or none is answered and no allocation comes to record another address
  (`FloatingIPMoves.ReconcileKeepsExactly`). No address ever moves, over all runs, exactly
  when status reads are current, and the first question is always answered, or the second
  is and no wanted address is set (`FloatingIPReads.ReadsKeepExactly`).
- **A recorded address is kept without asking whose its claim is, and a claim is deleted
  by name after a check.** When somebody else deletes a floating IP's claim (the console
  does, for a VM of the same name: console/app/lib/ipam/ipaddress-cr.server.ts:338-352),
  a neighbour can come to share the address, and the deletion can take the neighbour's
  claim. Both are excluded exactly when nobody else may delete claims in the namespaces
  concerned (`FloatingIPOutside.SharedExactly`, `FloatingIPOutside.DeletionsOwnExactly`).
- **A deletion that reads an old status can leave a claim behind for good**: it looks for
  the spec's address and completes. Deletions leave nothing of their own behind in every
  run exactly when they read the current status
  (`FloatingIPRelease.ReleaseExactly`, `FloatingIPRelease.OldReadLeavesClaim`).
- **A VPC whose pool reference is written with blanks around it is served and then
  overlooked**, so the next one gets the same VLAN. Distinctness holds exactly when
  references that are looked up alike are written alike
  (`Vlan.ReferencesSoundExactly`, `Vlan.BlankBeforeDefault`).
- **VPCs served from one stale list collide** on a VLAN. Runs over old lists stay sound
  exactly when at most one VPC of the pool waits, or no number is free
  (`Vlan.OldListsSoundExactly`). Over old reads of the VPC itself a VLAN once set never
  changes exactly when at most one waits, or at most one number is free
  (`Vlan.OldReadsKeepExactly`).

## Model

| member | source | states |
|---|---|---|
| IPv4.WordBytesInverse | internal/ipam/pool.go:148-157 | `ipToUint32` and `uint32ToIP` are inverse to each other, on all words and bytes |
| IPv4.RenderInjective | internal/ipam/pool.go:153-157 | different addresses have different dotted quads |
| IPv4.ValidateExactlyCanonical | internal/ipam/validate.go:10-32 | validation accepts, after trimming, exactly the dotted quads that addresses render to (IPv4address grammar, section 3.2.2 of RFC 3986), whatever the IPv6 parser does |
| IPv4.AddressObjectNameInjective | internal/ipam/validate.go:42-45 | two addresses share a claim name only if they are the same address |
| IPv4.StringSetIsNumberSet | internal/ipam/pool.go:135-145 | excluding by string is excluding by number |
| PoolWindows.ParsePoolWindow | internal/ipam/pool.go:23-72 | a window is built exactly when each field is blank or acceptable, and excludes the listed addresses and the gateway, nothing else |
| PoolWindows.FirstFree | internal/ipam/pool.go:86-146 | the wrapping loop returns the least free candidate, none, or goes round for ever, each exactly when its specification says |
| PoolWindows.BoundsAreTheWindow | internal/ipam/pool.go:95-133 | the uint32 bounds are the usable hosts cut by start and end on mathematical integers for /1 to /32 (/31 as in section 2.1 of RFC 3021), and one host short for /0 |
| PoolWindows.FirstFreeSoundExactly | internal/ipam/pool.go:86-146 | for every used set the result is the numerically least free address, or a refusal when none is free, if and only if the window is sound: its last address is below 255.255.255.255, or, for a /0, 255.255.255.254 is out of reach |
| PoolWindows.TopOfSpaceEscapes | internal/ipam/pool.go:135-145 | with 255.255.255.254/31 fully used, the search returns 0.0.0.0 |
| PoolWindows.FoundIsAHost | internal/ipam/pool.go:86-146 | an address found lies in the network, is neither network nor broadcast up to /30, is not the gateway, excluded or used |
| PoolWindows.NextFreeIsHigher | internal/controller/ipaddress_claim.go:101-115 | after one lost address the next one found is strictly higher, and exactly one address has left the free set |
| ClaimAllocator.ListUsedAddressesByPool | internal/controller/ipaddress_claim.go:19-41 | the used set is exactly the non-blank trimmed addresses of the claims that reference the pool by kind and name, over all namespaces |
| ClaimAllocator.OtherPoolsIgnored | internal/controller/ipaddress_claim.go:19-41 | claims of another kind or name of pool change neither the used set nor the address chosen |
| ClaimAllocator.AllocateIPAddressFromWindow | internal/controller/ipaddress_claim.go:47-123 | whatever other clients do between its requests, the requests and the outcome are those of the protocol automaton |
| ClaimAllocator.TakePreferredAddress | internal/controller/ipaddress_claim.go:65-99 | the same for the branch of an explicitly wanted address |
| ClaimAllocator.RetryProgress | internal/controller/ipaddress_claim.go:101-122 | under every sequence of replies: lost addresses ascend strictly, the used set is the snapshot plus exactly those, "exhausted" means every free address was in the snapshot or lost, the conflict error comes after 64 distinct losses, and 128 replies end the call |
| Claims.EveryRunIsSafe | internal/controller/ipaddress_claim.go:47-123 | over every interleaving of any number of calls, deletions, foreign claims and lost requests or replies, every lease reported is an address whose live claim is the caller's own, unless that claim was deleted while the lease stood, and every claim stands under its own name with one owner |
| Claims.OneClaimPerAddress | internal/controller/ipaddress_claim.go:101-117 | in one namespace no address ever has two live claims |
| Claims.NoDoubleLease | internal/controller/ipaddress_claim.go:47-123 | when two parents of one namespace hold a lease of one address, the claim of one of the two was deleted while it held its lease; earlier releases of the address make no difference |
| ClaimContents.ClaimsFitTheirPool | internal/controller/ipaddress_claim.go:47-123 | over every run of calls on sound windows: each claim names its caller's pool and carries that pool's prefix, an address of its network, and the caller as owner and claimRef; a standing lease reports its claim's prefix |
| PreferredAddress.NeverLeasesExcludedExactly | internal/controller/ipaddress_claim.go:65-99 | no sequence of replies leases an excluded address if and only if the wanted address is blank, rejected, outside the CIDR or not excluded |
| PreferredAddress.NeverCreatesExcludedExactly | internal/controller/ipaddress_claim.go:65-99 | none creates a claim on one if and only if, besides, the wanted address may be in the snapshot: then only a claim already the caller's own is leased |
| PreferredAddress.GatewayIsLeased | internal/controller/ipaddress_claim.go:65-85 | a wanted address equal to the pool's gateway is leased by a free get and a create |
| ClaimUniqueness.SerialRunsKeepPoolUnique | internal/controller/ipaddress_claim.go:19-123 | when list and create of different calls are not interleaved, addresses of a pool are unique over the whole cluster, in every run |
| ClaimUniqueness.InterleavedUniqueExactly | internal/controller/ipaddress_claim.go:19-123 | two interleaved calls on an empty pool, each with a wanted address or without, keep it unique on every schedule if and only if they run in the same namespace or do not go for one address |
| SliceSort.SortDeterminedExactly | internal/controller/router_policy_render.go:103-125 | what an unstable sort returns is determined if and only if elements that tie are equal |
| SliceSort.SortByDeterminedExactly | internal/controller/router_policy_render.go:103-125 | for every fixed comparison sort, the order of its input cannot be seen in its result if and only if elements that tie are equal |
| PolicyDocs.LessIsKeyLess | internal/router/policy.go:258-283 | the three sort closures are lexicographic orders on the entries' keys |
| PolicyDocs.NormalizePolicySlices | internal/router/policy.go:196-212 | nil lists become empty, the lists that exist stay the same objects, the document reads the same |
| PolicyDocs.SortPolicyLists | internal/router/policy.go:258-283 | each list is replaced in place by a sorted permutation of itself, and nothing else changes |
| PolicyDocs.PolicyEqualDesired | internal/router/policy.go:239-256 | true only if everything but the generation agrees up to list order, always true then when keys determine entries; the callers' shared lists come back sorted, as permutations |
| PolicyDocs.ComparisonIsEquivalence | internal/router/policy.go:239-256 | when keys determine entries the comparison is reflexive and transitive, and asking again about the lists it has sorted, in either order, gives the same answer |
| PolicyDocs.SortedCopiesAgree | internal/router/policy.go:239-283 | two documents that differ in list order and generation sort to one document up to the generation |
| PolicyDocs.MarshalPolicyDoc | internal/router/policy.go:182-194 | writes the sorted, normalised document and leaves the caller's document in that state |
| PolicyDocs.ParsePolicyDoc | internal/router/policy.go:149-180 | returns a fresh document with the text's contents and defaults, nothing for blank text, an error exactly for text that is not JSON |
| PolicyDocs.ParseMarshal | internal/router/policy.go:149-194 | parsing what was written returns the document |
| PolicyRender.PortForwardIdInjective | internal/router/policy.go:215-217 | on canonical addresses, TCP or UDP, and any port, the id determines all three |
| PolicyRender.BuildPolicyDoc | internal/controller/router_policy_render.go:15-101 | the document built is one of the sorted renderings of its inputs, which `PolicyEntries` describes entry by entry |
| PolicyRender.RenderIgnoresListOrder | internal/controller/router_policy_render.go:53-125 | for every permutation of the address, floating IP and port forward lists the rendered document is the same when keys determine entries |
| PolicyOrder.RenderDeterminedExactly | internal/controller/router_policy_render.go:53-125 | for every fixed sort, the rendering is the same for every order of the input lists if and only if keys determine the projected entries |
| PolicyOrder.TwoForwardsTie | internal/controller/router_policy_render.go:117-125 | two port forwards of one public address, protocol and port have one sort key |
| PolicyRender.RenderedEntries | internal/controller/router_policy_render.go:76-251 | every lease, floating IP and forward belongs to an attached VPC, and no forward sits on the public address of an associated floating IP |
| PolicyRender.ForwardKeptExactly | internal/controller/router_policy_render.go:81-96 | an eligible forward is rendered if and only if no associated floating IP has its public address; held ones do not count |
| PolicyEntries.RenderedLeases | internal/controller/router_policy_render.go:127-171 | a lease is in the document exactly as often as an address claim of an attached VPC, with a MAC and not the router's own, says it field by field: address, MAC, host name, VM, VPC |
| PolicyEntries.RenderedFloatingIPs | internal/controller/router_policy_render.go:173-217 | a floating IP entry is there exactly as often as a listed floating IP of an attached VPC and of this router says it: public address from the status or, that being blank, the spec, and private address, VM, prefix and VPC field by field |
| PolicyEntries.RenderedForwards | internal/controller/router_policy_render.go:76-251 | a forward is there exactly as often as a listed one of an attached VPC and of this router says it, both addresses and ports, protocol, VM and id, unless a floating IP with a private address has its public address |
| PolicyEntries.RenderedHead | internal/controller/router_policy_render.go:15-51 | the document's version, kind, name, namespace, generation and external attachment, and its interfaces in order with VPC, CIDR, gateway, MAC, domain and DHCP settings |
| Generation.NextPolicyGeneration | internal/controller/router_policy_render.go:254-276 | the number returned is the one its comparison calls for, whichever document is missing, whatever their generations, also for one object twice; both come back sorted, a next generation below one as one |
| Generation.RenderPolicy | internal/controller/router_controller.go:116-136 | the text one reconcile tries to store, from what it read, is one that the rendering, the previous document and the status generation allow |
| Generation.LostDocumentGeneration | internal/controller/router_controller.go:116-136 | with no readable document stored, numbering goes on from a positive status generation and starts at 1 otherwise |
| Generation.TargetIsFixpoint | internal/controller/router_controller.go:116-136 | rendering again from what was stored stores the same text, whatever generation the status holds |
| Generation.TargetIgnoresOrder | internal/controller/router_policy_render.go:15-101 | the text does not depend on the order the lists arrive in |
| GenerationRuns.DecideWrite | internal/controller/router_controlplane.go:98-154 | one pass of the retry closure creates, skips, updates or refuses as specified; `ConfigMapWrite.PassLeaves` says what that leaves |
| ConfigMapWrite.PassLeaves | internal/controller/router_controlplane.go:98-189 | an uncontended pass leaves the object alone exactly when another controls it; otherwise the current version has the policy and script, each wanted label over the others as read, every annotation as read and an agent status, "Pending" exactly when there was none, the router's reference in its place or at the end and the other owners in order; the reference is marked as controller unless the mark was all that was missing |
| ConfigMapWrite.MarkIsNotRestored | internal/controller/router_controlplane.go:173-183 | an object as wanted, whose reference to the router lost the controller mark, is not written |
| GenerationRuns.MapsEqualExactly | internal/controller/router_controlplane.go:161-171 | `mapsEqual` decides equality against every second map if and only if the first holds no empty value |
| GenerationRuns.MapsEqualAfterMerge | internal/controller/router_controlplane.go:119-150 | when keys are only added or overwritten it is exact |
| GenerationRuns.DataChangesAtMostOnce | internal/controller/router_controlplane.go:98-155 | with resources and resolved interfaces fixed and keys determining entries, every interleaving of reconciles, stale reads, conflicts, crashes and heartbeats changes the stored data at most once, to one goal, when no read of the stored document fails or the status leads to that goal too |
| GenerationRuns.LostReadsHarmlessExactly | internal/controller/router_controller.go:116-136 | with failing reads too, all runs from a start change the data at most once if and only if the status leads to the same generation as the stored document, or the object belongs to another controller |
| GenerationRuns.LostReadGoesBack | internal/controller/router_controller.go:116-136 | new contents are stored as g + 1 by one pass, and again as g by the next, whose read failed and whose status was still the old one: two changes, the generation going down |
| GenerationRuns.TiesRace | internal/controller/router_policy_render.go:103-125 | under any fixed sort and from any stored document, two passes over one cluster state with lists in different orders write twice when entries tie |
| GenerationRuns.GoalGeneration | internal/controller/router_policy_render.go:254-276 | that goal carries the old generation or the old one plus one, the old one exactly when the desired parts agree |
| GenerationRuns.UncontendedPassSettles | internal/controller/router_controlplane.go:98-155 | one read and write without contention settles the object, or the owner reference is refused |
| GenerationRuns.QuietForever | internal/controller/router_controlplane.go:137-152 | once settled, no run writes again: agent heartbeats wake the reconciler in vain, when no read of the stored document fails or the status leads to the goal too |
| GenerationRuns.FixpointExactly | internal/controller/router_controlplane.go:98-155 | for every fixed sort, every run from every start, whose renders have read the stored document in some version, changes the data at most once if and only if keys determine entries |
| NicSync.RouterVM.SyncNetworks | internal/controller/router_appliance.go:434-592 | the VM's lists and annotations become the specified ones, which `NicSyncFields` describes field by field, with one patch when something changed and none otherwise |
| NicSyncFields.EntriesExactly | internal/controller/router_appliance.go:441-562 | both lists afterwards, position by position: the pod first; each wanted name in ascending order, exactly name, bridge and MAC when it is new, otherwise every field but state and MAC as it was, its network as it was or exactly name and Multus network; then the unwanted interfaces, absent and otherwise as they were, and their networks |
| NicSyncFields.AnnotationExactly | internal/controller/router_appliance.go:568-585 | the address annotation splits at commas into gateway and prefix of each attachment in order and the external CIDR; it is untouched without attachments, every other annotation always; the template's annotations are equal |
| NicSyncFields.PlainNames | internal/controller/router_appliance.go:611-622 | lower-case alphanumeric VPC names up to 20 characters keep their own interface names |
| NicSyncRuns.LiveExactlyDesired | internal/controller/router_appliance.go:441-562 | for every prior VM the live interfaces are the desired names, once each and with their MACs; every other prior interface survives as absent with its other fields; the pod interface is first |
| NicSyncRuns.SyncedNetworks | internal/controller/router_appliance.go:441-562 | the network list afterwards: the pod first, an entry for each desired name (the prior one if there was one), and the prior entries of the unplugged names |
| NicSyncRuns.SecondSyncMakesNoPatch | internal/controller/router_appliance.go:434-608 | a second sync of the same attachments finds nothing to patch |
| NicSyncHistory.LiveDependsOnLast | internal/controller/router_appliance.go:441-562 | after any history of attachments, from any VM, the live interfaces depend on the last attachments only |
| NicSyncHistory.StepRightExactly | internal/controller/router_appliance.go:508-540 | one sync leaves all desired names on their networks if and only if those that had an entry were on the right one before |
| NicSyncHistory.RunsRightExactly | internal/controller/router_appliance.go:508-540 | from the appliance as built for any attachments within a set of VPCs and a set of external networks, every history within them ends on the right networks if and only if interface names distinguish the VPCs and there is one external network at most |
| NicSyncHistory.DashesCollide | internal/controller/router_appliance.go:611-622 | a dash anywhere in a name collides with leaving it out |
| NicSyncHistory.ExternalNeverFollows | internal/controller/router_appliance.go:508-540 | a changed external network is never followed |
| NicSyncHistory.FirstSyncReplacesBuiltNics | internal/controller/router_appliance.go:262-330 | after the first sync every built private interface is absent and its VPC's derived name is live |
| FloatingIPs.EnsureIPAddressClaim | internal/controller/floatingip_controller.go:247-318 | whatever other clients do between its requests, requests and result are those of the automaton: keep the recorded address, else find one's own claim, else allocate |
| FloatingIPRuns.RecordedIsOwn | internal/controller/floatingip_controller.go:186-318 | over every run of reconciles, spec edits, deletions, other controllers, outside removals and losses, with arbitrarily old reads: each address ever recorded for a living floating IP is backed by its own live claim, and no two of one namespace record the same address, except for claim names that outsiders remove |
| FloatingIPClaims.ClaimsHaveACause | internal/controller/floatingip_controller.go:247-350 | over every run on sound pools each claim was made by another controller, or asked for by a reconcile: owned by that floating IP, with the pool kind and name of its spec, the pool's prefix, an address of the pool's network outside the used set, the wanted one if the spec has one |
| FloatingIPOutside.BackedExactly | internal/controller/floatingip_controller.go:247-318 | recorded addresses keep a claim of their own over every run if and only if nobody else may remove a claim of an address in the namespace of a floating IP |
| FloatingIPOutside.SharedExactly | internal/controller/floatingip_controller.go:247-258 | no two floating IPs of a namespace ever share an address, over every run, if and only if nobody else may remove a claim of an address in a namespace with two of them |
| FloatingIPOutside.SharedRun | internal/controller/floatingip_controller.go:247-258 | a claim is removed, a neighbour claims and records the address, and the first one's next reconcile keeps it: both have it, one claim |
| FloatingIPRuns.DeletionTakesOnlyItsOwn | internal/controller/floatingip_controller.go:186-245 | over every such run deletion removes only claims of the floating IP being deleted, except under names that outsiders remove |
| FloatingIPOutside.DeletionsOwnExactly | internal/controller/floatingip_controller.go:186-222 | that holds without exception over every run if and only if nobody else may remove a claim of an address in a namespace where a floating IP has another owner beside it |
| FloatingIPOutside.WindowRun | internal/controller/floatingip_controller.go:208-220 | between check and deletion the claim is removed and another owner claims the name: the deletion takes that claim |
| FloatingIPMoves.ReconcileRecords | internal/controller/floatingip_controller.go:247-318 | what one reconcile of an idle floating IP records, for every age of the status it reads, every spec and pool and every pattern of lost requests and replies |
| FloatingIPMoves.ReconcileKeepsExactly | internal/controller/floatingip_controller.go:247-318 | it keeps the recorded address if and only if a question for the recorded claim is answered and was about that address (or the write of another is lost), or none is answered and no allocation records another |
| FloatingIPMoves.NeverMovesExactly | internal/controller/floatingip_controller.go:247-318 | over every run, whatever fails, is old or is removed from outside: the address is kept and no write of another is ever under way if and only if no request about another address is granted to a reconcile of the floating IP |
| FloatingIPReads.ReadsKeepExactly | internal/controller/floatingip_controller.go:247-302 | for every class of runs, by which reads may be old or lost and whether addresses are wanted: no recorded address is ever replaced if and only if status reads are current, and the first question is always answered, or the second is and none is wanted |
| FloatingIPMoves.AddressNeverChanges | internal/controller/floatingip_controller.go:247-258 | over every run in which the reads of the object's status and of its recorded claim arrive and nobody else removes that claim, the recorded address and its claim stay, whatever the spec becomes |
| FloatingIPMoves.StaleReadMovesAddress | internal/controller/floatingip_controller.go:247-318 | with every answer arriving, a reconcile that sees the status from before the first write moves to the lowest free address and leaves the old claim behind |
| FloatingIPMoves.WantedMovesAddress | internal/controller/floatingip_controller.go:247-318 | with a wanted address set, losing the first answer alone moves to it |
| FloatingIPMoves.LostReadsMoveAddress | internal/controller/floatingip_controller.go:247-302 | for every floating IP without a wanted address, losing both answers about its claim moves it to the lowest free address and leaves the old claim behind |
| FloatingIPDelete.DeleteOwnedIPAddress | internal/controller/floatingip_controller.go:186-222 | whatever others do to the store between its requests: it looks at one claim and deletes that, or lists and deletes each listed claim of its own once until one fails, and reports success exactly then; with nobody else writing, only the owner's own claims go, and on success exactly its claim under the recorded address, with none recorded the wanted one's, with neither all of its claims |
| FloatingIPDelete.ReleasesShownOnly | internal/controller/floatingip_controller.go:186-245 | a deletion is only asked for of a claim that was shown to be the owner's, and under the recorded address or, with none, the wanted one, or with neither any |
| FloatingIPDelete.ReleasedSparesOthers | internal/controller/floatingip_controller.go:186-245 | releasing takes no claim from another parent, none of the owner's under another address, and leaves none under the recorded address, with none recorded under the wanted one, with neither anywhere |
| FloatingIPRelease.RemovedLeavesNothing | internal/controller/floatingip_controller.go:168-222 | over every run: a floating IP whose deletions read the current status leaves, once it is gone, no claim of its own under its last recorded address, with none recorded none under the wanted one, with neither none at all, whatever other objects, outsiders, losses and crashes do meanwhile |
| FloatingIPRelease.ReleaseExactly | internal/controller/floatingip_controller.go:168-222 | for every bound on the age of the statuses deletions read: nothing is left in every run if and only if the bound is zero |
| FloatingIPRelease.OldReadLeavesClaim | internal/controller/floatingip_controller.go:186-222 | a deletion that still reads the empty status looks for the spec's new address, completes, and the recorded claim stays |
| Vlan.FirstFreeVlan | internal/ipam/validate.go:79-87 | the loop returns the least unused number of the range, none when all are used |
| Vlan.LowestFreeMeaning | internal/ipam/validate.go:79-87 | that number is in range and unused and all lower ones are used |
| Vlan.AllocateVlan | internal/controller/vpc_controller.go:183-209 | the allocation is over the excludes and the VLANs held by the other VPCs of the pool |
| Vlan.Inventory | internal/controller/vlanpool_controller.go:110-144 | the two counters are the VPCs holding a VLAN of the pool and the size of the set of free numbers |
| Vlan.Conservation | internal/controller/vlanpool_controller.go:110-144 | allocated + available + distinct excludes = end - start + 1, in every sound state |
| Vlan.RefusedExactlyWhenNoneAvailable | internal/controller/vpc_controller.go:94-119 | a VPC without a VLAN is refused if and only if the inventory shows none available |
| Vlan.RunKeepsSound | internal/controller/vpc_controller.go:94-119 | over every run of creations, reconciles with reads and lists of any age, and deletions, the VLANs of a pool stay distinct, in range and non-excluded, when nothing relevant came between the list of a reconcile and its patch |
| Vlan.ReferencesSoundExactly | internal/controller/vpc_controller.go:81-209 | with current reads, all runs from an empty cluster keep a pool sound if and only if each reference looked up as the pool is written like its name, or the pool has no number to give |
| Vlan.BlankBeforeDefault | internal/controller/vpc_controller.go:81-209 | two VPCs that reference " default" end on one VLAN |
| Vlan.OldListsSoundExactly | internal/controller/vpc_controller.go:183-209 | with reads and lists of any age, all runs of reconciles keep a pool sound if and only if at most one of its VPCs waits for a VLAN or none is free |
| Vlan.VlanNeverChanges | internal/controller/vpc_controller.go:94-119 | a VLAN once set stays until its VPC is deleted, in every run in which the reads of that VPC itself are current; lists may be old |
| Vlan.OldReadsKeepExactly | internal/controller/vpc_controller.go:94-119 | with reads and lists of any age, no run of reconciles changes a VLAN of the pool that is set if and only if at most one of its VPCs waits or at most one number is free |
| DexName.DexIdToName | console/app/devboxes/dex-oidc.server.ts:28-45 | the shift-register loop, never masked, equals unpadded lower-case base32 (section 6 of RFC 4648, unpadded as in section 3.2) of the id and the eight fixed bytes, for every byte string |
| DexName.Base32RoundTrip | console/app/devboxes/dex-oidc.server.ts:20-45 | decoding that form gives the bytes back, for every byte string |
| DexName.NameInjective | console/app/devboxes/dex-oidc.server.ts:28-45 | no two client ids share a storage name |
| DexName.ClientIdInjective | console/app/devboxes/dex-oidc.server.ts:47-49 | the client id determines namespace and VM, namespaces having no dot |
| LabelsText.ParseLabelsText | console/app/lib/format.ts:124-151 | the indexed loop parses the lines in order, a later key overwriting, the first bad line ending it with its error |
| LabelsText.RoundTrip | console/app/lib/format.ts:113-151 | for every text the parser accepts, printing the result in any key order and parsing again gives the same map |
| LabelsText.RoundTripExactly | console/app/lib/format.ts:113-151 | a map survives printing and parsing if and only if each entry meets the stated conditions on key and value |
| BackendGroup.VmClient.StampBackendGroup | console/app/backends/stamp.server.ts:118-162 | stamps in order, stops at the first failure and rolls back what was counted as stamped, consuming any pattern of failures and lost replies |
| BackendGroup.ConflictRetriedOnce | console/app/backends/stamp.server.ts:33-114 | a refused write is tried a second time exactly when its error reads as a conflict; a second refusal is final |
| BackendGroup.VmClient.UnstampBackendGroup | console/app/backends/stamp.server.ts:165-184 | clears in order, passing over failures whose text reads as "not found" |
| ErrorText.WrappedIsNotFound | console/app/backends/stamp.server.ts:26-29 | a failure reads as "not found" if and only if the VM's name or the call's own text says 404 or "not found" |
| BackendGroup.VmClient.UpdateBackendVms | console/app/backends/backends.server.ts:473-510 | adds, then removes, then restamps on a changed id, as the member lists differ |
| BackendGroup.StampAllEffect | console/app/backends/stamp.server.ts:118-162 | whatever fails, the first counted names are marked, the next one exactly when its write landed unheard; these exist, and every other VM is untouched |
| BackendGroup.FailedStampRestoresExactly | console/app/backends/stamp.server.ts:118-162 | a failed stamp whose rollback calls go through restores every label map if and only if the VMs it counted carried no group label, and the stamp that failed did not land, or its VM carried this id already or was counted before under the same name |
| BackendGroup.HeardStampsRestoreExactly | console/app/backends/stamp.server.ts:118-162 | over all patterns of failures without a lost reply that is so if and only if none of the names that can be reached before a failure carries a group label |
| BackendGroup.FailedStampsRestoreExactly | console/app/backends/stamp.server.ts:118-162 | over all patterns of failures that is so if and only if, besides, each name that can be stopped at carries the id already; with an id to stamp: the first name does not exist, or it is the only one and in the group |
| BackendGroup.UnheardStampStays | console/app/backends/stamp.server.ts:118-162 | a single VM whose stamp lands with its reply lost stays in the group of the failed request |
| BackendGroup.UpdateMovesGroup | console/app/backends/backends.server.ts:473-510 | a successful move leaves every next member with the next id, clears dropped ones, and touches no other VM and no other label |
| BackendGroup.ExactlyNextMembers | console/app/backends/backends.server.ts:473-510 | so a VM carries the next id if and only if it is a next member, when no outsider carried it before |
| BackendGroup.LeavingClears | console/app/backends/backends.server.ts:503-510 | leaving group mode clears the old members and touches nothing else |
| BackendGroup.UnstampTruthfulExactly | console/app/backends/stamp.server.ts:165-184 | "unstamped" means cleared for every pattern of failures with given texts if and only if neither the VM's name nor any of the texts contains 404 or "not found" |
| BackendGroup.NamespaceIsEnough | console/app/backends/stamp.server.ts:165-184 | a refusal that quotes a namespace with 404 in its name goes unreported |
| ServiceMembership.NormalizedMeaning | console/app/backends/backends.server.ts:330-336 | normalised member names are the trimmed non-blank ones, each once, in ascending order |
| ServiceMembership.ReadBackExactly | console/app/backends/membership.ts:35-132 | what is written for a membership reads back as it if and only if it is expressible: non-empty values, and member names that are trimmed, non-blank and free of commas |
| ServiceMembership.ValidatedExpressibleExactly | console/app/backends/backends.server.ts:202-224 | a validated, normalised request is expressible if and only if its member names hold no comma |
| ServiceMembership.BackendClient.CreateBackend | console/app/backends/backends.server.ts:318-421 | stamps, Service and failure are the specified ones, stamps undone on a failed lookup, an existing Service or a failed create |
| ServiceMembership.DuplicateCreateClearsMembers | console/app/backends/backends.server.ts:346-421 | with every VM call going through, creating a group over an existing Service is refused, whatever its lookup throws, clears the group label of every named VM, also of earlier members, or leaves it set when the lookup's error says "already exists", and touches no other |
| ServiceMembership.DuplicateCreateSparesExactly | console/app/backends/backends.server.ts:346-421 | it leaves all VMs as they were if and only if none of the named ones was in a group, or all were in the new one in the case of that error |
| ServiceMembership.CreateStampsExactly | console/app/backends/backends.server.ts:346-421 | a create of a new group leaves its members stamped if and only if it hears of its write; when the write has landed unheard, the Service is there and its members are without the label |
| ServiceMembership.BackendClient.UpdateBackend | console/app/backends/backends.server.ts:427-576 | read, VM calls, metadata rewrite, ports, write and read again, each failure leaving what came before it, a write that lands unheard included |
| ServiceMembership.RewrittenDescribes | console/app/backends/backends.server.ts:521-535 | the rewrite leaves exactly the new membership's keys and selector and every foreign key as it was |
| ServiceMembership.RunsReadBack | console/app/backends/backends.server.ts:318-576 | after a create and any run of updates, failing anywhere, the Service reads back as the last membership written, selects what `resolveServiceSelector` gives for it, and holds no key of an earlier mode |
| BackendSelection.RunsRecordExactly | console/app/backends/membership.ts:36-84 | then the kind, VM, group, match-labels and member-vms keys are those of that membership by name and value, and the keys of other modes are absent |
| BackendSelection.RunsSelectExactly | console/app/backends/membership.ts:14-33 | after a stored create and any run of updates, failing or not, the selector matches the pod of a VM if and only if the membership last written asks for it: by `kubevirt.io/vm` equal to its name, by each label pair asked for, or by the group id on its template |
| BackendSelection.LabelsMatchSelector | console/app/backends/membership.ts:134-145 | the loop says whether the selector is non-empty and all its entries are among the labels |
| ServiceMembership.RunsKeepStamps | console/app/backends/backends.server.ts:427-576 | while requests succeed, every recorded member carries the recorded group id, in every run |
| BackendSelection.RecordedAreSelected | console/app/backends/backends.server.ts:427-576 | while requests succeed, the pod of every recorded member is selected, in every run |
| BackendSelection.CreateNeedsVms | console/app/backends/backends.server.ts:318-421 | a create that succeeds found every VM it names, at most 32 of them, and its Service passes for a backend unless an extra label says otherwise |
| BackendSelection.UpdateNeedsVms | console/app/backends/backends.server.ts:427-576 | an update that lands was of a backend, its single VM was there, its group had 1 to 32 names |
| BackendSelection.RefusedUpFront | console/app/backends/backends.server.ts:427-470 | a Service that is no backend, and a request that is not valid, leave VMs and Service as they were |
| ServiceMembership.LateFailureMovesVms | console/app/backends/backends.server.ts:537-571 | when the ports are refused or the write is refused, the VMs have moved and the Service still records the old membership |
| ServiceMembership.LateFailureSparesExactly | console/app/backends/backends.server.ts:537-571 | with every VM call going through, no VM is changed by it if and only if each next member already carried the next id and no dropped member a group label |

## Left out

- ClaimAllocator.RetryProgress: assumes a sound window; for the others the search itself is already wrong, as stated above.
- DexName.ClientIdInjective: namespaces are Kubernetes DNS labels, so they hold no dot.
- IPv4.ValidateExactlyCanonical: the IPv6 branch of `net.ParseIP` is an arbitrary function of the text; IPv4-mapped IPv6 CIDRs and nil windows are not modelled.
- PolicyDocs.ParseMarshal: needs a non-empty apiVersion and kind, which every rendered document has; JSON text itself is an injective encoding, and Go's decoding of single fields is not modelled.
- NicSyncHistory.LiveDependsOnLast: an interface with an empty desired MAC keeps the MAC it had, so the MAC is stated for non-empty ones; resolved interfaces never have an empty one.
- FloatingIPMoves.ReconcileKeepsExactly: nobody else changes the store during that one reconcile, and the claims of earlier records are still there; `FloatingIPMoves.NeverMovesExactly` has neither restriction. The status patch is one atomic step.
- ClaimContents.ClaimsFitTheirPool: for runs without foreign claims and with sound windows; an unsound one is known to give addresses outside.
- FloatingIPClaims.ClaimsHaveACause: assumes sound windows likewise.
- FloatingIPRelease.RemovedLeavesNothing: from the last reconcile on; a reconcile that runs on an old object after its deletion has begun, and claims made by others in the floating IP's name, are excluded.
- ConfigMapWrite.PassLeaves: `blockOwnerDeletion` and the API version of owner references are not modelled; the router's own reference is marked as controller, as the library makes it.
- BackendSelection.RunsSelectExactly: a pod's labels are those of the VM's template and `kubevirt.io/vm`; the labels KubeVirt adds besides are not modelled.
- Claims.NoDoubleLease: parents have distinct uids and distinct kind, namespace and name; a parent recreated under the same name counts as the same one.
- Vlan.RunKeepsSound: int32 overflow of VLAN numbers is out of reach of a valid pool; pool specs and references are stable, and pool names, being Kubernetes names, have no blanks around them.
- GenerationRuns.FixpointExactly: failed reads are the subject of `GenerationRuns.LostReadsHarmlessExactly`.
- ServiceMembership.RunsKeepStamps: VMs are not relabelled or recreated by others meanwhile, and one Service is looked at; other Services' groups are foreign labels.
- PolicyRender.RenderIgnoresListOrder: resolved interfaces, their random MACs and the external attachment are inputs, held fixed.
- Upper and lower case: ASCII only. JavaScript strings are sequences of characters, not of UTF-16 units; a key named `__proto__` and the printer's locale collation are not modelled (any key order is allowed instead).
- UTF-8 encoding of a Dex client id: the encoder takes the bytes.
- The VM address controller (`virtualmachine_ipam.go`) beyond the allocation call it makes: its claims appear as claims of other parents; adopting claims, filling in MAC and host name, and matching kinds without case are not modelled.
- The router's gateway claims (create-or-update under a known name) and its public address (the same allocation call): they appear as claims of other parents.
- Router annotations on network attachment definitions (stamp, clear, preserve): single map updates.
- Creation, deletion and readiness of the appliance VM, cloud-init text, tokens, service accounts and roles.
- Kubernetes clients, caches, watches, events, finalizer plumbing and owner-reference garbage collection: what remains is an atomic store with create, get, list, update with conflict, and delete.
- BackendGroup.FailedStampRestoresExactly: the calls of the rollback itself go through; when they fail too, the source ignores it.
- ClaimUniqueness.InterleavedUniqueExactly: two calls, and a pool without claims before them.
- FloatingIPReads.ReadsKeepExactly: nobody else removes claims; that case is `FloatingIPOutside`. An unchanged status is written again, where the source sends nothing.
- Deleting a backend: its list of members comes from a live query, then runs the same unstamping.
- Status conditions, phases and messages; list and detail views of the console; port numbers of a Service beyond "accepted or refused".
