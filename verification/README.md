# Proofs about the tenant provisioning API

The service provisions tenants against a registry (PostgreSQL) and about ten
backends that can each fail: a hypervisor fabric, DNS, DHCP, a wireless
controller, an MQTT broker, a log store, dashboards and a secrets server. What
it promises rests on the order of its steps, on one allocation lock, and on
numbers derived from one tenant index. These modules model that logic and prove
the promises over every input, every interleaving and every point at which a
call may break off.

Check everything with `dafny verify dfyconfig.toml`. There is one module a file:

- `Lifecycle`, `Indexes`: which index a tenant gets, over every interleaving of creates, reconciles and deletes, and after the registry is lost.
- `Devices`, `Addresses`, `Allocations`: the address allocator all tenants share, MAC swaps, and names and records beside it; the last with overlapping calls.
- `Grants`, `Topics`: MQTT grants, measured against section 4.7 of MQTT 3.1.1.
- `Ppsk`, `Profiles`: keys in a wireless profile whose controller refuses to delete the last one; one call alone, and all tenants' calls interleaved.
- `Reseal`, `Transit`, `Sealed`: moving stored secrets to a new key while requests go on writing, and what a refused one does to the next ensure.
- `Orphans`, `Secrets`, `BrokerAccounts`: row first on create, backend first on delete; secrets that agree everywhere.
- `PowerDns`, `Kea`: DNS zone handover; a DHCP table with a second writer.
- `Reservations`: the registry's addresses and the DHCP table together.
- `LogRoutes`: where the rendered vmauth configuration sends a request.
- `Workloads`, `Site`, `Certificates`: identities and names derived from an index.
- `Basics`, `Text`, `Sorting`: how a call may fail, strings, numerals and sorted comparison.

How it is modelled. The registry and each backend table is a map, set or
sequence. Code that changes state is a class or a method with the source's loops,
proved equal to a function or a step predicate; the theorems are about that
function. A transaction is one atomic step. Every call out of the service takes
its outcome from a parameter: `Before` is lost before it takes effect, `After`
takes effect and is reported as failed, `Fine` does what it should. Random values,
ciphers and hashes are parameters too, with only the laws that are used: a key
opens what it sealed, no ciphertext opens under two keys, a hash accepts its
password. The wireless controller is taken to refuse a second key of one name, beside
the refusals its client documents. A `char` is a byte.

Beside each operation stands a lemma that says what it does in the system's own
terms (`…Exactly`, `…ExactlyWhen`), and beside each machine one that every step the
code takes is in it (`…AreThere`).

## Findings

Nine things the comments lead one to expect do not hold of the code. Each has a
lemma at a case where it fails and the exact condition under which the code does
what is promised.

- The API bounds a pattern before prefixing it and the writer after: `Grants.LongPatternRefusedByWriter`, `Grants.WriterTakesApiRequest`.
- A DHCP reservation saved behind a failed reconfigure is never applied by asking again: `Kea.RetryDoesNotReconfigure`, `Kea.EnsureAppliesExactlyWhen`.
- An ensure can succeed with dashboards on a token the log store does not know: `Secrets.StaleReadDisagrees`, `Secrets.EnsureAgreesExactlyWhen`.
- A new tenant's dashboard password is missing from a successful response when the record cannot be read back: `Secrets.UnreadPasswordIsMissing`, `Secrets.CreateReturnsWorkingSecrets`.
- A restore over a registry that survived replaces the token pair and leaves the new one out of its response: `Secrets.RestoreRotates`, `Secrets.RestoreRotatesExactlyWhen`, `Secrets.RestoreReturnsExactlyWhen`.
- A broker password is lost for good when the row is stored behind a reported failure: `BrokerAccounts.LostPasswordStaysLost`, `BrokerAccounts.PasswordReturnedExactlyWhen`.
- A secret whose previous key is only out of reach is reported as refused: `Transit.OutageReadsAsRefusal`, `Transit.OpenRefusesOpenableExactlyWhen`.
- So an outage can have the next ensure replace a token that works: `Sealed.OutageMintsOver`, `Sealed.PairReplacedExactlyWhen`.
- An address can be ready while the DHCP server holds it for the device's old MAC or not at all, and registering the device again reports success without repairing it: `Reservations.LostMarkStrands`, `Reservations.StepStrandsExactlyWhen`, `Reservations.RetryNeverMoves`.

Two more concern calls of different tenants that overlap, which nothing in the
code prevents: the controller can refuse a revocation
(`Profiles.RefusedExactlyWhen`, `Ppsk.OverlappingRemovesCollide`), and two holders
can come to share a MAC (`Allocations.MacSharedExactlyWhen`,
`Devices.OverlappingSwapsExactly`, `Devices.SwapOverCreateExactly`).

## Model

| member | source | states |
|---|---|---|
| Lifecycle.Recovery | internal/tenant/service.go:229-250 | from an empty registry over a fabric of old zones, at every point of every interleaving: an old tenant whose zone was never taken down has its old index whenever it has a row, and no other tenant ever has it |
| Lifecycle.RestoreSucceeds | internal/tenant/service.go:229-250 | when such a tenant comes back, whatever order the restores and creates come in, the insert succeeds and gives it exactly its old index |
| Lifecycle.RestorePicksOldIndex | internal/tenant/service.go:872-920 | the pick under the lock, on a stale fabric read, can only be the old index of a tenant whose zone is in place |
| Lifecycle.PickSparesOldIndexes | internal/tenant/service.go:872-920 | no other tenant's pick is an index whose old zone is in place |
| Lifecycle.RecoversExactlyWhen | internal/tenant/service.go:892-912 | a tenant whose zone carries one free index gets it back if and only if it asks for none, for that one, or for one that is not free |
| Lifecycle.NoSharedIndexes | internal/tenant/service.go:349-463 | with no registry loss, over every interleaving with stale fabric reads: no two rows share an index, every zone has a row of its name and index, and no row's index is carried by another tenant's zone or VNet |
| Lifecycle.NextKeepsInv | internal/backend/proxmox/network.go:20-149 | every step of create, ensure, delete and crash keeps the invariant over rows, zones, VNets, old zones and waiting operations |
| Lifecycle.RunKeepsInv | internal/tenant/service.go:740-798 | so it holds in every reachable state |
| Lifecycle.CreateStepsAreThere | internal/tenant/service.go:229-266 | every step of a create or a reconcile is in the machine whenever the code would take it, with what the code leaves on the fabric |
| Lifecycle.InsertIsThere | internal/store/store.go:266-317 | the locked insert takes place for whatever the pick is |
| Lifecycle.DeleteStepsAreThere | internal/tenant/service.go:349-463 | likewise every step of a delete, reported or not |
| Lifecycle.NothingRestsOnRow | internal/tenant/service.go:456-462 | when the row is dropped, last, no zone or VNet on the fabric depends on it |
| Lifecycle.ClaimsReadTheFabric | internal/backend/proxmox/proxmox.go:92-130 | the claims two listings yield, zones from one moment and VNets from a later one, applied or pending, are exactly what the fabric carried at each |
| Lifecycle.ReadVNetsSnapshot | internal/backend/proxmox/proxmox.go:92-102 | the second listing, made later than the first, still shows every old zone in place and no one else under an old index |
| Indexes.Claims | internal/backend/proxmox/proxmox.go:104-130 | exactly the nonzero claims of the zones and VNets, pending ones included, each once |
| Indexes.ByIndex | internal/tenant/service.go:873-876 | the map by index holds exactly the claims |
| Indexes.OwnIndexes | internal/tenant/service.go:899-907 | exactly the indexes the tenant's own zone carries, in ascending order whatever order the map is visited in |
| Indexes.PickIndex | internal/tenant/service.go:872-920 | a usable request, else the lowest index the tenant's own zone carries and no one else holds, else the lowest free one, and none exactly when there is none |
| Indexes.PickIsUnique | internal/tenant/service.go:872-920 | the rule leaves one answer |
| Indexes.PickExactly | internal/tenant/service.go:872-920 | in indexes: a request not taken, else the lowest of 1 to 62 the tenant's own zone carries and not taken, else the lowest not taken, else every one is taken |
| Indexes.ClaimedExactly | internal/backend/proxmox/proxmox.go:104-130 | in VNIs and tags: an index of 1 to 63 whose VNI a zone of the name has or is to have, or one of whose ten tags a VNet has or is to have, in the zone it is in or is to move to |
| Indexes.InsertExactly | internal/store/store.go:266-317 | a name that is there is refused; otherwise one row is added as provisioning under an index no row holds, and no other row changes |
| Indexes.TenantStore.Held | internal/store/store.go:278-291 | the indexes of the rows, each under a row that has it |
| Indexes.TenantStore.Create | internal/store/store.go:266-317 | an existing name and an exhausted pool leave the table alone; otherwise one row is added with the picked index |
| Site.VrfVniInverse | internal/tenant/site.go:339-345 | for every index 1..63 a VNI maps back to it if and only if it is that index's |
| Site.VnetTagInverse | internal/tenant/site.go:349-359 | for every index 1..63 a VNet tag maps back to it if and only if it is one of its ten |
| Site.NumberingExactly | internal/tenant/site.go:339-359 | the two maps in numbers: 1 to 63 above the VNI base, and ten tags from ten times the index above the tag base |
| Site.WorkloadInItsTenant | internal/tenant/site.go:386-394 | a workload's address is 10.octet.(128+index).(10+ordinal) and its VMID in its tenant's forty |
| Site.MacExactly | internal/tenant/site.go:398-400 | the MAC is the namespace and the VMID's low three bytes, high byte first |
| Site.ReservedExactly | internal/tenant/site.go:57-69 | exactly the eight labels are reserved |
| Site.VmidInjective | internal/tenant/site.go:386-388 | the VMID determines index and ordinal for every base |
| Site.MacInjective | internal/tenant/site.go:398-400 | VMIDs within one 24-bit span have different MACs, also where the low three bytes wrap |
| Site.WorkloadIdentityInjective | internal/tenant/site.go:386-400 | different index or ordinal means different VMID, MAC and address |
| Workloads.RunKeepsInv | internal/store/workloads.go:32-102 | in every reachable registry every workload's identity is the one derived from its tenant's index and its own ordinal, and ordinals differ within a tenant |
| Workloads.IdentitiesAreDistinct | internal/store/workloads.go:32-102 | in every reachable registry no two workloads of any tenants share a VMID, a MAC or an address |
| Workloads.IdentityForLife | internal/store/workloads.go:32-102 | ordinal, VMID, MAC and address never change while the row stands |
| Workloads.CreateExactly | internal/store/workloads.go:32-102 | a known workload changes only its sizing, an unknown tenant is refused, a new workload gets the lowest of forty ordinals none of the tenant's has, and no other workload changes |
| Workloads.SiteNumberingExactly | internal/store/workloads.go:90-93 | which of the three derived values is which |
| Workloads.Store.TakenOrdinals | internal/store/workloads.go:64-75 | exactly the ordinals of the tenant's rows |
| Workloads.Store.Create | internal/store/workloads.go:32-102 | a known name changes only its sizing; a new one gets the lowest free ordinal and what it derives; forty are the limit; no other workload changes |
| Workloads.Store.Delete | internal/store/workloads.go:135-137 | the derived-identity invariant is kept and the ordinal is free for the tenant again |
| Addresses.PickAddress | internal/tenant/addresses.go:149-179 | conflict for a MAC already held, then quota, then the address asked for if free, else the lowest free one in range; the scan ends even when the range ends at 255.255.255.255 |
| Addresses.PickedFacts | internal/tenant/addresses.go:149-179 | a given address is free, its MAC holds no other, the tenant is under quota, and it is in range or was asked for |
| Addresses.DottedInjective | internal/tenant/addresses.go:173-177 | the text of an address determines the address |
| Addresses.DottedExactly | internal/tenant/addresses.go:173-177 | four bytes, high first, in decimal with dots |
| Addresses.ContainsExactly | internal/tenant/site.go:101-103 | a range holds the IPv4 addresses between its ends and nothing else |
| Devices.AllocationHolds | internal/tenant/addresses.go:39-179 | over every run of non-overlapping calls failing anywhere: within a class held addresses are distinct and in range, holders' MACs are set and distinct, and no tenant exceeds its quota |
| Devices.NamesHold | internal/tenant/addresses.go:183-252 | over every such run an addressed device's name is no workload's and no record's of its tenant, and every record points into its tenant's subnet or at an address the tenant holds now |
| Devices.StepKeepsInv | internal/tenant/service.go:498-708 | each of the eleven calls keeps both |
| Devices.RunKeepsInv | internal/tenant/addresses.go:39-252 | and so does every run |
| Devices.GivenKeepsAllocation | internal/store/addresses.go:61-105 | an address picked under the lock keeps the allocation invariant, quota included |
| Devices.MineIsCount | internal/tenant/addresses.go:151-163 | the loop's count is the number of devices the tenant holds addresses for |
| Devices.SwapKeepsAllocation | internal/tenant/devices.go:86-134 | a MAC swap that passed the check keeps every pair of holders apart |
| Devices.OverlappingSwapsExactly | internal/tenant/devices.go:102-113 | two swaps each checked before either is written keep the allocation if and only if their MACs or their trust classes differ |
| Devices.SwapOverCreateExactly | internal/tenant/devices.go:102-113 | a swap checked before another device's locked create and written after it keeps the allocation if and only if the MACs or the trust classes differ |
| Allocations.SpacingHolds | internal/store/addresses.go:61-105 | over every interleaving of all tenants' calls, each stopping anywhere: within a class held addresses are distinct and in range, and no tenant exceeds its quota |
| Allocations.InsertKeepsSpaced | internal/store/addresses.go:61-105 | the locked insert keeps this whatever other calls did between its reads and the lock |
| Allocations.MacSharedExactlyWhen | internal/tenant/devices.go:102-121 | at any point of any interleaving a step makes two holders of a class share a MAC if and only if it writes a device row under a MAC that became another holder's after the check |
| Allocations.MacsHold | internal/tenant/devices.go:102-121 | so with no such step all holders' MACs of a class are distinct over the whole run |
| Allocations.RunKeepsInv | internal/tenant/addresses.go:39-108 | in every reachable state each call under way is right about what it read of its own tenant |
| Allocations.AddressStepsAreThere | internal/tenant/addresses.go:39-145 | every step of an address's life is in the machine whenever the code would take it, with what the code leaves |
| Allocations.DeviceStepsAreThere | internal/tenant/devices.go:43-136 | likewise for a registration, a swap and an unregistration |
| Allocations.InsertIsThere | internal/store/addresses.go:61-105 | the locked insert takes place for whatever the pick is |
| Devices.PushReports | internal/tenant/addresses.go:114-145 | a push reports done only with the row ready, and a ready row not reported means the status write itself was reported as failed; only that row changes, its address never, and a row the call did not make is never withdrawn |
| Devices.NewAddressReports | internal/tenant/addresses.go:39-108 | for a device without an address, done means a ready row, a ready row means done unless the last write was reported as failed, and no other row, device, record or workload changes |
| Devices.HeldAddressReports | internal/tenant/addresses.go:39-108 | a device that has an address keeps it through any failure, and is told it is done only if its row is ready |
| Devices.PrefixTestIsBlock | internal/tenant/service.go:705-708 | the textual subnet test admits exactly the 256 addresses of the tenant's /24 |
| Devices.Book.ListClass | internal/store/addresses.go:125-127 | exactly the class's address rows with their devices' MACs, each once |
| Devices.Book.PushAddress | internal/tenant/addresses.go:114-145 | for every outcome of DHCP, DNS and the status write: done means a ready row, no other row moves, and an address this call did not make is never withdrawn |
| Devices.PushExactly | internal/tenant/addresses.go:114-145 | each answer of the DHCP server, DNS and the status write, with its reply and what it leaves of the row |
| Devices.Book.CreateDeviceAddress | internal/tenant/addresses.go:39-108 | the call refines its step and keeps the invariant |
| Devices.NewAddressExactly | internal/tenant/addresses.go:39-108 | a device without an address is refused untouched unless it may ask and its name is free; then a MAC held in the class is a conflict, the quota next, an address asked for that is held a conflict, an address asked for is the one in the row, and otherwise the row has the lowest free one |
| Devices.NewAddressGivenExactlyWhen | internal/tenant/addresses.go:39-108 | with nothing failing an address is given if and only if the tenant is ready, the device has a MAC and a class with a range, the request is none or in range, the name and the MAC are free, the tenant is under its quota and there is an address to give |
| Devices.HeldAddressExactly | internal/tenant/addresses.go:82-107 | a holder is refused untouched if and only if it may not ask or asks for another address; otherwise it is pushed again under its own |
| Devices.PickInRegistry | internal/tenant/addresses.go:149-179 | the pick said of the registry rows themselves |
| Devices.ConflictLeavesNothing | internal/tenant/addresses.go:116-128 | a new row the DHCP server has a conflict with leaves nothing behind |
| Devices.Book.Reapply | internal/store/addresses.go:66-76 | the device keeps its address at every failure, done means the row is ready, and the invariant is kept |
| Devices.Book.MacTaken | internal/tenant/devices.go:102-113 | true exactly when another holder of the class has the MAC |
| Devices.Book.RegisterDevice | internal/tenant/devices.go:43-136 | the call refines its step and keeps the invariant, the swap and its failures included |
| Devices.RegisteredExactlyWhen | internal/tenant/devices.go:43-136 | a registration that is not hindered succeeds if and only if the tenant is ready, the name a label, the class served and the device's own, and a new MAC of a holder set and no other holder's; and what the registry then holds |
| Devices.SwapConflictIsAnswered | internal/tenant/devices.go:102-111 | a swap to another holder's MAC is answered as a conflict, with nothing written |
| Devices.UnregisteredExactlyWhen | internal/tenant/devices.go:155-171 | a device goes if and only if it is registered and holds no address |
| Devices.Book.DeleteDeviceAddress | internal/tenant/addresses.go:223-252 | refused while a record of the tenant points at the address; otherwise the row goes only after the reservation and the DNS records did, and the invariant is kept |
| Devices.ReleasedExactlyWhen | internal/tenant/addresses.go:223-252 | refused if and only if a record of the tenant points at the address; the row goes only once everything before it did |
| Devices.Book.PublishRecord | internal/tenant/service.go:636-669 | refused under a device's name or outside the tenant's reach; otherwise the row is written after DNS, and the invariant is kept |
| Devices.PublishedExactlyWhen | internal/tenant/service.go:636-669 | a record is published if and only if the tenant is known, the name is a label no addressed device has, and the address is in the tenant's /24 or one it holds |
| Devices.UnpublishedExactlyWhen | internal/tenant/service.go:677-701 | a record goes if and only if the tenant and the record are there |
| Devices.WorkloadNamedExactlyWhen | internal/tenant/service.go:498-552 | a workload takes a name if and only if the tenant is ready and the name is a label, already the workload's or no addressed device's |
| Devices.WorkloadGoneExactlyWhen | internal/tenant/service.go:587-607 | a workload goes if and only if the tenant and the workload are there |
| Devices.DroppedExactly | internal/store/store.go:353-355 | a dropped tenant takes everything of its own and nothing of another's |
| Grants.TouchesLogExact | internal/brokeracct/contract.go:376-396 | for every well-formed filter the text test is true if and only if some topic matches both the filter and the tenant's log space under section 4.7 of MQTT 3.1.1 |
| Grants.MatchingTouches | internal/brokeracct/contract.go:376-396 | no filter, well formed or not, matches a log topic without the test seeing it |
| Grants.CommonTopic | internal/brokeracct/contract.go:376-396 | a touching filter comes with a valid topic that both match |
| Grants.InLogSpace | internal/brokeracct/contract.go:300-334 | the log space is the topics whose first two levels are the tenant and log |
| Grants.BridgeReceivesOnlyOwnLog | internal/brokeracct/contract.go:340-366 | any topic an accepted account may publish that the bridge's filter receives is exactly that account's own device's log topic |
| Grants.DeviceHearsNoLog | internal/brokeracct/contract.go:340-366 | no accepted device account receives any topic in any tenant's log space |
| Grants.TopicConfinement | internal/brokeracct/contract.go:253-296 | no topic is within reach of accepted accounts of two tenants |
| Grants.WriterConfinement | internal/brokeracct/contract.go:128-162 | the writer's check alone already keeps two tenants' patterns from matching one topic |
| Grants.WriterAgreesUpToLength | internal/brokeracct/contract.go:196-221 | for every list the API accepts the writer accepts the prefixed list if and only if each absolute pattern is within 256 |
| Grants.WriterTakesApiRequest | internal/brokeracct/contract.go:128-162 | the whole put the API builds passes the writer if and only if every absolute pattern is within 256 |
| Grants.LongPatternRefusedByWriter | internal/brokeracct/contract.go:257-258 | a relative pattern of 256 passes the API and is refused by the writer |
| Grants.ValidWildcards | internal/brokeracct/contract.go:225-241 | accepts exactly the filters whose wildcards are well formed |
| Grants.ValidPatterns | internal/brokeracct/contract.go:196-221 | accepts exactly lists of at most 32 whose every pattern is non-empty, within 256, under the prefix, without a percent sign and well formed |
| Grants.PrefixPattern | internal/brokeracct/contract.go:253-276 | accepts exactly the relative patterns the API allows and returns them under the tenant's prefix |
| Grants.PrefixPatterns | internal/brokeracct/contract.go:280-296 | accepts a list exactly when every member is, and prefixes each in place |
| Grants.TouchesLog | internal/brokeracct/contract.go:376-396 | the loop computes the level-by-level test |
| Grants.CheckLogGrants | internal/brokeracct/contract.go:340-366 | accepts exactly lists in which a touching publish is the device's own log topic and a device subscribes to nothing touching |
| Grants.CheckAccount | internal/tenant/brokeraccounts.go:80-99 | the four checks in order accept exactly the accounts the theorems are about, with the prefixed lists |
| Grants.AcceptedExactly | internal/brokeracct/contract.go:340-366 | in topics: an account is accepted if and only if its lists are of at most 32 patterns taken as text, something is granted, every publish pattern that meets the tenant's log space is the device's own log topic, and, for a device only, no subscribe pattern meets it |
| Grants.ApiAcceptsExactly | internal/brokeracct/contract.go:253-276 | a relative pattern is taken if and only if it has 1 to 256 characters, starts with neither slash nor dollar, has no percent sign, and its wildcards stand in place character by character |
| Grants.WriterAcceptsExactly | internal/brokeracct/contract.go:196-221 | the same of the writer, under the tenant's name and a slash |
| Grants.WriterValidExactly | internal/brokeracct/contract.go:128-194 | the writer takes version 1, a tenant and an account, and a bare delete or a put with a 60-character $2a$ hash, something granted and lists of at most 32 |
| Grants.TouchesIsMeeting | internal/brokeracct/contract.go:368-396 | the text test is exactly that the filter and tenant/log/# meet in a topic, for every filter with its wildcards in place |
| Grants.Validate | internal/brokeracct/contract.go:128-162 | the writer accepts exactly a delete that names an account and nothing more, or a put with a hash, a grant and valid patterns |
| Topics.ConcretiseMatches | internal/brokeracct/contract.go:368-376 | every well-formed filter has levels that it matches |
| Topics.LiteralMatchesItself | internal/brokeracct/contract.go:313-316 | a filter without wildcards matches exactly one topic |
| Topics.WildcardsByPosition | internal/brokeracct/contract.go:225-241 | the rule on levels is the rule on characters: a wildcard follows a separator, + is followed by one or nothing, # by nothing |
| Topics.StandardExamples | internal/brokeracct/contract.go:368-376 | matching agrees with the examples of sections 4.7.1.2 and 4.7.1.3 of MQTT 3.1.1 |
| Topics.DollarTopics | internal/brokeracct/contract.go:259-268 | a leading wildcard does not reach a topic that starts with a dollar sign |
| Ppsk.EnsureKeyProtocol | internal/backend/omada/omada.go:301-364 | whatever call fails before or after taking effect: the controller never refuses, no other key changes, the profile is never emptied, and success leaves exactly the others and the key, without placeholder |
| Ppsk.RemoveKeyProtocol | internal/backend/omada/omada.go:368-395 | the same for a removal, and success leaves nothing under the name |
| Ppsk.EnsureSucceeds | internal/backend/omada/omada.go:301-364 | with no call failing, ensure of a valid key succeeds from every profile |
| Ppsk.RemoveRefusedExactly | internal/backend/omada/omada.go:368-429 | the controller would refuse a removal if and only if it names a placeholder that is alone |
| Ppsk.RemoveExactly | internal/backend/omada/omada.go:368-395 | nothing to remove is a success that does nothing, and an undisturbed removal of any key succeeds |
| Ppsk.EnsureTakesExactly | internal/backend/omada/omada.go:301-313 | refused untouched unless the PSK has 8 to 63 visible characters, the name 1 to 64 and is not the placeholder's, and the VLAN is 1 to 4094 |
| Ppsk.EnsuredEntry | internal/backend/omada/omada.go:348-352 | success leaves an entry with the name, PSK, MAC and VLAN asked for |
| Ppsk.EnsureLeavesWhatIsRight | internal/backend/omada/omada.go:327-335 | a key that is there as asked, with no placeholder, is left alone |
| Ppsk.GuardAddsExactlyWhen | internal/backend/omada/omada.go:406-429 | a placeholder goes in if and only if there is none and the name is all there is, with no MAC and the revoked key's VLAN |
| Ppsk.PlaceholderVlan | internal/backend/omada/omada.go:443-450 | the placeholder's VLAN is always valid, and the revoked key's own when that is |
| Ppsk.OverlappingRemovesCollide | internal/backend/omada/omada.go:368-429 | for every profile holding two keys: two removals that both read it put no placeholder in, and the second is refused if and only if the two keys were all there was |
| Profiles.OnlyOwnersMove | internal/backend/omada/omada.go:301-429 | over every interleaving of all tenants' calls, each step failing before or after: between any two points whatever was not stepped on by name is untouched and in order, no name is doubled, and a profile that held a key was never emptied |
| Profiles.TenantsApart | internal/tenant/wifikeys.go:127-131 | over any stretch in which a tenant takes no step, every key of its stays and none appears, whatever the other tenants do |
| Profiles.EnsureEnds | internal/backend/omada/omada.go:301-364 | however it was interleaved, an ensure that reports success has its key in the profile, once and as asked, and the placeholder it saw is out |
| Profiles.RemoveEnds | internal/backend/omada/omada.go:368-395 | a removal that reports success leaves nothing under its name |
| Profiles.NoPlaceholderUnlessGuarded | internal/backend/omada/omada.go:406-429 | a placeholder that is out comes back only by a guard |
| Profiles.RefusedExactlyWhen | internal/backend/omada/omada.go:301-429 | at any point of any run the controller refuses a step if and only if it deletes the only key left or is a guard that another call's placeholder got ahead of; adds and sweeps are never refused |
| Profiles.RefusalNeedsOverlap | internal/backend/omada/omada.go:368-429 | a delete is refused only if, since its call began, another call took a key or the placeholder away |
| Profiles.Converges | internal/backend/omada/omada.go:301-364 | after any run one undisturbed successful ensure leaves exactly the others' keys and the one asked for, without placeholder; if only this key's broken-off calls had run, the others' as they first stood |
| Profiles.AloneIsOneCall | internal/backend/omada/omada.go:301-395 | a call no other interleaves with leaves exactly what EnsureKey or RemoveKey leave with the profile to themselves |
| Profiles.StepIsUndisturbing | internal/backend/omada/omada.go:301-429 | whatever a call read and however stale, its step moves no key but its own and the placeholder |
| Profiles.RunKeepsInv | internal/backend/omada/omada.go:301-429 | in every reachable state each call under way is right about its own key |
| Ppsk.KeyNames | internal/tenant/wifikeys.go:127-130 | key names of different tenants or keys differ, fit the controller, and are never the placeholder |
| Ppsk.Controller.EnsureKey | internal/backend/omada/omada.go:301-364 | the calls as they run refine the protocol, with its guarantees at every failure |
| Ppsk.Controller.FinishEnsure | internal/backend/omada/omada.go:348-363 | the add, the second read and the sweep are the protocol's tail |
| Ppsk.Controller.RemoveKey | internal/backend/omada/omada.go:368-395 | likewise for a removal |
| Ppsk.Controller.WithdrawKey | internal/backend/omada/omada.go:340-345 | guard and delete refine the protocol's withdrawal |
| Ppsk.Controller.FindEntry | internal/backend/omada/omada.go:327-347 | the first entry of the name, if there is one |
| Ppsk.Controller.GuardMinimum | internal/backend/omada/omada.go:406-429 | a placeholder is added exactly when the profile has neither one nor any other key |
| Ppsk.Controller.HasPlaceholder | internal/backend/omada/omada.go:431-438 | whether an entry has the placeholder's name |
| Ppsk.Controller.FindVlan | internal/backend/omada/omada.go:443-450 | the VLAN of the first entry of the name with a valid one, else 1 |
| Ppsk.Controller.AddPsk | internal/backend/omada/omada.go:469-473 | no name is doubled and no other entry moves, whatever becomes of the call; success puts the entry in |
| Ppsk.Controller.DeletePsk | internal/backend/omada/omada.go:475-479 | no other entry moves and a profile that held the name is not emptied, whatever becomes of the call; success leaves nothing under the name |
| Transit.OpenIsView | internal/openbao/openbao.go:183-195 | an opened value is the one the stored value stands for, whichever key it took and whatever failed |
| Transit.ResealIsFaithful | internal/openbao/openbao.go:217-237 | a reseal never changes what a value says; changed means sealed under the current key, unchanged means empty or already so |
| Transit.SteadyResealRefusesExactlyWhen | internal/openbao/openbao.go:217-237 | with the server in one state throughout, a reseal refuses a value if and only if the server answers and neither key opens it |
| Transit.OpenRefusesOpenableExactlyWhen | internal/openbao/openbao.go:183-195 | for all answers, open refuses a value that a key opens if and only if the current key would open it but is refused for another reason and the second attempt does not help, or the previous key would and that attempt gets no answer |
| Transit.SteadyOpenRefusesExactlyWhen | internal/openbao/openbao.go:183-195 | with one state throughout an open, a refusal means the server refuses everything or neither key opens the value |
| Transit.LostIsNeverResealed | internal/openbao/openbao.go:217-237 | a value neither key opens is never resealed, whatever the answers |
| Transit.RewritesCurrentExactlyWhen | internal/openbao/openbao.go:217-237 | a value already under the current key is sealed again if and only if the probe is refused for another reason and the later calls are answered |
| Transit.OutageReadsAsRefusal | internal/openbao/openbao.go:187-194 | an outage between the two attempts returns the refusal of the first |
| Transit.SealedValue | internal/openbao/openbao.go:160-171 | a sealed value opens under the current key to what was sealed |
| Transit.OpenServed | internal/openbao/openbao.go:183-211 | answered, open gives plain text as it is, a ciphertext under the current key, else under the previous one, else a refusal |
| Transit.ResealServed | internal/openbao/openbao.go:217-237 | answered, a reseal leaves an empty or current value and puts any other that opens under the current key, saying the same |
| Sealed.ResealedNeedsNoPreviousKey | internal/store/reseal.go:28-38 | after a clean reseal every sealed field of every tenant says without the previous key what it says with it |
| Sealed.PairReplacedExactlyWhen | internal/store/store.go:102-156 | a log step replaces a token pair that works if and only if the site has a log store and the answers kept back one of the two; it then blanks exactly the other secrets the read was refused |
| Sealed.PasswordReplacedExactlyWhen | internal/tenant/dashboards.go:31-42 | a dashboard step replaces a password that works if and only if the site has dashboards, a read token was read and the answers kept the password back |
| Sealed.OutageMintsOver | internal/store/store.go:110-112 | the case: OpenBao goes down between the two attempts at one token, the read succeeds, and a pair that works is replaced |
| Sealed.SteadyReadIsExact | internal/store/store.go:110-112 | with OpenBao in one state during each open, a read that succeeds finds exactly what is stored |
| Sealed.OpenAll | internal/store/store.go:113-141 | fails if and only if OpenBao is down for one of the fields, reads a refused value as empty and every other as it is, and reports the tenant's own two |
| Sealed.SealedSaysTheSame | internal/store/store.go:78-100 | what is stored says what was given |
| Sealed.OpenOneExactly | internal/store/store.go:146-156 | one value: an outage is an error, a refusal reads empty, anything else reads as stored |
| Reseal.Database.ResealAll | internal/store/reseal.go:44-110 | under every interleaving with writers, updates failing before or after they take effect: every column says what it would without the reseal, what no key opens is byte for byte untouched, a value a writer sealed under the current key is kept; an error-free run with nothing failed leaves every tenant secret, Wi-Fi key and admission key empty or under the current key; with the server steady a column is reported only if it held a value neither key opens |
| Reseal.Database.ResealColumn | internal/store/reseal.go:47-107 | the same, column by column |
| Reseal.Database.ResealRow | internal/store/reseal.go:83-106 | one value is resealed, found good, reported, or overtaken by a writer, is accounted for in each case, and adds one to exactly one count |
| Reseal.Database.Query | internal/store/reseal.go:56-81 | after the read every value of the column is good or among the rows, and every row is as it stands |
| Reseal.Database.SwapIn | internal/store/reseal.go:96-105 | a landing update keeps what every column says, what is newer, and what is still to do |
| Reseal.LostIsOld | internal/store/reseal.go:23-26 | a value neither key opens, at any point of the run, has stood since the start |
| Reseal.Database.Others | internal/store/reseal.go:40-44 | other requests' writes keep all the run relies on |
| Reseal.Database.Interfere | internal/store/store.go:323-334 | writes land in order |
| Reseal.WritesAreGood | internal/store/store.go:78-111 | a request's writes leave each cell unchanged, empty or under the current key |
| Reseal.WritesKeepInvisible | internal/store/reseal.go:40-44 | writers do the same to the database with and without the reseal |
| Reseal.WritesKeepNewest | internal/store/reseal.go:40-44 | and keep newer values the writers' own |
| Reseal.SwapIsInvisible | internal/store/reseal.go:96-105 | a conditional update that lands replaces a value by one that says the same and never a newer one |
| Reseal.RowDone | internal/store/reseal.go:83-106 | a conditional update leaves nothing of the row to do, whether or not it found the value it read |
| Reseal.SecretIsListed | internal/store/reseal.go:28-38 | the list names exactly the columns that are sealed: a tenant's five, the Wi-Fi keys' and the admission keys' |
| Reseal.WritesExactly | internal/store/store.go:323-334 | each write does what it says to its own cell and nothing to any other |
| Orphans.NothingIsOrphaned | internal/tenant/service.go:349-463 | at every point of every interleaving, calls failing before or after taking effect, every account, key, reservation and log user in a backend has a registry row of a tenant that exists |
| Orphans.RunKeepsInv | internal/tenant/wifikeys.go:117-139 | row first on create and backend first on delete keep the invariant in every reachable state |
| Orphans.IssueStepsAreThere | internal/tenant/brokeraccounts.go:110-138 | every step of issuing and revoking is in the machine whenever the code would take it, with what the code leaves |
| Orphans.TenantStepsAreThere | internal/tenant/service.go:349-463 | likewise every step of a tenant's ensure and delete |
| Orphans.StepIsOwn | internal/tenant/brokeraccounts.go:110-138 | no step of one tenant's touches another tenant's rows, backends or operation |
| Orphans.OwnPartKept | internal/tenant/addresses.go:91-145 | each step keeps the tenant's own part, the withdrawn row of a DHCP conflict included |
| Orphans.DeletingOnlyShrinks | internal/tenant/service.go:349-463 | no step of anyone's adds to what a tenant being deleted has anywhere |
| Orphans.ShrinksThroughout | internal/tenant/service.go:349-463 | so over every stretch of deleting it only shrinks |
| Orphans.DeletedLeavesNothing | internal/tenant/service.go:456-462 | when the row goes no backend holds anything of the tenant's |
| Orphans.Service.Delete | internal/tenant/service.go:349-463 | a missing tenant and one with workloads are refused with nothing changed; otherwise it stops at the first failure with the rows there and the tenant deleting; the row is gone only if every backend is empty of the tenant; no other tenant's is touched |
| Orphans.Service.ListAll | internal/tenant/service.go:385-403 | everything the tenant has a row for, and nothing of another's |
| Orphans.Service.Remove | internal/tenant/wifikeys.go:212-223 | one backend removal, reported or not, orphans nothing |
| Secrets.EnsureAgrees | internal/tenant/service.go:740-798 | a successful ensure leaves the log store with the registry's pair, the data sources with that read token, the login with the registry's password, and status ready |
| Secrets.EnsureSends | internal/tenant/service.go:740-798 | field by field: the log store has the index, the ingest and the read token, the login the password and the read token, and the organisation is recorded |
| Secrets.EnsureMintsExactly | internal/tenant/logtokens.go:29-40 | a whole pair when either token is missing, a password when it is, and no other secret ever changes |
| Secrets.EnsureSucceedsWhen | internal/tenant/dashboards.go:21-30 | with nothing failing it succeeds if and only if the dashboards, if any, have a read token to use |
| Secrets.FailureIsRecorded | internal/tenant/service.go:787-792 | a failure is recorded as provisioning |
| Secrets.EnsureKeepsOwn | internal/tenant/service.go:740-798 | whatever becomes of it, the index and the tenant's own secrets stay |
| Secrets.EnsureAgreesExactlyWhen | internal/tenant/service.go:800-807 | a successful ensure agrees if and only if the read between the steps worked or there was nothing new to read |
| Secrets.StaleReadDisagrees | internal/tenant/service.go:800-807 | half a stored pair and a failed read end in success without agreement |
| Secrets.SecondEnsureMintsNothing | internal/tenant/logtokens.go:25-47 | once all agree another ensure, failing anywhere, changes no secret and keeps the agreement |
| Secrets.EnsureOnlyAdds | internal/tenant/dashboards.go:21-56 | an ensure broken off anywhere keeps a stored pair and a stored password |
| Secrets.ReconcilesKeepSecrets | internal/tenant/service.go:306-326 | so does any number of them |
| Secrets.CreateReturnsWorkingSecrets | internal/tenant/service.go:229-266 | a new tenant is handed exactly the pair the backends hold, and exactly their password if and only if there are no dashboards or the record could be read back |
| Secrets.UnreadPasswordIsMissing | internal/tenant/service.go:263-265 | the case: everything succeeds but the last read, and the response has no password though the login has one |
| Secrets.ReconcileReturnsWorkingSecrets | internal/tenant/service.go:306-326 | a reconcile that reads its record back, or mints nothing, returns exactly what the backends hold |
| Secrets.ReconcileReturnsExactlyWhen | internal/tenant/service.go:306-326 | a successful reconcile returns what the registry then holds if and only if its last read worked or there was nothing to mint |
| Secrets.RestoreRotates | internal/tenant/service.go:272-302 | the case: a restore over a row and backends that agreed replaces the pair everywhere and answers without it |
| Secrets.RestoreAgreesExactlyWhen | internal/tenant/service.go:272-302 | for every site and plan, a restore or resume that succeeds agrees everywhere if and only if the dashboard step saw the tokens, and with secrets supplied it always does |
| Secrets.RestoreRotatesExactlyWhen | internal/tenant/service.go:272-302 | the row ends with a new pair if and only if the site has a log store and secrets were supplied or the stored pair was incomplete; otherwise with the stored one, or with none where secrets were supplied |
| Secrets.RestoreReturnsExactlyWhen | internal/tenant/service.go:272-302 | the response holds the registry's pair if and only if the site has no log store and no pair was carried over, and the registry's password if and only if the last read worked or none was minted |
| Secrets.RestorePutsExactly | internal/tenant/service.go:183-194 | supplied secrets go where they belong, a resume keeps them and takes the new token's hash; a ready tenant without secrets and a deleting one are refused untouched |
| Secrets.CreatePutsExactly | internal/tenant/service.go:229-266 | a create stores what was supplied, the new pair and the index it was given, and returns the pair |
| Secrets.ReconcileRefusesExactlyWhen | internal/tenant/service.go:311-315 | a deleting tenant is left alone and any other is ensured |
| Secrets.Service.LogStep | internal/tenant/logtokens.go:25-47 | wherever it breaks off the log store is as it was or holds the registry's pair; success means it does and the pair is complete; a complete pair is not touched |
| Secrets.Service.DashboardStep | internal/tenant/dashboards.go:21-56 | wherever it breaks off the login is as it was or holds the registry's password and read token; success means it does; the pair and a stored password are not touched |
| Secrets.Service.EnsureSteps | internal/tenant/service.go:740-798 | success with the tokens seen leaves everything agreeing and ready, a stored pair survives every failure, and the record handed back is the one read back or the one handed in |
| BrokerAccounts.CredentialHolds | internal/tenant/brokeraccounts.go:62-138 | after any creates without a supplied password and any deletes, failing anyhow: a broker that holds the account holds the registry's hash, at most one password was returned, and it verifies |
| BrokerAccounts.HashNeverChanges | internal/tenant/brokeraccounts.go:172-192 | from first row to deletion the registry's hash is one and the same |
| BrokerAccounts.SuccessAgrees | internal/tenant/brokeraccounts.go:110-138 | success leaves the broker with exactly the registry's hash and the patterns asked for |
| BrokerAccounts.CreateExactly | internal/tenant/brokeraccounts.go:101-138 | reply, row, broker and returned password for every outcome of the three writes |
| BrokerAccounts.DeleteExactly | internal/tenant/brokeraccounts.go:221-234 | reply, row and broker for every outcome of the two |
| BrokerAccounts.RestoreTakesThePassword | internal/tenant/brokeraccounts.go:172-192 | a supplied password verifies against the stored hash |
| BrokerAccounts.PasswordReturnedExactlyWhen | internal/tenant/brokeraccounts.go:110-138 | a new account's password reaches the tenant if and only if the registry write was reported |
| BrokerAccounts.LostPasswordStaysLost | internal/tenant/brokeraccounts.go:172-192 | after a row stored behind a reported failure no further create returns a password or changes the hash |
| BrokerAccounts.Service.CreateBrokerAccount | internal/tenant/brokeraccounts.go:101-138 | at every failure the credential stays sound and a stored hash stays; a returned password verifies; success leaves the broker with the registry's hash and patterns |
| BrokerAccounts.Service.PutAccount | internal/tenant/brokeraccounts.go:101-138 | whatever the broker is newly given is the row's hash, and a supplied password verifies against the row |
| BrokerAccounts.Service.DeleteBrokerAccount | internal/tenant/brokeraccounts.go:221-234 | at every failure an account the broker still honours has its row, the hash is unchanged while the row stands, and success leaves neither |
| PowerDns.NoInheritedRecords | internal/backend/powerdns/powerdns.go:118-242 | at every point of every run of broken-off ensures and dynamic updates, a zone whose policy names one key holds no record beyond the apex SOA and NS written under another |
| PowerDns.RunKeepsClean | internal/backend/powerdns/powerdns.go:118-242 | every record in a zone was written under a key the zone still allows, or under none |
| PowerDns.StepsAreThere | internal/backend/powerdns/powerdns.go:118-144 | the runs hold every ensure, every update under an allowed key, and a removal |
| PowerDns.EnsureExistingHandsOver | internal/backend/powerdns/powerdns.go:118-144 | at every crash point the zone stays clean, a zone bound to the tenant or to no one keeps every record, and success leaves it bound to the tenant alone with the substrate's apex NS |
| PowerDns.HandOver | internal/backend/powerdns/powerdns.go:199-242 | purge before binding keeps the zone clean at each step, and the apex sets as they were |
| PowerDns.PurgeKeepsClean | internal/backend/powerdns/powerdns.go:199-218 | a completed purge leaves only the tenant's own or unsigned records, and does nothing to a zone not handed over |
| PowerDns.BindKeepsClean | internal/backend/powerdns/powerdns.go:232-242 | binding a purged zone keeps it clean |
| PowerDns.ApexKeepsClean | internal/backend/powerdns/powerdns.go:150-191 | the apex step touches nothing but the apex SOA and NS |
| PowerDns.ApexDone | internal/backend/powerdns/powerdns.go:150-191 | success leaves the NS set exactly the substrate's and no SOA with a primary left to correct |
| PowerDns.ApexSoaExactly | internal/backend/powerdns/powerdns.go:150-191 | success leaves an apex SOA of one record and seven fields with the substrate's primary; where that is new, the serial is one on and every other field, and a TTL that was set, is as it was; any other SOA is untouched |
| PowerDns.ApexNsExactly | internal/backend/powerdns/powerdns.go:174-186 | success leaves the substrate's name alone in the apex NS, under the TTL that was set or 3600 |
| PowerDns.UnreadableSerial | internal/backend/powerdns/powerdns.go:165-168 | a serial that is not a decimal number within 32 bits is an error and nothing is written |
| PowerDns.HandOverExactly | internal/backend/powerdns/powerdns.go:199-242 | a zone bound to this key alone or to none keeps every record but the apex SOA and NS; one bound otherwise ends with those two alone; success binds it to the key |
| PowerDns.CreatedExactly | internal/backend/powerdns/powerdns.go:118-144 | a zone that was not there is made with the two apex sets alone, bound to the tenant |
| PowerDns.SerialAdvances | internal/backend/powerdns/powerdns.go:165-173 | a corrected SOA's serial reads back as the old one plus one, and its other fields are unchanged |
| PowerDns.Server.BuildApexChanges | internal/backend/powerdns/powerdns.go:150-191 | whatever order the record sets come in, the change list is the SOA correction and the NS replacement, and an unreadable serial is an error |
| PowerDns.Server.BuildDeletes | internal/backend/powerdns/powerdns.go:207-213 | the delete list is everything but the apex SOA and NS |
| PowerDns.Server.EnsureApexCall | internal/backend/powerdns/powerdns.go:150-191 | the call refines the step |
| PowerDns.Server.PurgeCall | internal/backend/powerdns/powerdns.go:199-218 | the call refines the step |
| PowerDns.Server.EnsureZoneCalls | internal/backend/powerdns/powerdns.go:118-144 | the calls in order refine the whole, creation included |
| Sorting.SameMembers | internal/backend/powerdns/powerdns.go:244-252 | clone, sort and compare is exactly multiset equality |
| Sorting.SortedEqualIffSameMembers | internal/tenant/certificates.go:387-392 | for any total order, sorted copies are equal if and only if the lists are permutations of each other |
| Kea.EnsureKeepsOrder | internal/backend/opnsense/kea.go:86-133 | whatever fails, distinct addresses, case-insensitively distinct MACs and single descriptions on every subnet are kept, and every row with another description is untouched and in its place |
| Kea.DescriptionsStaySingle | internal/backend/opnsense/kea.go:86-159 | neither call doubles any description |
| Kea.EnsureConverges | internal/backend/opnsense/kea.go:86-133 | success leaves the reservation in the table exactly once, and a repeated ensure changes nothing |
| Kea.ConflictExactlyWhen | internal/backend/opnsense/kea.go:96-113 | a conflict if and only if another row on the subnet has the address or the MAC, and then nothing is written |
| Kea.EnsuredRow | internal/backend/opnsense/kea.go:114-133 | success leaves a row with the description, the address, the hostname and the MAC |
| Kea.EnsureGoesThrough | internal/backend/opnsense/kea.go:118-133 | with nothing in the way and nothing failing it succeeds and the server runs the table |
| Kea.EqualFoldExactly | internal/backend/opnsense/kea.go:110-114 | two MACs are one if and only if they agree letter by letter up to case |
| Kea.RemoveGoesThrough | internal/backend/opnsense/kea.go:136-159 | with nothing failing a removal succeeds and leaves exactly the rows of other descriptions |
| Kea.EnsureAppliesExactlyWhen | internal/backend/opnsense/kea.go:114-133 | after success the server runs the table if and only if it did before or this call had something to write |
| Kea.RetryDoesNotReconfigure | internal/backend/opnsense/kea.go:114-133 | a failed reconfigure followed by a retry ends in success with the server still on the old table |
| Kea.RemoveKeepsOrder | internal/backend/opnsense/kea.go:136-159 | wherever a removal breaks off, order on every subnet and every row with another description are kept; success leaves exactly those rows, and the server runs the table if and only if it did before or there was a row to delete |
| Kea.DescriptionsDiffer | internal/tenant/addresses.go:304-306 | descriptions of different devices differ, and none is inventory's |
| Reservations.ReadyIsReserved | internal/tenant/addresses.go:114-145 | over every stretch of every run, inventory writing its own rows and the router rebuilt at will: an address not stranded at the start is, if ready, in the DHCP table exactly once with the registry's address and MAC, unless one of the four stranding steps happened to it in between |
| Reservations.StepStrandsExactlyWhen | internal/tenant/addresses.go:114-145 | from an address ready and reserved, a step leaves it ready and unreserved if and only if it is a swap whose mark was lost, a deletion that took the row and did not finish, a step of the tenant's deletion that took the row, or the loss of the table |
| Reservations.StrandedExactlyWhen | internal/tenant/addresses.go:289-299 | at every point of every run a ready address is stranded if and only if the table has no row under the device's description and MAC |
| Reservations.TableIsTruthful | internal/backend/opnsense/kea.go:86-159 | at every point of every run every row of the API's is of a device that holds an address, is single, and carries that address and the device's hostname |
| Reservations.SwapStrandsExactlyWhen | internal/tenant/devices.go:113-134 | a swap strands an address that was in order if and only if the device row was written and the address row was not marked |
| Reservations.RetryNeverMoves | internal/tenant/devices.go:93-94 | once a swap's device row was written, asking again answers success, changes nothing and does not reach the DHCP server |
| Reservations.LostMarkStrands | internal/tenant/devices.go:126-134 | the case: a MAC is changed, the status write is lost, the retry reports success, and the table still reserves the address for the old MAC |
| Reservations.DeleteStrandsExactlyWhen | internal/tenant/addresses.go:243-251 | a deletion strands an address that was in order if and only if the table was read, the delete was not lost, and the delete's answer, the reconfigure, DNS or the row's delete failed |
| Reservations.ReleaseExactly | internal/backend/opnsense/kea.go:136-159 | a removal takes a reserved device's row if and only if the table was read and the delete was not lost, and reports success if and only if nothing failed |
| Reservations.CreateReserves | internal/tenant/addresses.go:39-108 | a successful create leaves exactly one row of the device's with the registry's address and MAC; no outcome strands the device or moves anyone else |
| Reservations.ConflictIsAnswered | internal/tenant/addresses.go:116-128 | a conflict on the server is the answer, changes no table, and takes back a new row and no other |
| Reservations.FailureIsAnswered | internal/tenant/addresses.go:129-130 | any other failure leaves the registry as it was |
| Reservations.SwapReserves | internal/tenant/devices.go:86-134 | a successful swap leaves the address ready and reserved for the new MAC |
| Reservations.DeleteReleases | internal/tenant/addresses.go:223-252 | the row goes only when no row of the device's is left in the table, and no other device's row or registration moves |
| Reservations.EnsureEachRestores | internal/tenant/addresses.go:269-287 | one ensureAddresses that succeeds leaves every address of its list reserved exactly once with the registry's address and MAC, from any table that doubles no description of the API's |
| Reservations.RebuiltIsRestored | internal/tenant/addresses.go:266-287 | with none of the list in the table and nobody else's row in the way, an unhindered ensureAddresses succeeds |
| Reservations.OwnRowsDoNotBlock | internal/backend/opnsense/kea.go:96-113 | two holders' own rows never block each other |
| Reservations.RunKeepsBoth | internal/tenant/addresses.go:39-252 | the allocation invariant and the table's truthfulness hold in every reachable state |
| Reservations.Router.EnsureAddresses | internal/tenant/addresses.go:269-287 | the loop stops at the first failure and restores its whole list when it succeeds |
| Kea.Server.EnsureReservation | internal/backend/opnsense/kea.go:86-133 | the scan and the write refine the step |
| Kea.Server.RemoveReservation | internal/backend/opnsense/kea.go:136-159 | the scan, a delete for every row found and the one reconfigure refine the step, for any number of rows under the description |
| Kea.CutTakesAll | internal/backend/opnsense/kea.go:142-154 | deletes that all go through leave exactly the rows with other descriptions |
| Kea.CutSparesOthers | internal/backend/opnsense/kea.go:142-154 | deletes broken off anywhere leave every row with another description, in order |
| Kea.CutKeepsPairs | internal/backend/opnsense/kea.go:142-154 | whatever holds between any two rows still does between any two that are left |
| Kea.CutOfSingle | internal/backend/opnsense/kea.go:142-154 | a row that is the only one of its description stays if and only if its delete was lost |
| Kea.Server.DeleteRows | internal/backend/opnsense/kea.go:141-154 | the scan leaves what the deletes leave, and reports success exactly when all went through |
| Kea.Server.DeleteRow | internal/backend/opnsense/kea.go:147-152 | the row with the uuid goes, the others keep their order |
| LogRoutes.IngestReaches | cmd/deevnet-log-user/main.go:235-301 | for every request, an ingest token reaches (index, 0) by insert and nothing otherwise |
| LogRoutes.ReadReaches | cmd/deevnet-log-user/main.go:235-301 | for every request, a read token reaches by select the partition of its tenant's that the header X-Deevnet-Partition spells, else project 0, and nothing otherwise |
| LogRoutes.BridgeReaches | cmd/deevnet-log-user/main.go:280-298 | the bridge reaches by insert (index, 2) of the tenant the header X-Deevnet-Tenant names, and nothing for any other name or path |
| LogRoutes.OperatorReaches | cmd/deevnet-log-user/main.go:250-259 | the operator reads the partition the header X-Deevnet-Partition spells if a tenant has it, and (0, 0) otherwise |
| LogRoutes.OperatorWritesNothing | cmd/deevnet-log-user/main.go:250-259 | and reaches nothing by any other path |
| LogRoutes.PartitionsDiffer | cmd/deevnet-log-user/main.go:320-322 | the text of a partition is account, dash, project, and determines both |
| LogRoutes.PartitionHeader | cmd/deevnet-log-user/main.go:320-322 | a partition entry answers to its own header line and no other |
| LogRoutes.TenantHeader | cmd/deevnet-log-user/main.go:324-326 | a tenant entry answers to its own header line and no other |
| LogRoutes.HeaderLine | cmd/deevnet-log-user/main.go:342-350 | a selector line selects exactly the requests whose header of that name has that value |
| LogRoutes.RenderableExactly | internal/logauth/contract.go:146-196 | renders if and only if there is a backend, base tokens have 32 to 127 characters of the set, and each tenant file a name, an index of 1 to 63 and two different tokens of 32 to 128 |
| LogRoutes.UsersNamed | cmd/deevnet-log-user/main.go:259-296 | the users' names |
| LogRoutes.Render | cmd/deevnet-log-user/main.go:235-301 | renders exactly when base and every tenant file are valid, and then the users the routing theorems are about |
| LogRoutes.WithSelectorsFirst | cmd/deevnet-log-user/main.go:330-340 | a stable partition, the catch-all last |
| LogRoutes.CatchAllLast | cmd/deevnet-log-user/main.go:330-340 | entries appended behind their catch-all come out in order in front of it |
| LogRoutes.OperatorEntry | cmd/deevnet-log-user/main.go:250-259 | the operator's user with every tenant's three selectors before its catch-all |
| LogRoutes.AppendOperatorRoutes | cmd/deevnet-log-user/main.go:252-257 | the catch-all and then each tenant's selectors in order |
| LogRoutes.AppendPartitions | cmd/deevnet-log-user/main.go:271-273 | the three partitions of one index, in order |
| LogRoutes.TenantEntries | cmd/deevnet-log-user/main.go:265-274 | one ingest and one read user |
| LogRoutes.BridgeEntry | cmd/deevnet-log-user/main.go:280-298 | one entry per tenant, and no user when there is no tenant |
| Certificates.NamesAreDistinct | internal/tenant/certificates.go:249-260 | no name is in a certificate twice |
| Certificates.TenantsShareNoName | internal/tenant/certificates.go:249-260 | certificates of different tenants share no name |
| Certificates.NoReservedHost | internal/tenant/site.go:57-69 | no name is a host directly under a reserved label |
| Certificates.NamesAreComplete | internal/tenant/certificates.go:249-260 | every label is named without a site and at every site, the certificate's own label first |
| Certificates.NamesExactly | internal/tenant/certificates.go:249-260 | the names are exactly label.tenant.root and label.tenant.site.root for each label and site |
| Certificates.NameInjective | internal/tenant/site.go:314-322 | dot-free parts are read back from the name |
| Certificates.CertificateLabels | internal/tenant/certificates.go:264-292 | accepts exactly one to eight distinct usable labels, the certificate's own first |
| Certificates.CertificateSites | internal/tenant/certificates.go:228-244 | this site when none is asked for; else exactly distinct allowed sites, in order |
| Certificates.LabelNames | internal/tenant/certificates.go:249-260 | one pass over the labels names each once, in order |
| Certificates.CertificateNames | internal/tenant/certificates.go:249-260 | the loops build exactly the names the theorems are about |
| Certificates.SameNames | internal/tenant/certificates.go:387-392 | true if and only if the two lists are the same multiset |

## Left out

- The HTTP server, its views and its status mapping, which are thin wrappers over the service.
- Transports, token caches, timeouts and task polling: only the state a call reads and writes is kept.
- Cipher, hash, HMAC and X.509 internals, certificate request parsing, and the certificate reuse rule and limit per tenant.
- SQL text and migrations; the advisory lock is mutual exclusion and each transaction one step.
- Configuration wiring, the first-boot kit, and the Grafana, MinIO and virtual machine code, which are sequences of calls to systems not shown; which backends a site has does not change during a run.
- Sites without a network, wireless or reservation backend, and the refusals that answers.
- Adoption of admission keys, which is best effort by design.
- Uniqueness of VNet IDs, which the code does not give: `Lifecycle` lets two tenants share one.
- Overlap of two trust classes' ranges, and operations of one tenant running at the same time; in `Profiles` one call per key name.
- Devices.Book: the DHCP server's own table is not part of this class; its answers are parameters here, and `Reservations` puts the two together.
- Devices.Book.DeleteDeviceAddress: one flag stands for the reservation and the DNS records here; `Reservations.DeleteStrandsExactlyWhen` follows the reservation.
- Devices.Book.PublishRecord: the names DNS itself holds are not followed, so a name published behind a failed row write is not visible.
- Reseal.Database.ResealAll: says which columns have failures and not how many (`ResealRow` says what each value adds); `Transit.RewritesCurrentExactlyWhen` says when a value a writer sealed is sealed again all the same.
- LogRoutes.Render: gives the users and their entries, not the YAML text.
- PowerDns.Server.EnsureZoneCalls: no dynamic update lands inside one ensure, because the code does not guard against one.
- Parsing of MACs and the random generation of keys and tokens.
