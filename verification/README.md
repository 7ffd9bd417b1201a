# AgentVM kernels in Dafny

AgentVM runs coding agents in virtual machines on one host. This project models the four parts of it
that hold state and proves what they promise, alone and together:

- **CPU pinning** (`Text`, `Ordered`, `CpuList`, `Siblings`, `Packages`, `CpuMap`, `Pinning`): the cpu-list
  parser and printer at character level, the hyper-thread sibling map, the reported topology, and the
  NUMA-first choice of cores.
- **Capacity ledger** (`Capacity`, `Overcommit`): admission checks, allocation, release, rebuilding from store
  rows, and when the promises can exceed the host.
- **Interface allocator** (`Bridge`, `Mac`): vnet names, unique MAC addresses, generated MAC texts.
- **Metadata store** (`Values`, `Timestamps`, `Store`, `MetadataStore`, `Coherence`, `RowIds`, `Records`,
  `Cascade`): tables whose rows keep typed columns and a JSON payload, one committed statement at a time.
- **Between the parts**: `Admission` (ledger and pinning), `Reconcile` (store to ledger) and `Restart` (ledger
  and store side by side).

Classes and methods follow the imperative code and are proved against specification functions; the
properties are lemmas about those functions. A run is a sequence of calls from the initial state. In store
runs a call may stop after any number of its commits, as a crash between two commits would make it. The
object of class `MetadataStore` carries its history as ghost state: every method appends its call, and the
tables are always what that run leaves, so what is proved of all runs holds of every object.

Conventions of the model:

- sysfs is a value: the sorted cpu ids and the stripped texts of the sibling, node, core id, package id and
  KVM parameter files that can be read. Host totals and configuration are a value too, fixed over a run.
- The clock and the MAC factory are inputs: a time text for each call, a list of future factory outputs.
- `int()` accepts the six C blanks around the number, a sign, and single underscores between ASCII digits;
  `strip()` removes the separators U+001C to U+001F as well.
- A query result is the set of selected rows, each with its decoded view.

## Findings

- Parsing a printed list gives the sorted list back exactly when no core is negative (`CpuList.RoundTrip`).
- `check_spec` subtracts the reserved cores from the processors of /proc/cpuinfo, while `allocate_cores` also
  blocks their siblings and counts the cpu directories. On a host whose nodes list only cores of
  0..total_cores-1 and that takes a VM, admission implies pinnability exactly under
  `Admission.ReservationCovers` (`Admission.PinnableIffCovered`). Reserving whole sibling pairs is enough when
  the directories are no fewer than the processors; without it three cores can be admitted where two can be
  pinned (`Admission.SiblingClosureNeeded`), and with fewer directories four where there is one
  (`Admission.CountsDiffer`).
- The sibling map is symmetric exactly when, for each pair listed, the last list naming one of the two cores
  also names the other (`Siblings.SymmetricIffSettled`); overlapping lists break it. A core whose recorded
  sibling is reserved can be handed out exactly when some core in reach is not its sibling's sibling
  (`Pinning.SparedIffSymmetric`).
- The fallback takes cores from `range(total_cores)`, so with a gap in the cpu ids it can hand out a core
  that does not exist (`Pinning.SparseCpuIds`). No call does so exactly when the cpu ids cover that range and
  every node list (`Pinning.ExistingIffCovered`).
- A checked ledger of non-negative requests never overcommits. An allocation made later than its check is safe
  exactly when the check would pass again (`Overcommit.AllocationSafeIffChecked`,
  `Overcommit.StaleCheckSafeIff`); two checks before two allocations can overcommit
  (`Overcommit.CheckCheckAllocateAllocate`). If requests may go down to some non-positive floor, checked callers
  can overcommit in some run exactly when the host takes two VMs and, for some resource, the credit of all VMs
  but one exceeds what the budget lacks, or any credit at all where it lacks nothing (`Overcommit.FloorDecides`).
- In the decoded view of a session `updated_at` shows what an update supplied last, or else what it showed
  before, never the time of the update itself (`Coherence.UpdatedAtFrozen`). A retired rule shows its
  retirement only if its payload never mentioned `removed_at`, or already gave that very time
  (`Records.RetiredRuleView`), and the active list is the one the views suggest unless a rule was retired over an explicit null (`Records.RulesFilterViews`).
- Columns that no UPDATE writes (a row's id and created_at, a proxy's session_id) agree with the decoded view
  throughout a run exactly when no update rewrote the key (`Coherence.RunKeepsAspect`); all other filtered
  columns agree in every run (`Coherence.RunWritten`).
- Reconciliation files an active VM under the id its view shows, and drops a VM whose record holds a bool or
  null resource although the store accepted it (`Reconcile.BoolResourceDropped`). If no update rewrote a VM's
  id the ledger is right exactly when no counted VM holds such a resource; an update that rewrites it makes
  every reconciliation lose the VM (`Reconcile.RewrittenIdLost`). Callers that keep records active and numeric
  and go through the ledger lose nothing in a restart but a VM without id (`Restart.RestartLosesNothing`).
- A crash inside `delete_session` followed by a retry can leave resource allocations behind, exactly when
  the first attempt had removed the VM rows and not yet an allocation of one of them
  (`Cascade.CrashThenRetry`).
- docs/designs/METADATA-STORE-LLD.md (lines 79-85) deletes allocations through the VM rows after deleting
  those rows; the code reads the VM ids first. The model follows the code. The same document announces a
  ConflictError for duplicate keys; the code lets SQLite's IntegrityError through.

## Model

| member | source | states |
|---|---|---|
| `CpuList.ParseCpuList` | src/agentvm/host/cpu_map.py:247-262 | the segment loop returns the parsed list or the error of the specification |
| `Text.SeparatorsOnlyStripped` | src/agentvm/host/cpu_map.py:250-254 | strip() removes a separator control before a number, int() refuses it, so a segment may be padded with one |
| `Text.BlankCodes` | src/agentvm/host/cpu_map.py:250 | which code points strip() and int() take for blanks |
| `Text.StripBlank` | src/agentvm/net/bridge.py:76-77 | strip() leaves nothing exactly of texts made of blanks |
| `Text.LowerLetters` | src/agentvm/net/bridge.py:123 | lower() maps A-Z to a-z letter by letter and keeps every other character |
| `Text.DecimalText` | src/agentvm/host/cpu_map.py:279-283 | str() of an integer is its decimal digits, most significant first, after a minus sign if negative |
| `Text.LiteralsOnly` | src/agentvm/host/cpu_map.py:254-258 | int() reads digits with single underscores between them |
| `Text.LiteralValue` | src/agentvm/host/cpu_map.py:254-258 | each further digit counts ten times what came before and itself |
| `Text.SignedValue` | src/agentvm/host/cpu_map.py:254-258 | around a literal int() takes C blanks and one sign, and refuses everything else |
| `CpuList.SegmentForms` | src/agentvm/host/cpu_map.py:249-260 | a blank segment names nothing, a number itself, two numbers around the first dash every core between them, none if reversed; anything else raises |
| `CpuList.CoresOfMeaning` | src/agentvm/host/cpu_map.py:249-260 | a text parses if and only if every segment does; it names exactly the cores some segment names, none negative |
| `CpuList.FormatCpuset` | src/agentvm/host/cpu_map.py:265-284 | the run-collecting loop prints the maximal runs |
| `CpuList.FormattedSingle` | src/agentvm/host/cpu_map.py:278-284 | a single core is printed as its number |
| `CpuList.FormattedRange` | src/agentvm/host/cpu_map.py:278-284 | consecutive cores are printed as first, dash, last |
| `CpuList.FormattedParts` | src/agentvm/host/cpu_map.py:265-284 | two lists with a gap between them are printed one after the other with a comma |
| `CpuList.RoundTrip` | src/agentvm/host/cpu_map.py:247-284 | parsing a printed list gives the ascending list of its members when none is negative, and ValueError otherwise |
| `CpuList.FormattedIdentifiesSet` | src/agentvm/host/cpu_map.py:265-284 | two integer lists, negative numbers included, print alike if and only if they have the same members |
| `CpuList.FormatParseIdempotent` | src/agentvm/host/cpu_map.py:247-284 | printing a parsed text normalises it without changing its cores |
| `CpuList.FormattedCanonical` | src/agentvm/host/cpu_map.py:265-284 | the printed segments are the maximal runs in ascending order, and any list of maximal runs prints the same |
| `CpuList.MaximalRunsUnique` | src/agentvm/host/cpu_map.py:265-284 | a set of cores has one list of maximal runs |
| `CpuList.FormattedMinimal` | src/agentvm/host/cpu_map.py:265-284 | no text for the same cores has fewer non-blank segments; the number is that of cores whose predecessor is missing |
| `Siblings.CollectHyperthreadPairs` | src/agentvm/host/cpu_map.py:222-238 | only a two-element list changes the caller's dictionary; an unreadable file does not; a malformed one raises |
| `Siblings.SymmetricIffSettled` | src/agentvm/host/cpu_map.py:98-109 | the recorded map is an involution if and only if the last list naming one sibling names the other |
| `Siblings.NeverOwnSibling` | src/agentvm/host/cpu_map.py:232-238 | no core is recorded as its own sibling |
| `Siblings.EqualOrDisjointIsSymmetric` | src/agentvm/host/cpu_map.py:98-109 | lists that are pairwise equal or disjoint give an involution |
| `Siblings.OverlapBreaksSymmetry` | src/agentvm/host/cpu_map.py:236-238 | lists 0,2 then 0,3 leave 2 paired with 0 but 0 with 3 |
| `CpuMap.DiscoverNumaCores` | src/agentvm/host/cpu_map.py:203-220 | every node's parsed cores, or ValueError when one cpulist is malformed, in whatever order the nodes are visited |
| `CpuMap.GetTopology` | src/agentvm/host/cpu_map.py:85-127 | the loop over the cpus, the node scan and the KVM files return every field of the topology, or the error of the specification |
| `Pinning.TopologyFromFiles` | src/agentvm/host/cpu_map.py:85-127 | a topology is reported exactly when every sibling and node file parses, else ValueError; an empty listing is cpu 0; the nested flag is whether some KVM file says yes |
| `Pinning.TopologyNodes` | src/agentvm/host/cpu_map.py:111-115 | one node size for each node in increasing order of the ids, or the whole host |
| `Pinning.ReportedPairs` | src/agentvm/host/cpu_map.py:98-109 | both cores of every two-element sibling file are keys; each maps to its companion in the last file naming it, and to each other when no core is in two pairs |
| `Pinning.ReportedFromFile` | src/agentvm/host/cpu_map.py:222-238 | every recorded pair is the list of some cpu's file |
| `Packages.CoresOnMeaning` | src/agentvm/host/cpu_map.py:101-104 | a core is on a package when some cpu's two files say so |
| `Packages.ReadIntMeaning` | src/agentvm/host/cpu_map.py:240-244 | a missing or malformed file counts as the default |
| `Packages.NoCoreFiles` | src/agentvm/host/cpu_map.py:101-116 | without core files every cpu is a core of its own on package 0 |
| `Packages.YesTexts` | src/agentvm/host/cpu_map.py:41-53 | Y, y, 1, true and TRUE mean enabled, N, 0 and nothing do not |
| `Packages.CoresPerSocketMeaning` | src/agentvm/host/cpu_map.py:94-118 | cores_per_socket is the number of distinct core ids of some package, no package has more, and it lies between 1 and the number of cpus |
| `Packages.DetectNested` | src/agentvm/host/cpu_map.py:41-53 | true exactly when some readable parameter file says y, 1 or true in any capitalisation |
| `Pinning.TopologyMeaning` | src/agentvm/host/cpu_map.py:94-127 | reported for readable hosts only; total, pairs and node count as stated, and node sizes add up to total_cores when there are no node files or the nodes partition the cores |
| `CpuMap.CollectBlocked` | src/agentvm/host/cpu_map.py:155-159 | reserved cores, taken cores and recorded siblings of reserved cores |
| `CpuMap.SelectCores` | src/agentvm/host/cpu_map.py:161-176 | node loop with early return, then the cross-node fallback |
| `CpuMap.AllocateCores` | src/agentvm/host/cpu_map.py:129-176 | the whole call equals the specification whose outcome the Pinning lemmas state |
| `Pinning.AllocationExact` | src/agentvm/host/cpu_map.py:151-176 | when a call succeeds; then it returns the lowest unblocked cores of the smallest-numbered node with enough, or of 0..total_cores-1 labelled node 0; otherwise ValueError |
| `Pinning.AllocationMonotone` | src/agentvm/host/cpu_map.py:151-176 | a success stays one when fewer cores are reserved, taken or asked for |
| `Pinning.AllocationAvoidsReserved` | src/agentvm/host/cpu_map.py:154-176 | exactly count cores, none taken, reserved, or recorded as a reserved core's sibling |
| `Pinning.BlockedMeaning` | src/agentvm/host/cpu_map.py:154-159 | kept off are exactly the reserved cores, the taken ones, and recorded siblings of reserved ones |
| `Pinning.PairedHostAvoidsReserved` | src/agentvm/host/cpu_map.py:154-176 | when no core is named in two pairs, no core given out shares any cpu's sibling file with a reserved one |
| `Pinning.SparedIffSymmetric` | src/agentvm/host/cpu_map.py:154-176 | on a readable host no call hands out a core whose recorded sibling is reserved if and only if every core that can be handed out and has a sibling is its sibling's sibling |
| `Pinning.ExistingIffCovered` | src/agentvm/host/cpu_map.py:161-176 | on a readable host every core any call hands out is a cpu id if and only if the cpu ids include 0..total_cores-1 and all cores of the node lists |
| `Pinning.SparseCpuIds` | src/agentvm/host/cpu_map.py:171-176 | an instance: with cpus 0 and 2 only, two cores asked for are 0 and 1 |
| `Pinning.RunIsIsolated` | src/agentvm/host/cpu_map.py:129-176 | after any sequence of allocations and releases held cpusets parse, are pairwise disjoint, and avoid reserved cores and their recorded siblings |
| `Pinning.FreeCoresDecide` | src/agentvm/host/cpu_map.py:154-176 | with nodes inside the host's range, a request succeeds if and only if it asks for 1 to the number of free cores |
| `Pinning.TakeUsesCores` | src/agentvm/host/cpu_map.py:154-176 | a success lowers the number of free cores by exactly count |
| `Pinning.GiveReturnsCores` | src/agentvm/host/cpu_map.py:178-190 | dropping a cpuset on the caller's side makes exactly its cores free again |
| `Pinning.RunConservesCores` | src/agentvm/host/cpu_map.py:129-176 | in every run the usable cores are the disjoint union of the free ones and those in use |
| `Capacity.CapacityManager.GetCapacity` | src/agentvm/host/capacity.py:90-128 | totals minus reservations minus ledger sums, each clamped at 0 |
| `Capacity.CapacityAddsUp` | src/agentvm/host/capacity.py:90-128 | totals are the host's; what is available, allocated and reserved adds up to the total, unless nothing is available because the rest reaches it |
| `Capacity.SumSplit` | src/agentvm/host/capacity.py:101-116 | the ledger sum does not depend on the order of its entries |
| `Capacity.CapacityManager.CheckSpec` | src/agentvm/host/capacity.py:130-173 | sufficient exactly when the request is admissible, with the availabilities and the joined shortfall names |
| `Capacity.ShortfallsMeaning` | src/agentvm/host/capacity.py:149-158 | each resource is named exactly when it does not fit, and none when the request is admissible |
| `Capacity.ShortfallsOrdered` | src/agentvm/host/capacity.py:149-158 | the names come in the order vm_count, cpu, memory, disk, each at most once |
| `Capacity.ShortfallText` | src/agentvm/host/capacity.py:149-165 | when nothing fits the text is "vm_count, cpu, memory, disk" |
| `Capacity.CapacityManager.Allocate` | src/agentvm/host/capacity.py:175-202 | adds a fresh entry; an existing one raises and changes nothing |
| `Capacity.CapacityManager.Release` | src/agentvm/host/capacity.py:204-216 | removes the entry if there is one |
| `Capacity.CapacityManager.ReconcileAllocations` | src/agentvm/host/capacity.py:230-247 | the rebuild loop yields the ledger of the active, identified, numeric rows |
| `Capacity.RowIgnored` | src/agentvm/host/capacity.py:230-291 | a row that is inactive, without id, or short of a number changes nothing wherever it stands |
| `Capacity.RowEntered` | src/agentvm/host/capacity.py:230-291 | every other row, also one without status, enters its numbers under id, or vm_id if there is none, over what was there |
| `Capacity.CallsCommute` | src/agentvm/host/capacity.py:175-216 | calls for different VMs commute |
| `Capacity.ReleaseUndoesAllocate` | src/agentvm/host/capacity.py:90-128 | a fresh allocation and its release restore every capacity figure |
| `Capacity.AdmissionLowersExactly` | src/agentvm/host/capacity.py:90-173 | an admitted allocation of any sign lowers an availability by exactly the request if and only if the request is zero there or the ledger is within the budget; the VM count goes up by one |
| `Capacity.NoOvercommit` | src/agentvm/host/capacity.py:99-216 | starting empty or within bounds, with non-negative requests each checked right before it is allocated, every reachable ledger stays within the host and max_vms |
| `Overcommit.AllocationSafeIffChecked` | src/agentvm/host/capacity.py:130-202 | on a ledger within bounds, a fresh non-negative allocation stays within bounds if and only if check_spec would pass at that moment |
| `Overcommit.StaleCheckSafeIff` | src/agentvm/host/capacity.py:130-202 | when two requests were both checked before either was allocated, allocating both stays within bounds if and only if the second would still pass after the first |
| `Overcommit.CheckCheckAllocateAllocate` | src/agentvm/host/capacity.py:130-202 | an instance: two requests for three of four cpus both pass and together exceed the host |
| `Overcommit.FloorDecides` | src/agentvm/host/capacity.py:99-216 | for every host and non-positive floor: all runs of checked requests no smaller than the floor, with VMs leaving at will, stay within bounds if and only if the host takes fewer than two VMs or, for each resource, max_vms - 1 times the floor is at least the smaller of zero and the budget |
| `Overcommit.FloorOfFittingHost` | src/agentvm/host/capacity.py:99-216 | with reservations that fit the totals and two VMs allowed, all such runs stay within bounds if and only if the floor is zero |
| `Overcommit.CreditOvercommits` | src/agentvm/host/capacity.py:99-216 | runs of one shape, admit, admit a non-negative request, release the first: the bounds hold if and only if the first is refused, the host takes fewer than two VMs, or no component is below both zero and the budget |
| `Overcommit.NegativeOvercommits` | src/agentvm/host/capacity.py:99-216 | runs of that shape on hosts whose reservations fit: the bounds hold if and only if the first request is non-negative |
| `Overcommit.NegativeRequestOvercommits` | src/agentvm/host/capacity.py:99-216 | an instance: -1 cpu, then 5 on a four-cpu host |
| `Admission.AdmittedIsPinnable` | src/agentvm/host/capacity.py:99-173 | with a covering reservation and a ledger that matches the cores in use, whatever check_spec admits can be pinned, also where the processor counts of cpuinfo and sysfs differ |
| `Admission.PinnableIffCovered` | src/agentvm/host/capacity.py:99-102 | on every readable host whose nodes lie in 0..total_cores-1 and that takes a VM, the covering condition is necessary too |
| `Admission.SiblingClosedCovers` | src/agentvm/host/capacity.py:99-102 | reserving siblings together satisfies the condition when sysfs has at least as many cores as cpuinfo has processors |
| `Admission.SiblingClosureNeeded` | src/agentvm/host/cpu_map.py:155-159 | an instance: four cpus in two pairs with one core reserved, three cores admitted, pinning raises |
| `Admission.CountsDiffer` | src/agentvm/host/capacity.py:293-310 | an instance: four processors in cpuinfo and no cpu directory, four cores admitted, pinning raises |
| `Admission.RunAlwaysPins` | src/agentvm/host/capacity.py:130-216 | over every run of launches and stops ledger and cpusets agree VM by VM and the next admitted VM is pinned |
| `Bridge.BridgeManager.AllocateVmInterface` | src/agentvm/net/bridge.py:64-90 | state, unread factory outputs and result are those of the specification, and the invariant is kept |
| `Bridge.BridgeManager.DeallocateVmInterface` | src/agentvm/net/bridge.py:92-110 | removes the session's entry from all three collections, and the invariant is kept |
| `Bridge.ReleaseMeaning` | src/agentvm/net/bridge.py:92-110 | a release removes the session's entry, its name and its MAC and nothing else; an unknown session changes nothing |
| `Bridge.BridgeManager.AllocateVnetName` | src/agentvm/net/bridge.py:112-115 | the name at the counter, which then moves on |
| `Bridge.BridgeManager.AllocateUniqueMac` | src/agentvm/net/bridge.py:117-128 | the bounded retry loop is the search of the specification |
| `Bridge.SearchMeaning` | src/agentvm/net/bridge.py:117-128 | the first output not in use after lower-casing, or failure when all outputs it may draw are in use, and which error then |
| `Bridge.DistinctOutputsSuffice` | src/agentvm/net/bridge.py:117-128 | more distinct outputs than live sessions guarantee success |
| `Bridge.AllocationDecided` | src/agentvm/net/bridge.py:76-90 | when a call succeeds, with at most 1000 draws; a refused one changes nothing but the counter, and raises ValueError for a blank id, else by whether the factory ran out |
| `Bridge.FreshGrant` | src/agentvm/net/bridge.py:83-90 | a fresh grant has the next name, the first unused MAC, and adds one entry |
| `Bridge.AllocationIdempotent` | src/agentvm/net/bridge.py:79-81 | asking again returns the same interface and draws nothing |
| `Bridge.LiveSessionKept` | src/agentvm/net/bridge.py:79-81 | a live session gets the interface it has, nothing is drawn and nothing changes |
| `Bridge.DetachUndoesAttach` | src/agentvm/net/bridge.py:64-110 | releasing a fresh grant undoes all but the counter step |
| `Bridge.RunInvariant` | src/agentvm/net/bridge.py:42-115 | in every run the two sets are the images of the session map, names and MACs have one owner, live indices are below the counter, and no name is granted twice |
| `Bridge.VnetNameInjective` | src/agentvm/net/bridge.py:112-115 | different indices give different names |
| `Bridge.VnetNameReadBack` | src/agentvm/net/bridge.py:112-115 | a name is vnet and its index in decimal |
| `Mac.MacTextInjective` | src/agentvm/net/bridge.py:136-137 | different octets give different texts |
| `Mac.MacReadBack` | src/agentvm/net/bridge.py:136-137 | read as colon-separated pairs of hexadecimal digits, the text gives its octets back |
| `Mac.GeneratedReadBack` | src/agentvm/net/bridge.py:130-137 | a generated text denotes a unicast, locally administered address that keeps every other random bit |
| `Mac.GeneratedMacs` | src/agentvm/net/bridge.py:130-137 | the generated texts are exactly those of unicast, locally administered addresses, 17 characters, lower case |
| `Timestamps.TextOrderIsTimeOrder` | src/agentvm/db/store.py:760-761 | UTC timestamps compare as text as their instants compare in time, with and without fractions (section 5.1 of RFC 3339 extended to mixed fractions) |
| `Timestamps.RenderedFields` | src/agentvm/db/store.py:760-761 | the text has year, month, day, hour, minute and second at their places, T between, microseconds only if any, and the UTC offset (section 5.6 of RFC 3339) |
| `Timestamps.TextLessMeaning` | src/agentvm/db/store.py:166-180 | the text order is that of the first differing character |
| `Timestamps.YearDays` | src/agentvm/db/store.py:760-761 | years have the leap days of the Gregorian calendar |
| `Timestamps.MonthDays` | src/agentvm/db/store.py:760-761 | months begin after 31, 59, 90 and so on days, one more from March in leap years |
| `Timestamps.MinutesReadBack` | src/agentvm/db/store.py:780-786 | any text int() reads as n, alone or with minute or minutes in any capitalisation, with any blanks around and between, is read as n |
| `Timestamps.MinutesExactly` | src/agentvm/db/store.py:780-786 | a text is read as n minutes if and only if it is such a text, and refused with ValueError otherwise |
| `Coherence.AgeQueryMeaning` | src/agentvm/db/store.py:166-180 | if no session update rewrote created_at, the age query returns exactly the sessions whose view shows the status and a creation at least that long ago |
| `Coherence.AgeQueryFiltersViews` | src/agentvm/db/store.py:166-180 | if no session update rewrote created_at, the age query is the map of the sessions whose view shows the status and a creation text at most the threshold, each with its view |
| `Values.CoercionsAgree` | src/agentvm/db/store.py:789-800 | the capacity manager's coercion accepts what the store's does, except null and bool, with the same number |
| `Records.StoredTexts` | src/agentvm/db/store.py:74-90 | str() of null, bools, numbers and texts as columns hold them |
| `Records.StoredNumbers` | src/agentvm/db/store.py:789-800 | _as_int of null, bools, numbers, texts and everything else |
| `Records.RefusedVm` | src/agentvm/db/store.py:204-219 | a resource that does not convert raises ValueError, one beyond 64 bits OverflowError |
| `Records.RefusedAllocation` | src/agentvm/db/store.py:430-444 | the same for allocations |
| `Records.RefusedProxy` | src/agentvm/db/store.py:328-341 | the same for port and pid |
| `Records.RefusedRule` | src/agentvm/db/store.py:516-532 | a rule is refused only for a removed_at beyond 64 bits or a list or object |
| `Records.SixtyFourBits` | src/agentvm/db/store.py:645-660 | an integer column holds 64 bits |
| `MetadataStore.MetadataStore.Execute` | src/agentvm/db/store.py:613-617 | one statement takes full effect or raises and has none |
| `MetadataStore.MetadataStore.Invariants` | src/agentvm/db/store.py:68-585 | every object a sequence of completed calls leads to has agreeing columns and views and distinct row ids |
| `MetadataStore.MetadataStore.CreateSession` | src/agentvm/db/store.py:68-90 | new state, returned id, and the two ways to fail |
| `MetadataStore.MetadataStore.UpdateSession` | src/agentvm/db/store.py:101-125 | merges into the decoded view; false for an unknown id |
| `MetadataStore.MetadataStore.DeleteSession` | src/agentvm/db/store.py:147-164 | the commits together are the cascade |
| `MetadataStore.MetadataStore.CreateVm` | src/agentvm/db/store.py:182-219 | new state, returned id, and which of KeyError, ValueError, OverflowError and IntegrityError a refused record raises |
| `MetadataStore.MetadataStore.UpdateVm` | src/agentvm/db/store.py:251-287 | merges into the decoded view; false for an unknown id; a bad resource value raises its error and changes nothing |
| `MetadataStore.MetadataStore.DeleteVm` | src/agentvm/db/store.py:289-296 | removes the VM and its allocation |
| `MetadataStore.MetadataStore.CreateProxy` | src/agentvm/db/store.py:322-341 | new state and row id; a bad number raises its error, otherwise a second proxy of a session raises IntegrityError |
| `MetadataStore.MetadataStore.UpdateProxy` | src/agentvm/db/store.py:354-376 | merges into the decoded view; unknown sessions are ignored; a bad number raises its error and changes nothing |
| `MetadataStore.MetadataStore.DeleteProxy` | src/agentvm/db/store.py:378-384 | removes the session's proxy and nothing else |
| `MetadataStore.MetadataStore.CreateSharedFolder` | src/agentvm/db/store.py:386-400 | new state and row id; a second folder of a session raises IntegrityError |
| `MetadataStore.MetadataStore.DeleteSharedFolder` | src/agentvm/db/store.py:416-422 | removes the session's folder and nothing else |
| `MetadataStore.MetadataStore.CreateResourceAllocation` | src/agentvm/db/store.py:424-444 | new state and row id; a bad number raises its error, otherwise a second allocation of a VM raises IntegrityError |
| `MetadataStore.MetadataStore.DeleteAllocation` | src/agentvm/db/store.py:458-464 | removes the VM's allocation and nothing else |
| `MetadataStore.MetadataStore.CreateNetworkRule` | src/agentvm/db/store.py:510-532 | new state; the returned id was unused and every other rule is as it was; an unbindable or oversized removed_at raises its error |
| `MetadataStore.MetadataStore.DeactivateNetworkRule` | src/agentvm/db/store.py:557-566 | stamps the one rule if it exists; every other rule and table is as it was |
| `MetadataStore.MetadataStore.DeactivateAllNetworkRules` | src/agentvm/db/store.py:568-577 | stamps the session's rules and no others |
| `MetadataStore.MetadataStore.DeleteNetworkRules` | src/agentvm/db/store.py:579-585 | removes the session's rules and no others |
| `MetadataStore.MetadataStore.InsertAuditEvent` | src/agentvm/db/store.py:466-484 | appends one entry, whose number is its row id |
| `Coherence.UpdatedSessionView` | src/agentvm/db/store.py:101-125 | after update_session the view is the old one overlaid with the updates, and nothing else in the store changes |
| `Coherence.UpdatedVmView` | src/agentvm/db/store.py:251-287 | the same for an accepted update_vm |
| `Coherence.UpdatedProxyView` | src/agentvm/db/store.py:354-376 | the same for an accepted update_proxy |
| `Coherence.NothingDone` | src/agentvm/db/store.py:101-376 | updating what is not there, and every call that raises, leaves the store as it was |
| `Coherence.UpdatedVmCoherent` | src/agentvm/db/store.py:251-287 | an accepted update keeps columns and decoded view in agreement if and only if it leaves id and created_at as they were |
| `Coherence.UpdatedSessionCoherent` | src/agentvm/db/store.py:101-125 | the same for sessions |
| `Coherence.UpdatedProxyCoherent` | src/agentvm/db/store.py:354-376 | the same for proxies and session_id |
| `Coherence.RunWritten` | src/agentvm/db/store.py:68-532 | in every run, crashes included and without any condition on the callers: owner and status of sessions, all but id and created_at of VMs, port, pid and status of proxies, and all columns of folders, allocations, rules (but removed_at) and audit entries equal the coerced decoded values |
| `Coherence.StepDecides` | src/agentvm/db/store.py:101-376 | one call keeps a key column in agreement with the views if and only if it is not a carried-out update that rewrites the key |
| `Coherence.RunKeepsAspect` | src/agentvm/db/store.py:101-376 | id or created_at of sessions or VMs, or session_id of proxies, agrees with the views at every moment of a run if and only if no carried-out update rewrote that key |
| `Coherence.RunCoherent` | src/agentvm/db/store.py:764-777 | all filtered columns agree at every moment of a run if and only if no carried-out update rewrote any of these keys |
| `Coherence.QueriesFilterViews` | src/agentvm/db/store.py:127-145 | in every run list_sessions, list_vms, get_vms_by_image and get_active_vms return exactly the rows whose decoded view passes the filter |
| `Coherence.UpdatedAtFrozen` | src/agentvm/db/store.py:101-125 | after any updates the updated_at column shows the time of the last one, the decoded view what updates supplied last or else the first value |
| `RowIds.RunNumbered` | src/agentvm/db/store.py:632-757 | in every run the ids of proxies, folders, allocations and rules start at 1, are below the next one and are distinct within their table |
| `RowIds.IdsNeverReused` | src/agentvm/db/store.py:632-757 | once a row is gone its id is never given to another, however the run goes on |
| `Records.RulesFilterViews` | src/agentvm/db/store.py:534-555 | in every run the full list is the rules whose views name the session, the active list is among those that also show no removal, and equals them if and only if no rule of the session was retired over an explicit null |
| `Records.RetireAllMeaning` | src/agentvm/db/store.py:568-577 | retiring a session's rules empties its active list, keeps its full list, and leaves other sessions' lists alone |
| `Records.RetiredRows` | src/agentvm/db/store.py:568-577 | each rule of the session is stamped with the time of the call and keeps the rest of its row; everything else is as it was |
| `Records.RetiredRow` | src/agentvm/db/store.py:557-566 | the same for one rule by its id |
| `Records.RetiredRuleView` | src/agentvm/db/store.py:557-566 | a retired rule leaves the active list; its decoded view shows the retirement if and only if the payload had no other removed_at |
| `Records.NewSessionView` | src/agentvm/db/store.py:74-90 | for every record, the decoded view of a new session is the record completed with the defaults (no owner, creating, both times now), and nothing else changes |
| `Records.NewVmView` | src/agentvm/db/store.py:188-219 | for every accepted record, the view of a new VM is the record completed with empty texts, creating, no resources and the time, and nothing else changes |
| `Records.NewProxyView` | src/agentvm/db/store.py:328-341 | the same for proxies: row id, no session, port and pid 0, running |
| `Records.NewFolderView` | src/agentvm/db/store.py:392-400 | the same for shared folders: row id and empty texts |
| `Records.NewAllocationView` | src/agentvm/db/store.py:430-444 | the same for allocations: row id, no VM, no resources |
| `Records.NewRuleView` | src/agentvm/db/store.py:516-532 | the same for rules: row id, empty session and domain, allow, runtime, the time, not removed |
| `Records.NewRuleActive` | src/agentvm/db/store.py:510-555 | a new rule is active if and only if its record has no removed_at or a null one |
| `Records.NewAuditView` | src/agentvm/db/store.py:472-484 | for every event, the log grows by its view completed with the entry number, no session, unknown and the time |
| `Cascade.CascadeMeaning` | src/agentvm/db/store.py:147-164 | after delete_session nothing refers to the session, no allocation of its VMs is left, all other rows are unchanged, a repetition changes nothing |
| `Cascade.CommitsAreCascade` | src/agentvm/db/store.py:153-164 | the statements, with the VM ids in any order, add up to the cascade |
| `Cascade.CrashThenRetry` | src/agentvm/db/store.py:147-164 | after a crash at any commit and a retry all tables but resource_allocations are as after one call, and that one too if and only if the crash came first or no captured VM still had an allocation to be removed |
| `Cascade.VmCrashThenRetry` | src/agentvm/db/store.py:289-296 | delete_vm can be interrupted anywhere and repeated |
| `Cascade.VmDeletedMeaning` | src/agentvm/db/store.py:289-296 | after delete_vm the VM and its allocation are gone and everything else is as it was |
| `Cascade.AuditOnlyGrows` | src/agentvm/db/store.py:466-484 | over any run the audit log only grows at its end |
| `Reconcile.ReconcileRefinesStore` | src/agentvm/host/capacity.py:218-291 | in every run whose updates left the ids of VMs alone, reconciliation yields the resource columns of the active VMs with a non-empty id if and only if none of them shows a null or bool resource |
| `Reconcile.ReconcileExactly` | src/agentvm/host/capacity.py:218-291 | in every run without condition, reconciliation yields those columns whatever the row order if and only if they are what the views of the active VMs ask for |
| `Reconcile.RewrittenIdLost` | src/agentvm/host/capacity.py:230-247 | an accepted update that rewrites the id of a VM that stays active makes reconciliation miss that VM, whatever the row order |
| `Reconcile.RebuiltFromStore` | src/agentvm/host/capacity.py:230-247 | when active VMs show their own ids the ledger is, in any row order, the expected one less the VMs whose resources are not numbers |
| `Reconcile.NumericRunsAreClean` | src/agentvm/db/store.py:182-296 | runs whose VM records and updates carry no null or bool resource meet the condition |
| `Restart.RestartLosesNothing` | src/agentvm/vm/manager.py:84-134 | in every run of checked and recorded starts, releases with deletions, updates that keep VMs active and their resources, ended sessions, other calls, and crashes followed by reconciliation, the ledger rebuilt from the store is the live one less an entry under the empty id, in any row order |
| `Reconcile.ManagerRecordNumeric` | src/agentvm/vm/manager.py:105-115 | the VM manager's records do |
| `Reconcile.BoolResourceDropped` | src/agentvm/host/capacity.py:346-362 | a record with a bool core count is stored as 1 and dropped by reconciliation |

## Left out

- Reading /proc, /sys and statvfs and globbing directories: the texts and numbers read are inputs.
- `release_cores`: a no-op in the source; release is modelled as the caller dropping a cpuset.
- Text beyond ASCII blanks, digits and letters in `strip`, `lower` and `int()`, and the interpreter's limit on the length of decimal texts.
- SQLite itself, WAL mode, indexes, schema versions and the connection's life cycle: a statement is one atomic change of the tables.
- JSON encoding and payloads that do not decode: the store wrote every payload itself, and JSON-native values survive the round trip.
- Floats and bytes as record values.
- The order of query results (ORDER BY created_at, ORDER BY timestamp), hence `get_vm_by_session` and `query_audit_log` with its limit: sorting is SQLite's.
- `get_schema_version`, `run_migrations` and `initialize`: no records are involved.
- The fallback of `_fetch_active_vms` to `list_vms` and its type checks: the metadata store offers `get_active_vms`.
- Exceptions of a MAC factory other than running out, and concurrent callers of the bridge.
- `datetime` arithmetic: the age threshold is given as the instant that many minutes before now.
- A component that calls `check_spec`, `allocate` and `create_vm` in turn: the source has none, runs say what such a caller gets.
- Configuration, storage, API, daemon, metrics and session manager modules: I/O, wiring or stubs.
