# Mikrom verification

A model, in Dafny, of the parts of Mikrom where arithmetic, concurrency or state over time make the
behaviour hard to see from the code, with proofs of what those parts keep. Every `.dfy` file is one
component; `dafny verify dfyconfig.toml` checks them all.

## What is modelled

- **The egress firewall** (`HeaderChain`, `Addresses`, `Firewall`, `RuleTable`, over `Bits`). The kernel
  classifier walks at most eight IPv6 extension headers (section 4 of RFC 8200, section 2.2 of RFC 4302),
  matches the source address against each rule's prefix byte by byte, and decides over sixteen rule slots
  of a map shared by all interfaces; user space clears and refills the slots. The walk is proved equivalent,
  on every packet, to an encoder of header chains; the prefix match to equality of 128-bit quotients; and the
  verdict after any run of updates to a verdict on rule lists. `SixPn` composes this with the VPC prefix,
  the VM address allocator and the host route: which rule isolates a VPC, and that those the agent installs do not.
- **Traffic counters** (`TrafficStats`). CPUs interleave freely between a lookup that misses and the insert
  that follows; nothing is counted twice, overwritten or lost short of a full map, and reading meanwhile is off by
  no more than what is being counted.
- **The builder** (`BuildStore`, `BuildWorker`, `CrashSafety`). The store is a class over records, counters
  and its file. The worker protocol is a state machine whose handlers take their steps separately, with
  expiry, metadata, snapshots and restarts in between: permits bound leases, and every started build is
  accounted for. Persisting through a temporary file is a third machine, which may fail or crash at any step.
- **The Firecracker garbage collector** (`GarbageCollector`). One pass over processes, VM table and files,
  and the sweep for orphans.
- **Logs** (`LogTailer`, `LogShipper`, `LogDelivery`). Tailing a growing file by offset; shipping lines of two
  streams in batches, with a bounded local buffer; and what the one comes to at the end of the other.
- **Deployment status** (`StatusSync`). Two sources of cluster reports, each deciding on what it has read.
- **Loops with a budget** (`Retry`, `Base62`). Retrying until a deadline, reconnecting with backoff and a
  circuit breaker, and base-62 ids in a fixed buffer.

Code that updates things in place is modelled by classes and methods with loops, each proved against a
function of the inputs or of the old state; what the source promises is then proved about those functions,
over all inputs, all runs and all interleavings. Protocols are state machines over their steps. `Common`
holds what several modules share.

## Where the code is not what one might expect

The model follows the code. These are the places where comments, names or intuition say otherwise, each with
the members that settle it.

- The firewall does not isolate VPCs as it is used. A rule for a VPC's /40 would (`SixPn.VpcIsolation`), and
  no other single rule would (`SixPn.SingleRuleIsolatesIff`); but the agent's only caller of `update_rules`
  (mikrom-agent/src/server.rs:600-626) makes every rule with the empty prefix, and with such rules the source
  of a packet plays no part (`SixPn.InstalledRulesDoNotIsolate`, `SixPn.InstalledNeverIsolate`).
- A Deny rule never overrides a matching Allow; it matters only in making the list non-empty
  (`Firewall.DenyOnlyFills`).
- `(ifindex << 4) | i` drops the top four bits: interfaces equal modulo 2^28 share their slots, and only
  they (`Firewall.KeyInjective`). The run lemmas speak of these blocks, for every u32 interface index.
- An update that finds the map full of other interfaces' rules leaves its own interface open, whatever it was
  to deny (`RuleTable.FullMapOpens`): 1025 interfaces suffice (`RuleTable.FullMapReached`), 1024 do not
  (`RuleTable.CapacitySuffices`).
- While an interface's rules are updated, any packet can get through, whatever the old and the new rules say,
  and be dropped unless every one of them permits it (`RuleTable.CertainMeanwhileIff`).
- A packet whose last extension header runs past its end still reaches the rules (`Firewall.ParseOverrun`,
  `Firewall.OverrunPacketParsed`).
- A poll whose chunk ends exactly at a newline returns its lines and stays where it is, so that the next
  poll returns them again, though `read_new_lines` is documented to return new lines only
  (`LogTailer.StuckIff`, `LogTailer.RepeatsAtNewline`). Lines are delivered exactly once precisely in runs
  where at most the last poll reads such a chunk (`LogTailer.ExactlyOnceIff`). So they are shipped, too
  (`LogDelivery.ShippedAfterMarkerIff`), and a marker that is read again is shipped as a line of the application
  (`LogDelivery.MarkerShipped`).
- The tailer's offset counts decoded bytes. An invalid byte takes it off the line boundaries, and lines are
  lost or returned again (`LogTailer.BoundaryKeptIff`, `LogTailer.InvalidByteOvershoots`).
- Lines polled from files are all processed before the batch size is looked at, so a batch exceeds it exactly
  when pending and polled lines together do (`LogShipper.PolledBatchFitsIff`, `LogShipper.FiftyOneLines`).
- Reloading a current state file keeps its counters while failing the builds under way, so these are
  counted as started and never as ended (`BuildStore.ReloadRaisesDrift`, `BuildWorker.RestartLoses`). A
  legacy file has no drift exactly if every record is building, successful or failed (`BuildStore.LegacyDrift`).
- A snapshot's records are collected before its counters are locked, so the two may disagree about a build
  (`BuildWorker.MixedSnapshot`). `BuildWorker.SnapshotsInRuns` and `BuildWorker.SnapshotRecountIff` say exactly
  when they agree.
- A state file that cannot be looked for counts as missing: the builder starts from an empty store and puts it in
  the file's place (`BuildStore.UnseenFileLostIff`, `CrashSafety.UnseenLoadWipes`).
- The orphan sweep looks for sockets, logs and metrics under names that carry the agent's id, while the names in
  use for them do not. With a generated agent id it therefore never removes an orphaned log, socket or metrics
  file (`GarbageCollector.OwnNamesNeverSwept`). Only an agent id written by hand into agent_id.txt can make it
  delete logs, and then of known VMs too (`GarbageCollector.SweepOfVmLogs`, `GarbageCollector.KnownLogSwept`).
- Status updates are decided on a row that may have changed since it was read. That can lower the priority
  of a status (`StatusSync.StaleWriteRevives`); `StatusSync.StaleWriteSafeIff` says exactly when it cannot. A report
  without an address writes back the address of the copy it was decided on (`StatusSync.StaleAddressIff`,
  `StatusSync.StaleWriteRestoresAddress`), and every change those of its job, image, build and git columns
  (`StatusSync.StaleDetailIff`). A read of a status before RUNNING can revive a stopped deployment that is not
  active, and only such a read (`StatusSync.RevivalIff`, `StatusSync.StaleReadRevives`).
- Connecting resets the failure count before a flapping session raises it, so flapping alone never opens the
  circuit breaker (`Retry.FlappingNeverTrips`); `Retry.CoolDownIff` says exactly when it opens.

## Model

| member | source | states |
|---|---|---|
| HeaderChain.TransportOffset | mikrom-agent-ebpf/src/main.rs:70-104 | the eight-step loop finds what `Walk` finds from byte 54, behind the fixed header |
| HeaderChain.InspectHeader | mikrom-agent-ebpf/src/main.rs:75-99 | one turn of the loop, with its bounds-checked reads, classifies the header as `Inspect` does |
| HeaderChain.TestFragmentBits | mikrom-agent-ebpf/src/main.rs:83-86 | the shift-and-mask test of the fragment word is: 13-bit offset non-zero or more-fragments set |
| HeaderChain.OptionsStepped | mikrom-agent-ebpf/src/main.rs:76-80 | headers of types 0, 43 and 60 are stepped over, in units of eight bytes, to the type they announce |
| HeaderChain.AuthenticationStepped | mikrom-agent-ebpf/src/main.rs:94-98 | type 51 is stepped over in units of four bytes, two more than it says |
| HeaderChain.FragmentStepped | mikrom-agent-ebpf/src/main.rs:81-93 | type 44 is stepped over if offset and more-fragments bit are 0; otherwise the walk stops there with protocol 0 |
| HeaderChain.OthersFound | mikrom-agent-ebpf/src/main.rs:99-101 | every other type is the protocol, found where it is announced |
| HeaderChain.CutHeaderFails | mikrom-agent-ebpf/src/main.rs:77-96 | a header with too few bytes for its length is an error |
| HeaderChain.NeverAnExtension | mikrom-agent-ebpf/src/main.rs:70-104 | types 43, 44, 51 and 60 are never reported as a protocol |
| HeaderChain.InspectInvertsEncode | mikrom-agent-ebpf/src/main.rs:75-99 | an encoded header takes the walk exactly to the header behind it; a true fragment stops it with protocol 0 |
| HeaderChain.WalkThroughChain | mikrom-agent-ebpf/src/main.rs:70-104 | walking an encoded chain uses one turn per header and ends exactly behind it |
| HeaderChain.WalkInvertsEncoding | mikrom-agent-ebpf/src/main.rs:70-104 | a chain of fewer than n headers is walked to its transport protocol and offset; n or more is an error |
| HeaderChain.WalkStopsAtFragment | mikrom-agent-ebpf/src/main.rs:80-91 | behind any chain within reach, a true fragment yields protocol 0 at its own header |
| HeaderChain.WalkFindsChain | mikrom-agent-ebpf/src/main.rs:70-104 | conversely, every accepted walk inside the packet has read a well-formed encoded chain of fewer than n headers |
| HeaderChain.WalkIffChain | mikrom-agent-ebpf/src/main.rs:70-104 | on every packet, from any offset inside it, the walk reports (offset, protocol) if and only if such a chain leads there, or, behind the packet's end, if the last of fewer than n headers overruns it |
| HeaderChain.BeyondThePacket | mikrom-agent-ebpf/src/main.rs:75-99 | from an offset behind the packet the walk stops at once, or fails at an extension header |
| HeaderChain.WalkFindsOverrun | mikrom-agent-ebpf/src/main.rs:70-104 | every walk that ends behind the packet got there by one overrunning options or authentication header after a well-formed chain |
| HeaderChain.WalkAdvances | mikrom-agent-ebpf/src/main.rs:70-104 | the walk never goes back, and moves at most 2048 bytes a header: at most 54 + 7*2048 for eight turns |
| Addresses.MatchPrefix | mikrom-agent-ebpf/src/main.rs:149-174 | byte loop and partial mask accept iff the first min(prefix, 128) bits of both addresses are the same number, for every u8 prefix |
| Addresses.NetworkIsQuotient | mikrom-agent-ebpf/src/main.rs:149-174 | those first p bits are the 128-bit big-endian address divided by 2^(128-p) |
| Addresses.NetworkBytewise | mikrom-agent-ebpf/src/main.rs:155-169 | networks of 8k+r bits agree iff k whole bytes and the r high bits of the next one do |
| Addresses.MaskedEqual | mikrom-agent-ebpf/src/main.rs:164-168 | equality under the complement mask is equality of the high bits |
| Addresses.ShorterPrefix | mikrom-agent-ebpf/src/main.rs:149-174 | matching a longer prefix implies matching every shorter one |
| Addresses.BigEndianInjective | mikrom-agent-ebpf/src/main.rs:155-162 | byte strings of one length are equal iff their big-endian values are |
| Firewall.TryEgress | mikrom-agent-ebpf/src/main.rs:106-206 | unreadable packets are errors, non-IPv6 and neighbour discovery pass, all other traffic is dropped iff the interface's slots drop it |
| Firewall.Egress | mikrom-agent-ebpf/src/main.rs:58-68 | the action is 2 (SHOT) for a packet that cannot be read or that its slots drop, else 0 (OK) |
| Firewall.RunRules | mikrom-agent-ebpf/src/main.rs:140-205 | the slot loop with its early exits shoots iff some slot is filled and no filled slot is a matching Allow |
| Firewall.RuleDropsIff | mikrom-agent-ebpf/src/main.rs:149-203 | what a single Allow rule lets through, in numbers: sources of its network by 128-bit division, protocol 6, 17, or 1 and 58 for either ICMP, and a port from its first to its last, or any if the first is 0 |
| Firewall.ListDropsIff | mikrom-agent-ebpf/src/main.rs:140-205 | a non-empty list drops what each of its rules alone would drop |
| Firewall.PortRuleDropsIff | mikrom-agent-ebpf/src/main.rs:181-191 | a TCP or UDP rule from any source drops what is of another protocol or outside its range, both ends included |
| Firewall.DestinationPort | mikrom-agent-ebpf/src/main.rs:126-138 | the port read is bytes 2-3 of a wholly readable TCP or UDP header, 0 for other protocols, and an error otherwise |
| Firewall.ParseShort | mikrom-agent-ebpf/src/main.rs:106-113 | packets of fewer than 14 bytes, or IPv6 of fewer than 54, are errors; others than IPv6 pass |
| Firewall.FromBeBytes | mikrom-agent-ebpf/src/main.rs:128-134 | `u16::from_be_bytes` is the big-endian value |
| Firewall.ShiftedKey | mikrom-agent-ebpf/src/main.rs:144 | the key, `ifindex << 4` or-ed with i on a u32, is 16 times the low 28 bits of ifindex, plus i |
| Firewall.KeyInjective | mikrom-agent-ebpf/src/main.rs:144 | two slots share a key iff their interfaces are equal modulo 2^28 and their numbers are the same |
| Firewall.ParseOverrun | mikrom-agent-ebpf/src/main.rs:106-138 | a packet whose last extension header overruns it is an error for TCP and UDP, and otherwise reaches the rules with that header's protocol and no port |
| Firewall.OverrunPacketParsed | mikrom-agent-ebpf/src/main.rs:106-138 | such a packet of 56 bytes |
| Firewall.ParseInvertsPacket | mikrom-agent-ebpf/src/main.rs:106-138 | for every packet put together from headers, up to seven extension headers and a payload, the classifier sees its source, protocol and port; with eight or more, an error |
| Firewall.SlotsDropAsList | mikrom-agent-ebpf/src/main.rs:140-205 | when the slots hold a list in order, the slot verdict is the list verdict |
| Firewall.ListDropsIgnoresOrder | mikrom-agent-ebpf/src/main.rs:193-203 | permuting a rule list never changes its verdict |
| Firewall.DenyOnlyFills | mikrom-agent-ebpf/src/main.rs:193-203 | a Deny rule next to other rules changes no verdict; alone it drops everything, where no rule drops nothing |
| Firewall.AnySourceBlind | mikrom-agent-ebpf/src/main.rs:149-174 | rules without a prefix give flows from any two sources the same verdict |
| RuleTable.EbpfManager.UpdateRules | mikrom-agent/src/ebpf/mod.rs:108-135 | clear then insert, on the bounded map: the new table outright, and success iff all of the first 16 rules find room |
| RuleTable.EbpfManager.ClearSlots | mikrom-agent/src/ebpf/mod.rs:119-123 | exactly the keys of the interface's block are gone |
| RuleTable.EbpfManager.InsertRules | mikrom-agent/src/ebpf/mod.rs:125-132 | rules go into slots in order until done or until an insert is refused, leaving the rules before it |
| RuleTable.RefilledHolds | mikrom-agent/src/ebpf/mod.rs:125-132 | the slots then hold the inserted rules, rule i in slot i, and nothing else |
| RuleTable.RefilledElsewhere | mikrom-agent/src/ebpf/mod.rs:119-132 | no key of another block is touched |
| RuleTable.RefilledCard | mikrom-agent/src/ebpf/mod.rs:125-132 | every insert into cleared slots takes a new entry of the map |
| RuleTable.SlotsAfterRun | mikrom-agent/src/ebpf/mod.rs:108-135 | after any run of updates, refused inserts included, an interface's slots are the rules that found room in the last update of its block |
| RuleTable.SlotAfterRun | mikrom-agent/src/ebpf/mod.rs:108-135 | after a successful update, slot i below 16 is at key 16 times the low 28 bits of ifindex plus i, and holds the i-th rule last given, if there is one |
| RuleTable.PortRuleOnPackets | mikrom-agent-ebpf/src/main.rs:106-205 | whole packets, behind up to seven headers, against an interface whose one rule is a TCP or UDP range: shot unless of that protocol, with a whole header, to a port in range |
| RuleTable.KeptIsLastIff | mikrom-agent/src/ebpf/mod.rs:108-135 | these are the first 16 rules last given iff that update succeeded |
| RuleTable.RunBounded | mikrom-agent-ebpf/src/main.rs:15-16 | no run takes the map over its limit |
| RuleTable.FullMapOpens | mikrom-agent/src/ebpf/mod.rs:125-132 | an update that finds the map full leaves its interface without rules, so that it drops nothing |
| RuleTable.FullMapReached | mikrom-agent/src/ebpf/mod.rs:125-132 | 1024 interfaces with sixteen rules each fill the map; one more that is given a rule to deny everything lets everything through |
| RuleTable.VerdictAfterRun | mikrom-agent-ebpf/src/main.rs:140-205 | so the kernel's verdict after any run is the list verdict on the kept rules, and on the first 16 last given if their update succeeded |
| RuleTable.VerdictIgnoresOrderAndOthers | mikrom-agent-ebpf/src/main.rs:140-205 | any two runs leaving an interface the same rules in any order, whatever other interfaces did, give every flow the same verdict |
| RuleTable.BlockCard | mikrom-agent-ebpf/src/main.rs:143-145 | keys from b blocks number at most 16*b |
| RuleTable.OthersLeaveRoom | mikrom-agent/src/ebpf/mod.rs:119-132 | once its slots are cleared, the other blocks leave an interface room for 16 |
| RuleTable.CapacitySuffices | mikrom-agent-ebpf/src/main.rs:15-16 | with at most 1024 blocks ever given rules, the map stays within 16 entries each and no insert is ever refused |
| Firewall.RunRulesOver | mikrom-agent-ebpf/src/main.rs:140-205 | the rule loop with each slot looked up in the map as it is then |
| RuleTable.SlotAtMoment | mikrom-agent/src/ebpf/mod.rs:119-132 | what each slot holds after any number of an update's removals and insertions |
| RuleTable.VerdictMeanwhile | mikrom-agent-ebpf/src/main.rs:140-205 | the verdict on a packet classified during an update, its slots read one after the other at any moments of it |
| RuleTable.MayPass | mikrom-agent/src/ebpf/mod.rs:119-132 | whatever the old and the new rules, any flow can get through during an update |
| RuleTable.MayDropIff | mikrom-agent/src/ebpf/mod.rs:119-132 | a flow can be dropped during an update iff some rule, old or new, does not permit it |
| RuleTable.CertainMeanwhileIff | mikrom-agent/src/ebpf/mod.rs:119-132 | so its fate is certain iff every rule, old and new, permits it |
| SixPn.GenerateVpcPrefix | mikrom-proto/src/sixpn.rs:10-26 | the octet writes yield fd, the digest's first four bytes, zeros |
| SixPn.AllocateVmIpv6 | mikrom-proto/src/sixpn.rs:31-50 | octets 5-7 become the job digest's first three bytes, octet 15 becomes 1, the rest stays |
| SixPn.RoutePrefix | mikrom-agent/src/cloud_hypervisor/network.rs:167-185 | zeroing segments 4-7 keeps the first eight octets and clears the rest |
| SixPn.OctetsPlaced | mikrom-proto/src/sixpn.rs:8-50 | which octets of prefix, address and route come from where, and that their low halves are 0, 1 and 0 |
| SixPn.VpcPrefixIsolates | mikrom-proto/src/sixpn.rs:8-50 | a VPC's /40 contains a VM's address iff the VM's 32-bit VPC id is that VPC's |
| SixPn.AddressInRoute | mikrom-agent/src/cloud_hypervisor/network.rs:167-185 | every address lies in the /64 routed for it |
| SixPn.SharedRoute | mikrom-proto/src/sixpn.rs:28-50 | two VMs share a routed /64 iff VPC id and 24-bit VM id both coincide |
| SixPn.SingleRuleIsolatesIff | mikrom-agent-ebpf/src/main.rs:140-205 | a single rule lets through exactly one VPC's VMs iff it is an unrestricted Allow for that VPC's /40 |
| SixPn.VpcIsolation | mikrom-agent-ebpf/src/main.rs:140-205 | allocator, rule updates and classifier together: an interface whose one rule is such a rule passes exactly that VPC's VMs, after any run of updates that led there |
| SixPn.PacketIsolation | mikrom-agent-ebpf/src/main.rs:58-206 | the same for whole packets: shot iff the VM is of another VPC or the payload is cut short, neighbour discovery aside |
| SixPn.InstalledRulesDoNotIsolate | mikrom-agent/src/server.rs:600-626 | with the rules the agent really installs, which carry no address, packets that differ in their source alone are treated alike, after any run of updates |
| SixPn.InstalledNeverIsolate | mikrom-agent/src/server.rs:600-626 | no list of such rules isolates any VPC |
| TrafficStats.GetStats | mikrom-agent/src/ebpf/mod.rs:78-106 | the loop adds up every CPU's slot, wrapping at 64 bits, and None iff the interface is unknown |
| TrafficStats.InvStep | mikrom-agent-ebpf/src/main.rs:22-46 | a CPU that missed finds its own slot untouched when it inserts, so the insert overwrites nothing |
| TrafficStats.TalliesStep | mikrom-agent-ebpf/src/main.rs:22-46 | each step keeps: an interface's slots add up to its counted bytes modulo 2^64 |
| TrafficStats.AccountedStep | mikrom-agent-ebpf/src/main.rs:22-46 | each step keeps: bytes arrived = counted + lost to a full map + in flight between lookup and insert |
| TrafficStats.StatsConserved | mikrom-agent-ebpf/src/main.rs:22-46 | both hold under every interleaving of lookups and inserts on any number of CPUs |
| TrafficStats.NothingLost | mikrom-agent-ebpf/src/main.rs:22-46 | with at most 1024 interfaces no packet is lost to a full map |
| TrafficStats.FullMapLoses | mikrom-agent-ebpf/src/main.rs:22-46 | with 1024 interfaces in the map a packet of any other is not counted |
| TrafficStats.CountsByHook | mikrom-agent-ebpf/src/main.rs:48-62 | transmitted bytes are those of the ingress hook, received ones those of the egress hook |
| TrafficStats.StatsExact | mikrom-agent/src/ebpf/mod.rs:78-106 | so once no CPU is between lookup and insert, what user space adds up is the traffic that arrived, modulo 2^64 |
| TrafficStats.ExactAndGrown | mikrom-agent-ebpf/src/main.rs:22-46 | below 2^64 bytes every moment is exact, and no CPU's slot ever goes down |
| TrafficStats.ReadBetween | mikrom-agent/src/ebpf/mod.rs:78-106 | statistics whose slots are copied at different moments while packets are counted lie between what was counted at the first and at the last |
| Base62.EncodeBase62 | mikrom-proto/src/id.rs:26-43 | the buffer loop computes the base-62 rendering without ever leaving its 22 bytes |
| Base62.AlphabetAt | mikrom-proto/src/id.rs:7-8 | alphabet lookup is digits, then upper case, then lower case |
| Base62.BufferSuffices | mikrom-proto/src/id.rs:31-38 | while digits remain there is room in the buffer, as 62^22 > 2^128 |
| Base62.DecodeEncode | mikrom-proto/src/id.rs:26-43 | positional decoding recovers every value, and encodings have no needless leading zero |
| Base62.EncodeDecode | mikrom-proto/src/id.rs:26-43 | every such string is the encoding of its value |
| Base62.RenderLength | mikrom-proto/src/id.rs:26-43 | an encoding has at most k symbols iff the value is below 62^k |
| Base62.IdLength | mikrom-proto/src/id.rs:10-24 | a 128-bit id has between 1 and 22 characters |
| Base62.NoLeadingZero | mikrom-proto/src/id.rs:34-38 | no non-zero value starts with '0' |
| Base62.EncodeOrder | mikrom-proto/src/id.rs:26-43 | shortlex order of encodings is numeric order, both ways |
| StatusSync.Repository.SyncDeploymentState | mikrom-api/src/sync.rs:118-165 | a write happens iff status, address or hypervisor call for one, and changes exactly the columns decided on, the others written back from the copy included |
| StatusSync.SyncTakesOver | mikrom-api/src/sync.rs:128-165 | decided on the row as it is, a report's address, hypervisor and applicable status are taken over, and nothing else |
| StatusSync.StaleAddressIff | mikrom-api/src/sync.rs:150-154 | decided on an outdated copy, a report without an address overwrites the row's address with the copy's, exactly unless the stated condition holds |
| StatusSync.StaleHypervisorIff | mikrom-api/src/sync.rs:132-162 | a hypervisor is written iff the report names one that the copy does not have |
| StatusSync.StaleDetailIff | mikrom-api/src/sync.rs:147-157 | job, image, build and git columns are written back from the copy with every change, and the row's own survive exactly if nothing is written or the copy has none or the same |
| StatusSync.SyncIdempotent | mikrom-api/src/sync.rs:128-165 | repeating a report against the row it produced writes nothing |
| StatusSync.Transitions | mikrom-api/src/sync.rs:191-221 | where each status can go, one by one, as a table of iffs over literal statuses, unknown ones included |
| StatusSync.NeverBack | mikrom-api/src/sync.rs:191-221 | over atomic updates a row never goes back along BUILDING, PENDING, SCHEDULED, RUNNING |
| StatusSync.ClosedSetKept | mikrom-api/src/sync.rs:118-210 | however any number of readers and writers interleave, a transition-closed set of statuses is not left once the row and all outstanding reads are in it |
| StatusSync.PriorityFloor | mikrom-api/src/sync.rs:212-221 | no interleaving takes priority below the row and the outstanding reads |
| StatusSync.TerminalIsFinal | mikrom-api/src/sync.rs:191-210 | FAILED and CANCELLED are final, under the same proviso |
| StatusSync.NoRevival | mikrom-api/src/sync.rs:191-210 | one that has left RUNNING and is not the active deployment never runs again, under the same proviso |
| StatusSync.RevivingReadIff | mikrom-api/src/sync.rs:191-210 | a decision for an inactive deployment can accept RUNNING iff the status it was made on has a lower priority |
| StatusSync.RevivalIff | mikrom-api/src/sync.rs:118-210 | one that has left RUNNING and is inactive stays so in every run iff no outstanding read is of a status before RUNNING |
| StatusSync.StaleReadRevives | mikrom-api/src/sync.rs:118-210 | a run in which a stale read of PENDING revives a stopped deployment |
| StatusSync.AtomicMonotone | mikrom-api/src/sync.rs:191-221 | over atomically applied updates priority never decreases, from any point of the run on |
| StatusSync.StaleWriteRevives | mikrom-api/src/sync.rs:118-189 | without atomicity that is false: two reads of RUNNING let a late PAUSED overwrite FAILED |
| StatusSync.StaleWriteRestoresAddress | mikrom-api/src/sync.rs:150-154 | and a run in which a late report without an address rolls back a newer one |
| StatusSync.StaleWriteSafeIff | mikrom-api/src/sync.rs:191-221 | a decision on an outdated read can lower no priority iff the row has not risen above the lowest priority that read can write |
| Retry.ConfigureDatabase | mikrom-agent/src/cloud_hypervisor/manager.rs:272-366 | terminates; gives up only at the deadline after answers worth retrying throughout, else ends at the first 2xx or at a 4xx other than 408, 412 and 429; the sleep after attempt i is 250 ms doubled i times, up to the maximum and the deadline |
| Retry.AttemptsApart | mikrom-agent/src/cloud_hypervisor/manager.rs:272-349 | attempts are at least the doubling delays apart |
| Retry.AttemptsBounded | mikrom-agent/src/cloud_hypervisor/manager.rs:272-349 | at most ceil(window / 250 ms) attempts are made |
| Retry.Serve | mikrom-agent/src/server.rs:167-299 | the connection loop's failure count and pauses are the specified ones for every sequence of outcomes |
| Retry.PausesAppend | mikrom-agent/src/server.rs:176-299 | each further attempt adds: a cool-down before it iff the row of failures stands at a multiple of ten; a second's rest after a session, else 2 seconds doubled with each failure of ten, up to the maximum |
| Retry.FailuresAreAStreak | mikrom-agent/src/server.rs:176-299 | the count never exceeds ten and counts the last attempts, all failed but for a first that may be a flapping session |
| Retry.StreakIsLongest | mikrom-agent/src/server.rs:176-299 | the row of failures that the attempts end with, counted on through cool-downs, and that it is the longest |
| Retry.FailuresFromStreak | mikrom-agent/src/server.rs:176-299 | the failure count runs from one to ten and over again along that row |
| Retry.CoolDownIff | mikrom-agent/src/server.rs:178-186 | a cool-down comes next iff that row has just reached a multiple of ten |
| Retry.CoolDownAfterTenFailures | mikrom-agent/src/server.rs:178-186 | a cool-down comes only after ten such attempts in a row |
| Retry.FlappingNeverTrips | mikrom-agent/src/server.rs:195-200 | sessions that only flap never open the breaker, as connecting resets the count |
| Retry.BackoffGrows | mikrom-agent/src/server.rs:201-228 | within a failing streak the count steps by one and the backoff never shrinks nor exceeds its maximum |
| LogTailer.TailedFile.ReadNewLines | mikrom-agent/src/logger.rs:51-100 | one poll: the new offset and the lines returned, on truncation, no news, short reads and missing files too; a poll that fails returns nothing, but has noticed a truncation |
| LogTailer.TailedFile.HoldBack | mikrom-agent/src/logger.rs:80-99 | popping the unterminated last line leaves exactly the terminated ones, and moves nothing if the chunk ends at a newline |
| LogTailer.LineEnds | mikrom-agent/src/logger.rs:80-86 | lines end at byte 10 and nowhere else, and lose a byte 13 before it, and only there |
| LogTailer.TruncatedStartsOver | mikrom-agent/src/logger.rs:62-65 | a file shorter than the offset is read from the start |
| LogTailer.CutIsInverse | mikrom-agent/src/logger.rs:80-86 | a file is its complete lines and its unterminated rest, put together |
| LogTailer.RestOfFile | mikrom-agent/src/logger.rs:70-75 | reading from behind line k finds exactly the lines from k on and the same rest |
| LogTailer.PollMeaning | mikrom-agent/src/logger.rs:80-99 | what a poll from behind line k returns and how far it moves, even where decoding replaces invalid bytes |
| LogTailer.PollStep | mikrom-agent/src/logger.rs:51-100 | on valid text a poll from a line boundary ends at one, and returns all lines it passes |
| LogTailer.TailRun | mikrom-agent/src/logger.rs:51-100 | over any run on an append-only file: the offset is a line boundary; polls that moved it returned the lines passed, each once and in order; only whole lines are returned |
| LogTailer.StuckIff | mikrom-agent/src/logger.rs:83-99 | a poll returns lines without moving iff its non-empty chunk ends at a newline |
| LogTailer.NothingAheadIff | mikrom-agent/src/logger.rs:51-100 | a run returns nothing beyond the lines its offset has passed iff no chunk it read ended at a newline |
| LogTailer.PositionsReturned | mikrom-agent/src/logger.rs:51-100 | what a run returns are the lines with certain numbers, and which |
| LogTailer.ExactlyOnceIff | mikrom-agent/src/logger.rs:51-100 | a run returns the lines from its start on one after the other, none twice, iff no poll but its last read a chunk that ended at a newline; otherwise it returns some line twice |
| LogTailer.BoundaryKeptIff | mikrom-agent/src/logger.rs:80-89 | where decoding replaces invalid bytes, a poll that moves ends at a line boundary iff the lines passed are as long decoded as in the file |
| LogTailer.InvalidByteOvershoots | mikrom-agent/src/logger.rs:80-89 | one invalid byte takes the offset past the end of a file, so that its line is returned again, or into the next line, which is lost |
| LogTailer.RepeatsAtNewline | mikrom-agent/src/logger.rs:85-99 | a concrete file ending at a newline is returned again by each poll |
| LogShipper.LogShipper.ProcessLine | mikrom-agent/src/logger.rs:251-295 | the line goes, with one of four tags by stream and phase, to a buffer of the last 1000, and to the batch iff the application has started |
| LogShipper.LogShipper.Flush | mikrom-agent/src/logger.rs:297-312 | the batch is handed on and emptied |
| LogShipper.LogShipper.Handle | mikrom-agent/src/logger.rs:136-176 | one event adds exactly its line to what is shipped and shown; the batch is flushed, whole, at 50 lines or by the timer if it has any, and else kept |
| LogShipper.LogShipper.Spawn | mikrom-agent/src/logger.rs:124-183 | for every interleaving of stdout, stderr and timer: flushed batches joined are the lines after the first start marker in order, and the buffer is the last 1000 lines shown |
| LogShipper.LogShipper.ShipPolledLines | mikrom-agent/src/logger.rs:203-239 | the polling variant keeps the same contents, but looks at the batch only after all polled lines: pending and added lines are flushed as one batch if they are 50 or more, else kept |
| LogShipper.AddedCount | mikrom-agent/src/logger.rs:205-217 | how many lines a poll adds: those behind the first marker, or all once started |
| LogShipper.PolledBatchFitsIff | mikrom-agent/src/logger.rs:218-220 | batches stay within 50 iff pending and added lines together do |
| LogShipper.FiftyOneLines | mikrom-agent/src/logger.rs:203-220 | a file with a marker and 51 lines gives one batch of 51 |
| LogDelivery.TailAndShip | mikrom-agent/src/logger.rs:185-239 | the polling loop for one file leaves the shipper as if it had been given the lines of all polls one by one |
| LogDelivery.ShippedOnceIff | mikrom-agent/src/logger.rs:203-239 | once the application has started, a run of polls ships each line once and in order iff no poll but the last reads a chunk that ends at a newline; otherwise some line twice |
| LogDelivery.ShippedAfterMarkerIff | mikrom-agent/src/logger.rs:203-221 | from the poll that reads the marker on, what is shipped are the lines behind it in the file, each once, iff the same holds |
| LogDelivery.MarkerShipped | mikrom-agent/src/logger.rs:203-221 | if that poll reads a chunk that ends at a newline and is not the last, the marker is shipped as a line of the application |
| LogDelivery.MarkerShippedReached | mikrom-agent/src/logger.rs:203-221 | a log of the marker's line alone, read twice, where it is |
| LogShipper.FirstMarker | mikrom-agent/src/logger.rs:141-150 | the first event that is the marker on stdout, none before it |
| LogShipper.TrackedNext | mikrom-agent/src/logger.rs:136-176 | handling one more event is one more event of the specification over the whole interleaving |
| LogShipper.NextShipped | mikrom-agent/src/logger.rs:141-155 | a further event ships its line iff the marker came before it |
| LogShipper.NextShown | mikrom-agent/src/logger.rs:258-283 | a further line is shown unless it is the first marker, tagged by whether the marker came before it |
| LogShipper.LastAppend | mikrom-agent/src/logger.rs:266-282 | dropping the oldest line before each push keeps the last n of all lines |
| GarbageCollector.FirecrackerManager.RunGc | mikrom-agent/src/firecracker/cleanup.rs:8-146 | a whole pass: processes that are gone, and only they, leave the table; each VM among them that was Running or Starting is queued once and no other; each other one but Paused is marked Stopped; files and interfaces are as specified |
| GarbageCollector.FilesAfterIff | mikrom-agent/src/firecracker/cleanup.rs:148-370 | a file outlives a pass iff it is not deleted with a gone process that the table knows, name by name, and not found by the sweep |
| GarbageCollector.ArtifactsMean | mikrom-agent/src/firecracker/paths.rs:29-70 | the names deleted with a process: socket and chroot; unless paused, configuration, three logs, root file system, snapshot and memory |
| GarbageCollector.FirecrackerManager.CollectExited | mikrom-agent/src/firecracker/cleanup.rs:22-59 | exactly the exited processes are taken out, with their records |
| GarbageCollector.FirecrackerManager.Decide | mikrom-agent/src/firecracker/cleanup.rs:61-108 | restart queue, cleanup plans and STOPPED marks for every exited VM the table knows |
| GarbageCollector.FirecrackerManager.Cleanup | mikrom-agent/src/firecracker/cleanup.rs:110-130 | exactly the planned files are deleted |
| GarbageCollector.FirecrackerManager.Sweep | mikrom-agent/src/firecracker/cleanup.rs:298-410 | exactly the stale files and interfaces are deleted, everything in processes or VM table counting as known |
| GarbageCollector.SweepOfAgentFiles | mikrom-agent/src/firecracker/cleanup.rs:412-426 | a `.sock`, `-rootfs.ext4` or `-metrics.json` file of a VM is swept iff no known VM has that id |
| GarbageCollector.SweepOfSnapshots | mikrom-agent/src/firecracker/cleanup.rs:343-370 | a VM's snapshot and memory files are swept iff the VM is unknown |
| GarbageCollector.SweepOfTaps | mikrom-agent/src/firecracker/cleanup.rs:375-410 | an interface is swept iff no known VM's id begins with the eight characters it carries |
| GarbageCollector.TapSweptIff | mikrom-agent/src/firecracker/cleanup.rs:396-407 | whatever follows `m-tap-`: swept iff it is eight characters or more and not the first eight of a known VM's id |
| GarbageCollector.OtherLinksStay | mikrom-agent/src/firecracker/cleanup.rs:396-398 | interfaces of other names are never swept |
| GarbageCollector.SweepOfAgentLogs | mikrom-agent/src/firecracker/cleanup.rs:324-329 | log files under agent names, which nothing creates, would be swept even for known VMs |
| GarbageCollector.SweepOfVmLogs | mikrom-agent/src/firecracker/paths.rs:45-53 | log files under the names really used are swept, known or not, iff the VM's id begins with the agent's id and a dash |
| GarbageCollector.OwnNamesNeverSwept | mikrom-agent/src/firecracker/paths.rs:20-58 | an agent with a 36-character id, as generated ids are, never sweeps any file named after a VM alone: orphaned sockets, configurations, logs and metrics stay |
| GarbageCollector.KnownLogSwept | mikrom-agent/src/firecracker/manager.rs:276-281 | an agent id set by hand to the first eight characters of a known VM's id makes the sweep delete that VM's log |
| GarbageCollector.SweepOfVmSocket | mikrom-agent/src/firecracker/paths.rs:20-27 | the API socket under the name really used is never swept |
| GarbageCollector.PausedFilesKept | mikrom-agent/src/firecracker/cleanup.rs:88-146 | a paused VM's snapshot and memory files survive cleanup and sweep, exactly unless an exited process's socket or chroot path covers them |
| GarbageCollector.UnpausedFilesGo | mikrom-agent/src/firecracker/cleanup.rs:201-249 | an exited VM that was not paused loses both |
| GarbageCollector.AgentFileInjective | mikrom-agent/src/firecracker/cleanup.rs:412-426 | agent-named files coincide iff VM and suffix do |
| BuildStore.BuildStore.Load | mikrom-builder/src/state.rs:211-241 | the store loaded from a missing, current or legacy file, or one that cannot be looked for, stored at once; an error iff the file is unreadable or cannot be written |
| BuildStore.UnseenFileLostIff | mikrom-builder/src/state.rs:212-231 | a load that succeeds loses no build iff it could look for the file or there was none in it |
| BuildStore.BuildStore.Persist | mikrom-builder/src/state.rs:338-377 | derived metrics are refreshed either way; the file then holds exactly the memory, or is untouched on failure |
| BuildStore.BuildStore.ListRecords | mikrom-builder/src/state.rs:340-344 | the listed records rebuild the map |
| BuildStore.BuildStore.InsertNew | mikrom-builder/src/state.rs:258-266 | the new record and the start counted, in memory even if storing fails |
| BuildStore.BuildStore.SetGitMetadata | mikrom-builder/src/state.rs:268-279 | only an existing record is changed |
| BuildStore.BuildStore.Finalize | mikrom-builder/src/state.rs:281-312 | the outcome is counted whether or not the record still exists |
| BuildStore.BuildStore.RemoveExpired | mikrom-builder/src/state.rs:314-336 | exactly the expired records go and are counted; nothing is written if there are none |
| BuildStore.RecordsFromSnapshot | mikrom-builder/src/state.rs:390-402 | in-flight records fail, later duplicates of an id win, all others stay |
| BuildStore.LastRecordCounts | mikrom-builder/src/state.rs:390-402 | of records with the same id in a file the last one counts |
| BuildStore.LoadKeepsCompleted | mikrom-builder/src/state.rs:390-402 | loading loses no record, keeps every completed one, fails every one under way |
| BuildStore.SecondLoadChangesNothing | mikrom-builder/src/state.rs:211-241 | loading what a load has stored changes no record, whenever it happens |
| BuildStore.OutcomeRecorded | mikrom-builder/src/state.rs:128-192 | a finalized record keeps its identity, gains status 3 or 4, result or message, and the milliseconds since its creation, announces the right event, touches no other record, and expires exactly ttl after that |
| BuildStore.NewBuildRecorded | mikrom-builder/src/state.rs:71-92 | a new record is building (2) from now on, queued and nothing else, and touches no other |
| BuildStore.DurationOfBuild | mikrom-builder/src/state.rs:174-182 | a build from start to end is recorded with exactly that duration |
| BuildStore.CountersGoUp | mikrom-builder/src/state.rs:258-336 | each counter goes up by what is counted, stops at 2^64 - 1, and no other changes |
| BuildStore.MetadataRecorded | mikrom-builder/src/state.rs:268-279 | metadata changes the metadata and events of its own record alone, and nothing for a build without a record |
| BuildStore.EventsBounded | mikrom-builder/src/state.rs:94-110 | a record keeps exactly its newest 32 events, in order, and nothing else changes |
| BuildStore.ReloadRaisesDrift | mikrom-builder/src/state.rs:217-221 | reloading a v2 file raises started - ended - building by exactly the builds converted |
| BuildStore.LegacyDrift | mikrom-builder/src/state.rs:222-225 | a legacy load has drift equal to its records of odd status, so zero iff there are none |
| BuildStore.PartitionByStatus | mikrom-builder/src/state.rs:404-441 | the reconstructed counters split the records: succeeded, failed, cancelled and odd add up to all |
| BuildWorker.RunInvariant | mikrom-builder/src/server.rs:128-279 | in every reachable state: permits, leases, building records and counters fit together, through aborted handlers, expiry, metadata, persistence and restarts |
| BuildWorker.ActiveWithinPermits | mikrom-builder/src/server.rs:53-53 | active builds <= permits held <= the limit, or 1 if that is 0, and active builds are exactly those with a live lease |
| BuildWorker.PermitsReached | mikrom-builder/src/server.rs:148-152 | another request is accepted iff fewer permits are held than that |
| BuildWorker.PermitsComeBack | mikrom-builder/src/server.rs:161-176 | no permit leaks: from any state, handlers going on to their end leave no permit held and no build active, whatever was aborted before |
| BuildWorker.BalanceStep | mikrom-builder/src/state.rs:258-336 | no step of a handler, expiry or metadata update changes the drift once builds between two counts are taken into account |
| BuildWorker.ExpiryKeepsBuilding | mikrom-builder/src/state.rs:184-192 | expiry never removes a record still building |
| BuildWorker.CaptureBalance | mikrom-builder/src/state.rs:338-349 | a snapshot carries the number of builds that falling back on it would lose, whenever its records were collected before its counters |
| BuildWorker.RestartBalance | mikrom-builder/src/state.rs:211-241 | a restart loses exactly that many, or starts from nothing if it cannot look for the file |
| BuildWorker.StartedIsAccountedFor | mikrom-builder/src/server.rs:184-279 | in every reachable state: started = succeeded + failed + cancelled + started and not yet counted as ended + lost to restarts |
| BuildWorker.NothingLostWithoutRestart | mikrom-builder/src/server.rs:184-279 | without restarts nothing is lost |
| BuildWorker.RestartLoses | mikrom-builder/src/state.rs:217-221 | after a restart on a snapshot just committed, started - succeeded - failed - cancelled is what was lost before plus the builds uncounted when the metrics were locked, and no record is building |
| BuildWorker.InFlightAfter | mikrom-builder/src/server.rs:184-279 | over any steps without a restart, the builds started and not yet ended are those before, with those whose start was counted, without those whose end was |
| BuildWorker.SnapshotAgreesIff | mikrom-builder/src/state.rs:338-349 | a snapshot's records show as building what its counters show as in flight iff, between collecting the one and locking the other, of the builds still in flight exactly those recorded at first were counted as started, none running at first was counted as ended, and all finalized at first were |
| BuildWorker.SnapshotDriftIff | mikrom-builder/src/state.rs:338-349 | its numbers show no drift beyond what was lost iff as many builds are in flight at the locking as were recorded or running at the collecting |
| BuildWorker.SnapshotsInRuns | mikrom-builder/src/state.rs:338-349 | both conditions, and that the records are those of the collecting, for every run from any file and everything that may happen meanwhile |
| BuildWorker.SnapshotRecountIff | mikrom-builder/src/state.rs:404-441 | without expiry and restarts its counters are a recount of its own records iff meanwhile as many starts, and ends of each kind, were counted as were waiting for it |
| BuildWorker.MixedSnapshot | mikrom-builder/src/state.rs:338-349 | a run where these conditions fail: a build finishes between the two moments, and after a restart is recorded as failed and counted as succeeded |
| BuildWorker.BootDrift | mikrom-builder/src/state.rs:211-231 | a fresh store starts with drift zero, a legacy one with its records of odd status |
| BuildWorker.TakenForItsOutcome | mikrom-builder/src/server.rs:255-262 | a recount takes a final record for what the handler counted it as |
| BuildWorker.CancelledIff | mikrom-builder/src/server.rs:255-262 | an outcome is a cancellation iff it is an error in whose message, in lower case, the word stands somewhere |
| BuildWorker.LowerMeans | mikrom-builder/src/server.rs:257 | lower case moves the letters A to Z and nothing else |
| BuildWorker.RecountAgrees | mikrom-builder/src/state.rs:404-441 | without expiry and restarts the live counters are exactly what a legacy load would reconstruct from the records iff no build is between its record and its count |
| CrashSafety.InvStep | mikrom-builder/src/state.rs:338-377 | each step of collecting, persisting, failing, crashing and loading keeps: the file is a whole capture no older than the last completed persist, or as found |
| CrashSafety.FileIsRecentAndWhole | mikrom-builder/src/state.rs:338-377 | so it is in every reachable state, with a crash between any two steps, and with writes that outlive the tasks that asked for them |
| CrashSafety.LoadAfterCrash | mikrom-builder/src/state.rs:211-241 | loading after a crash is always possible and restores such a capture; before any persist has completed, some capture or the file as found |
| CrashSafety.UnseenLoadWipes | mikrom-builder/src/state.rs:212-239 | after a load that cannot look for the file, the next persist puts an empty store in the place of whatever it held |
| CrashSafety.StoreSurvivesCrash | mikrom-builder/src/state.rs:211-241 | for the build store, whatever file it started with: every record of that capture is back, only builds under way have failed |

## Left out

- External effects: NATS, Docker, HTTP, netlink, Ceph, process spawning and signals. Only the outcomes that a modelled branch depends on are there, as parameters or events.
- SHA-256: a digest is any 32 bytes, so statements about ids are about digests, not about user or job names.
- The EtherType comparison of the classifier: its outcome is the parameter isIpv6, as byte order is its only content.
- Wall clocks: times are parameters of the operations that read them; the reads within one store operation are one instant.
- RuleTable.VerdictMeanwhile: a packet is classified in the course of one update; one slow enough to meet several is not modelled.
- TrafficStats.GetStats: adds up slots that it is given; when they are copied is in ReadBetween. Addition wraps, as in a release build.
- Firewall.TryEgress: stops at the classifier's verdict; of how the agent builds rules, only that they carry no address is part of this model.
- Build metrics that are averages, maxima or last-event fields, and the percentage of build events: derived for display only.
- BuildWorker.StartedIsAccountedFor: assumes counters below 2^64, as they saturate there; BuildStore models the saturation.
- BuildStore.BuildStore.Persist: one call by itself; what other calls do between the collection of the records and the locking of the metrics is in BuildWorker and CrashSafety. Collecting the records is one step, though the map may change while it is gone through.
- BuildWorker.PermitsComeBack: says that handlers can always end, not that the scheduler lets them; a lease and its token are taken in one step, as nothing is awaited in between.
- BuildWorker.RunInvariant: a build id is one never used before; metadata arrives as a Git event at any time; a write is given up by its caller only when the whole process goes down.
- CrashSafety.FileIsRecentAndWhole: a rename is atomic and a write that reported success is read back; the sync of directories and disks is not modelled.
- CrashSafety.StoreSurvivesCrash: a file found at first is one of the current format; a legacy file is loaded as BuildStore.BuildStore.Load says.
- BuildStore.BuildStore.Load: a file that can be looked for and not read is treated as one that cannot be parsed; both are errors.
- LogTailer.TailRun: takes lossy decoding to work line by line, which is the one law about it used (BoundaryKeptIff also takes it never to shorten text); lines are valid text, where decoding changes nothing. Failed polls are in ReadNewLines; on a file that only grows they change nothing, so the runs have none.
- LogDelivery.TailAndShip: one file, and no timer between its polls; the other stream's lines come in between as any lines before a poll do in LogShipper.LogShipper.ShipPolledLines.
- LogShipper.LogShipper.Flush: what becomes of a batch once handed to the client; the batch is given up whether publishing works or not.
- GarbageCollector.FirecrackerManager.RunGc: no VM is started or changed by others during a pass; deletions succeed; released addresses and unmapped volumes are not recorded.
- GarbageCollector.SweepOfSnapshots: ids are written as 36 characters and read back as themselves; other spellings an id parser may accept are covered only by being whatever the parser makes of them.
- GarbageCollector.FirecrackerManager.Cleanup: a chroot is the set of files in it, and a path names one file.
- StatusSync.Repository.SyncDeploymentState: the time of the update, the router refresh, and failing database calls.
- Retry.ConfigureDatabase: building the request and parsing the retry window; the maximal delay is at least a second in the configuration, which the bound on attempts uses as at least 250 ms.
- Retry.Serve: the listeners of a session are its uptime.
- The scheduler, command dispatch, configuration, telemetry, the string helpers for names, tags and paths, and the dashboard: request mapping and easy members.
