# Juneau data plane and address controller: a verified model

Juneau connects workloads with a set of eBPF programs that share in-kernel
tables, and hands out addresses with a Kubernetes controller. This project
models the parts of both whose correctness spans many packets or many passes,
and proves what they promise.

* **Port-translating NAT** (`Conntrack`, `NatPlane`, `NatInvariant`,
  `NatReplies`, `NatRoundTrip`, `NatOutcomes`, `NatServices`, `NatRecords`,
  `NatExamples`, `NatPrograms`). Each program run is one atomic step on the
  conntrack table. NAPT, the host-network Service and the shared Service are
  one `Plan` with different fields. The invariant pairs every forward half with
  a reverse half of its own; the round trip follows a packet out, through any
  traffic that does not close the flow, and its reply home. `NatOutcomes` says
  from the route and the backend alone where a packet goes, `NatRecords` what it
  leaves in the table, and `NatServices` follows the two kinds of call whose
  entries overwrite.
* **Packet rewriting** (`Checksum`, `Frame`, `FrameRewrite`, `FrameQuote`,
  `FrameBuffer`, `FrameBytes`, `FrameNat`, `FrameTrailer`). Frames are byte strings. Sums are tracked exactly,
  "equal as one's-complement sums" being "apart by a multiple of 0xFFFF"
  (section 1 of RFC 1071, section 3 of RFC 1624). The copy inside an ICMP error
  is repaired under three nested checksums (section 4.2 of RFC 5508).
  `FrameNat` ties bytes and conntrack together.
* **A distributed learning switch** (`L2Switch`, `L2Node`, `L2Network`,
  `L2Delivery`, `L2Broadcast`, `L2Placement`, `L2Ask`). Many nodes, copies in flight that may
  overtake each other or get lost, tables that may change between any two
  steps, and a record of every copy a port received.
* **The policy stage** (`PolicyRules`, `SecurityGroups`, `PolicyStage`,
  `PolicyMeaning`, `PolicyCache`, `PolicyFragments`, `PolicyProgram`). Rule scans
  against what the rules mean, down to the packet's own fields; the admission cache and the fragment table over whole runs with
  rule changes, full tables and evictions.
* **Address allocation and lease expiry** (`AddressPrefix`, `AddressPool`,
  `AllocationLease`). Counting agrees with allocating; a lease outlives its
  claim for its grace period, and exactly which lost writes cut that short.

Code that works in place is a class or a method on an array, proved equal to a
function of the old state (or, for the copy rewrite, to a relation that fixes
every byte); the theorems are about those functions.

Assumptions that are `requires` clauses or part of a step:

* One packet at one hook is one step. Conntrack steps may each bring other
  tables; only the Vpc of a Subnet, the set of NAT addresses and the Service NAT
  addresses of each Vpc stay fixed (`World`).
* No Vpc is the host's keyspace, no workload has a NAT address, and no route leads
  to the Service NAT address of its own Vpc (`EnvIn`). Routes to any other NAT
  address are allowed, as a default NAPT route brings them. The last clause is
  needed: `NatExamples.StrayRouteOrphansACall` is a run that breaks the pairing
  without it.
* A round trip starts from any table a run can leave in which nothing else claims
  the packet and an allocation it would reuse still carries the addresses the
  tables decide on (`NatRoundTrip.RoundTripFrom`). A run whose tables decide alike
  always leaves such a table (`NatRoundTrip.RoundTrip`): a decision reads the
  Subnets' Vpcs, the routes, the gateways' addresses, the backends, the node's
  address and the Service NAT addresses, so ports, neighbours, claims, the table
  size and the hash may change at any step. This needs workload, node and Service
  NAT addresses apart (`FixedWorld`). Behind the packet every table may change.
* A frame is valid when its IPv4 checksum holds, its fragment offset is zero and
  its L4 checksum holds; a UDP checksum of zero counts as absent. The port
  rewrites for TCP and UDP do not look at the offset, so validity is claimed for
  offset zero only.
* Policy rules, the binding of Subnets to ACLs included, change only together
  with the epoch. The epoch is a natural number.
* Where an exact condition is told by arrivals or passes, their clock readings
  are in order: never decreasing from one fragment to the next, increasing from
  one pass over a lease to the next.
* Addresses of a pool are numbers in comparison order, IPv4 before IPv6; an
  IPv4-mapped bound has been unmapped.

Where the code and what is written beside it differ, the model follows the code.
`FirstAddr` is described as finding nothing in a prefix of two addresses; the
code returns its second address (`AddressPool.FirstAddrNeedsOneHostBit`).

Properties that do not hold without a condition are stated with it:

* The incremental checksum equals the one computed from scratch if and only if
  the new header is not all zeros (`Checksum.ReplaceWordMatchesScratch`,
  `Checksum.ReplaceAddressMatchesScratch`; `Checksum.AllZeroHeaderDiffers` is the
  exception).
* Total equals allocated plus available if and only if the total fits in 64 bits
  or nothing is allocated (`AddressPool.CountsAddUp`);
  `AddressPool.BigPoolDoesNotAddUp` is the exception.
* A translated packet's reply is handed to the sender's own Subnet if and only if
  the allocation the packet used was opened from that Subnet, as every fresh one
  is (`NatRoundTrip.RoundTrip`, `FrameNat.FrameRoundTrip`). Reuse keeps the Subnet
  of whoever opened it, and `NatExamples.ReplyMissesTheSender` is a run in which
  another Subnet's port sent the tuple first and the reply is dropped.
* The entries of a call within a Vpc lead its packets to the backend and its
  replies home until another packet writes over them. A step that closes nothing
  leaves them as they are if and only if it is not another call of the same socket
  that the same backend answers, not a call from the Service's address that the
  caller's socket answers, and not the backend's reply with a translating route of
  its own (`NatServices.CallStandsUnlessClobbered`);
  `NatServices.OneSocketTwoServices` is a run in which the first call's reply comes
  back as the second Service's. For a call to a backend on the very node: if and
  only if it is not a call from a socket that looks the same, that the same backend
  answers (`NatServices.LocalCallStandsUnlessLookalike`).
* Repairing the copy in an ICMP error keeps a valid ICMP checksum valid if and
  only if the parts of the moved fields behind the end of the message are the same
  one's-complement sum before and after (`FrameQuote.TailKept`,
  `FrameQuote.QuoteRewriteKeepsValid`), wherever the message ends. If it reaches
  the copied port, that is: it contains the copied L4 checksum, or the part
  outside does not move; for a whole word outside, old address plus old port and
  new address plus new port are the same sum (`FrameQuote.TailKeptIsContained`).
  `FrameTrailer.TornCheckBreaksTheMessage` is a frame with a TCP copy on which it
  fails, `FrameTrailer.ShortUdpBreaksTheMessage` one with a UDP copy.
* The five seconds of the fragment table bound the age of the record. For packets
  that can still come they bound the age of the showing if and only if no first
  fragment cut short before its ports has renewed the record, or more than five
  seconds have since gone by without one, or the clock ends first
  (`PolicyFragments.PortsAreFreshExactlyWithoutCutShortFirsts`);
  `PolicyFragments.RenewedPortsOutliveFiveSeconds` is a run in which one has.
* The later deletions of a waiting lease come only after the grace period if and
  only if the lease is safe (`AllocationLease.Safe`,
  `AllocationLease.DeletionsAreJustifiedExactlyWhenSafe`): no pass that saw the
  object or the live claim has lost its write while a release time was recorded,
  without that time being cleared since; or the absence that goes on now will have
  lasted for the grace period by the next reading of the clock; or the lease is
  gone, or has no grace period. `AllocationLease.LostWriteShortensTheWait` is a run
  that ends otherwise. Losing any other write is harmless.

## Model

| member | source | states |
|---|---|---|
| `Conntrack.SeededEntrySurvives` | daemon/bpf/ct.h:46-65 | an entry seeded by SYN or mid-flow is still there after a packet sequence exactly when it held no RST and at most one FIN packet |
| `Conntrack.SurvivesFrom` | daemon/bpf/ct.h:46-59 | the same from every state that is not closed: one FIN less once a FIN was seen |
| `Conntrack.StateTellsTheHistory` | daemon/bpf/ct.h:46-65 | the state of an entry says what it has seen: FinWait one FIN after the first packet, New a SYN first and nothing acknowledged since, Established the rest |
| `Conntrack.CtTable.Insert` | daemon/bpf/pod_egress.c:2097-2104 | a no-overwrite insert succeeds exactly for a free key in a table with room |
| `Conntrack.CtTable.Upsert` | daemon/bpf/pod_egress.c:905 | an overwriting write fails only for a new key in a full table |
| `Conntrack.CtTable.ObserveTcp` | daemon/bpf/ct.h:150-162 | flags and state advance; a close removes the entry and the one its derived opposite key names |
| `NatInvariant.OppositeKeyIsInvolution` | daemon/bpf/ct.h:92-145 | the derived key of each half is the other half, for every pair that is installed |
| `NatInvariant.PlanHalvesMatch` | daemon/bpf/pod_egress.c:2056-2124 | forward and reverse halves of any translation name each other, whatever port was allocated |
| `NatInvariant.ProbeFindsFreeKey` | daemon/bpf/pod_egress.c:2055-2105 | a probe that succeeds found a port of 1024 or more whose reverse key is free |
| `NatInvariant.CloseKeepsInv` | daemon/bpf/ct.h:150-162 | a close removes one flow's halves and orphans nobody else's |
| `NatInvariant.CloseTakesBothHalves` | daemon/bpf/ct.h:150-162 | a close seen on either half removes exactly the two halves |
| `NatInvariant.NoSharedTranslation` | daemon/bpf/pod_egress.c:2045-2124 | two live translated flows never share a reverse key |
| `NatInvariant.InstallKeepsInv` | daemon/bpf/pod_egress.c:2045-2124 | installing keeps every flow paired, also when the forward write fails on a full table |
| `NatInvariant.OutboundKeepsInv` | daemon/bpf/pod_egress.c:795-959 | a whole translating step keeps the pairing |
| `NatInvariant.RoutedOutKeepsInv` | daemon/bpf/pod_egress.c:1167-1440 | so does every Service and NAPT route, the overwriting ones included |
| `NatInvariant.ApplyKeepsInv` | daemon/bpf/node_ingress.c:667-811 | so does every program run |
| `NatInvariant.RunKeepsInv` | daemon/bpf/pod_egress.c:2276-2460 | every run from an empty table keeps the pairing, whatever routes, gateways, backends and table size do meanwhile, as long as no workload has a NAT address and no route leads to the Service NAT address of its own Vpc |
| `NatExamples.StrayRouteOrphansACall` | daemon/bpf/ct.h:150-162 | a concrete run with a route to the Service NAT address of its own Vpc, in which the close of one flow takes the reverse half of another |
| `NatExamples.StrayTablesAreFine` | daemon/bpf/maps.h:919-927 | without that route its tables are such as every run may bring |
| `NatRoundTrip.ReachableFlowsAreDistinct` | daemon/bpf/pod_egress.c:973-1154 | in every reachable state distinct flows differ on the wire within a keyspace, each reverse entry leads back to its own flow alone, and no entry is closed |
| `NatRoundTrip.RoutedPacketsReachTheirHandler` | daemon/bpf/pod_egress.c:1453-1576 | after runs whose tables decide alike a packet with a translating route is never taken for a recorded reply or a same-Vpc Service flow |
| `NatRoundTrip.AllocationsStand` | daemon/bpf/pod_egress.c:2045-2124 | and an allocation in use carries the addresses the tables decide on |
| `NatReplies.ReplyEntryIsStable` | daemon/bpf/pod_egress.c:2056-2124 | no step changes where a reply entry in the table leads |
| `NatRoundTrip.ReplyEntryWaits` | daemon/bpf/pod_egress.c:2045-2140 | after a translated packet its reply entry is in the table exactly when that packet did not close the flow |
| `NatRoundTrip.ReplyIsDelivered` | daemon/bpf/node_ingress.c:308-445 | each reply hook makes of the reply the exact mirror of the packet that was sent, and hands it to the Subnet its entry names or drops it |
| `NatRoundTrip.SharedReplyOnThisNode` | daemon/bpf/pod_egress.c:1560-1660 | so does the workload hook for a shared Service's reply that starts on the caller's node |
| `NatReplies.UnclosedEntryIsHeld` | daemon/bpf/ct.h:150-162 | a reply entry stays through every run without a closing TCP packet of either side of its flow |
| `NatReplies.RunNamesOpener` | daemon/bpf/pod_egress.c:2045-2124 | after any run the reply entry of an allocation in use names the Subnet whose packet made that allocation |
| `NatReplies.OpenerSentThatFlow` | daemon/bpf/pod_egress.c:2045-2124 | and that Subnet did send a packet with the flow's tuple |
| `NatRoundTrip.OnlySenderOpens` | daemon/bpf/pod_egress.c:2045-2047 | if no other Subnet's port sent the tuple, the allocation in use was opened from the sender's Subnet |
| `NatRoundTrip.ReplyEntryNamesTheSender` | daemon/bpf/pod_egress.c:2045-2140 | the reply entry a packet leaves behind names its own Subnet exactly when that Subnet opened the allocation |
| `NatRoundTrip.RoundTripFrom` | daemon/bpf/pod_egress.c:1972-2177 | from any table a run can leave, whatever the tables were before, are at the packet and become later: a packet nothing else claims and whose allocation is not outdated goes out; the reply to the translated tuple, before the flow is closed, is the mirror of the packet sent, and it is handed to the sender's own Subnet exactly when the allocation was opened from there |
| `NatRoundTrip.RoundTrip` | daemon/bpf/pod_egress.c:1972-2177 | the same for every packet with a translating route after any run whose tables decide alike |
| `NatExamples.ReplyMissesTheSender` | daemon/bpf/pod_egress.c:2045-2047 | a concrete run in which the allocation was opened from another Subnet and the reply is dropped |
| `NatReplies.OnlyItsOwnPacketsEndAFlow` | daemon/bpf/ct.h:150-162 | only a closing TCP packet of the flow itself can take its reply entry away |
| `NatRoundTrip.InboundErrorQuotesTheSender` | daemon/bpf/node_ingress.c:772-787 | a router's error about a live NAPT flow finds that flow, quotes the tuple its workload used, and is handed to the Subnet the reply entry names or dropped |
| `NatRoundTrip.InboundErrorReachesTheOpener` | daemon/bpf/node_ingress.c:772-787 | after any run that is the Subnet whose packet opened the flow |
| `NatRoundTrip.OutboundErrorQuotesThePeer` | daemon/bpf/pod_egress.c:1885-1960 | a workload's error about a live NAPT flow leaves quoting the tuple the peer used |
| `NatPrograms.ClaimPort` | daemon/bpf/pod_egress.c:2048-2108 | the bounded probe loop claims the first free candidate and writes nothing otherwise |
| `NatOutcomes.NewFlowGetsFirstFreePort` | daemon/bpf/pod_egress.c:2048-2108 | a new flow is refused exactly when the table is full or eight probes in a row meet a reply key in use; otherwise it gets the first free one |
| `NatOutcomes.EveryPortIsReached` | daemon/bpf/pod_egress.c:2057 | every port of 1024 and above is some seed's first candidate |
| `NatOutcomes.StirringIsUndone` | daemon/bpf/pod_egress.c:590-593 | stirring the seed between probes loses nothing |
| `NatOutcomes.InternetPacketLeaves` | daemon/bpf/pod_egress.c:1972-2177 | a packet with an internet route leaves from the gateway's address with its destination untouched, from the port allocated before or a fresh one of 1024 or more, or is dropped |
| `NatOutcomes.HostCallLeaves` | daemon/bpf/pod_egress.c:794-959 | a call to a host-network backend on another node leaves from the node's address for the backend's address and port |
| `NatOutcomes.SharedCallLeaves` | daemon/bpf/pod_egress.c:972-1154 | a call to another Vpc's backend leaves from the Service NAT address of the backend's Vpc for the backend's address and port |
| `NatOutcomes.OwnCallLeaves` | daemon/bpf/pod_egress.c:1345-1440 | a call within the Vpc goes to the backend with its source untouched; one to a backend on this node goes to the host stack the same way |
| `NatOutcomes.OtherPacketsEndHere` | daemon/bpf/pod_egress.c:1166-1268 | every other packet with a route is dropped, one without is left to other paths, and nothing is recorded |
| `NatOutcomes.BackendKindsAreDistinct` | daemon/bpf/pod_egress.c:1307-1347 | kind, Subnet and owner sort every backend into exactly one of the four handlers |
| `NatRecords.InternetFlowIsRecorded` | daemon/bpf/pod_egress.c:2045-2140 | the two entries a new NAPT flow leaves, field by field, for every set of TCP flags of its first packet and every fill of the table |
| `NatRecords.HostCallIsRecorded` | daemon/bpf/pod_egress.c:794-959 | the same for a call to a host-network backend on another node |
| `NatRecords.SharedCallIsRecorded` | daemon/bpf/pod_egress.c:972-1154 | the same for a call to another Vpc's backend |
| `NatRecords.OwnCallIsRecorded` | daemon/bpf/pod_egress.c:1350-1400 | the two overwriting entries of a call within the Vpc |
| `NatRecords.LocalCallIsRecorded` | daemon/bpf/pod_egress.c:667-786 | the one overwriting entry of a call to a backend on this node |
| `NatRecords.RefusedFlowLeavesNothing` | daemon/bpf/pod_egress.c:2107-2108 | a flow that is dropped on its way out leaves the table as it was |
| `NatRecords.OtherHalfMeetsTheAnswers` | daemon/bpf/ct.h:92-145 | for every entry the derived opposite key is where answers to the rewritten packet are looked up |
| `NatRecords.FurtherPacketMeetsItsEntry` | daemon/bpf/pod_egress.c:2042-2047 | a further packet of a translated flow changes its own entry only: time, flags and state, or on an end both halves go |
| `NatRecords.ClaimedPacketMeetsItsEntry` | daemon/bpf/node_ingress.c:308-445 | so does every packet that a recorded reply, or a recorded Service call, claims at any of the four hooks; it leaves rewritten field by field as the entry says, or a reply with no neighbour is dropped and leaves nothing |
| `NatRecords.ErrorsAreTranslated` | daemon/bpf/pod_egress.c:1885-1994 | an ICMP error about a translated flow goes on with its address and its copy rewritten as the entry says, and only the entry's time changes |
| `NatRecords.UnclaimedPacketsGoOn` | daemon/bpf/node_ingress.c:667-811 | a packet that no entry claims changes nothing, and each hook passes it on, leaves it to the host stack or drops it by claims and routes alone |
| `NatServices.OnlyClosesRemove` | daemon/bpf/ct.h:150-162 | in every reachable table only a closing TCP packet takes an entry away, and only its own or its other half |
| `NatServices.CallIsRemembered` | daemon/bpf/pod_egress.c:1350-1440 | the first packet of a call within the Vpc is remembered each way exactly as far as the table has room |
| `NatServices.LaterPacketsFollow` | daemon/bpf/pod_egress.c:1696-1780 | later packets follow the entry whatever the tables say by then, exactly unless a recorded host reply claims them |
| `NatServices.ReplyIsRestored` | daemon/bpf/nat.h:672-747 | the backend's reply becomes the exact mirror of what the caller sent, addresses and both ports |
| `NatServices.CallStandsUnlessClobbered` | daemon/bpf/pod_egress.c:1350-1400 | a step that is no close keeps both entries of a call exactly when it is none of the three packets that write over them |
| `NatServices.CallRoundTrip` | daemon/bpf/nat.h:672-747 | after any run and through any undisturbed run: the call goes to the backend, later packets too, and the reply comes back as its exact mirror |
| `NatServices.SameSocketTakesTheReply` | daemon/bpf/pod_egress.c:1373-1393 | what another call of the same socket does: the reply reaches the socket as the other Service's |
| `NatServices.OneSocketTwoServices` | daemon/bpf/pod_egress.c:1373-1393 | a concrete run of that |
| `NatServices.LocalCallIsRemembered` | daemon/bpf/pod_egress.c:667-786 | a call to a backend on this node is remembered exactly if the table has room |
| `NatServices.LocalReplyIsHandedBack` | daemon/bpf/pod_egress.c:1453-1576 | its reply is the exact mirror of what the caller sent, handed to the caller's Subnet or dropped |
| `NatServices.LocalCallStandsUnlessLookalike` | daemon/bpf/pod_egress.c:667-786 | a step that is no close keeps its entry exactly when it is no call from a socket that looks the same, that the same backend answers |
| `NatServices.LocalCallRoundTrip` | daemon/bpf/pod_egress.c:1453-1576 | the round trip of such a call, after any run and through any undisturbed run |
| `NatPrograms.HandleTranslation` | daemon/bpf/pod_egress.c:2045-2177 | lookups, claim and writes add up to the outbound step |
| `NatPrograms.HandleRouted` | daemon/bpf/pod_egress.c:1167-1440 | the route dispatch writes what the routed step says |
| `NatPrograms.HandleReply` | daemon/bpf/node_ingress.c:308-445 | the shared reverse rewrite is the inbound step |
| `NatPrograms.RunPodEgress` | daemon/bpf/pod_egress.c:2276-2460 | the egress program is its step |
| `NatPrograms.RunNodeIngress` | daemon/bpf/node_ingress.c:667-811 | the node ingress program is its step |
| `NatPrograms.RunVxlanIngress` | daemon/bpf/vxlan_ingress.c:137-257 | the overlay reply leg of a shared Service is its step |
| `NatPrograms.RunPodIngress` | daemon/bpf/nat.h:672-747 | the reply leg of a same-Vpc Service is its step |
| `Checksum.CsumAdd` | daemon/bpf/nat.h:65-68 | end-around carry keeps the one's-complement sum, and makes zero only of zeros |
| `Checksum.CsumSub` | daemon/bpf/nat.h:70-72 | the same for subtraction |
| `Checksum.CsumFold` | daemon/bpf/nat.h:74-78 | two folds bring any 32-bit sum to the complemented 16-bit one; 0xFFFF only for zero |
| `Checksum.Csum16Replace` | daemon/bpf/nat.h:86-89 | the new checksum is the old plus the old field minus the new one, and never 0xFFFF |
| `Checksum.ReplaceWordMatchesScratch` | daemon/bpf/nat.h:80-89 | for every valid old checksum, the update of one word equals the checksum from scratch exactly when the new words are not all zero |
| `Checksum.ReplaceAddressMatchesScratch` | daemon/bpf/nat.h:80-89 | the same for a 32-bit field |
| `Checksum.AllZeroHeaderDiffers` | daemon/bpf/nat.h:86-89 | a concrete header where the two differ |
| `Checksum.ByteOrderDoesNotMatter` | daemon/bpf/nat.h:63-89 | computing on byte-swapped fields gives the byte-swapped result |
| `Frame.SumMovedThrice` | daemon/bpf/nat.h:387-424 | what changing a checksum and an address does to the sum of a header |
| `FrameRewrite.ReplaceIsSound` | daemon/bpf/nat.h:80-89 | the repository's own update is such a helper, so all rewrite results apply to it |
| `FrameRewrite.UpdateL4CheckFields` | daemon/bpf/nat.h:343-382 | the L4 checksum moves against the address exactly when one covers it, and no other byte moves |
| `FrameRewrite.RewriteAddrFields` | daemon/bpf/nat.h:387-424 | an address rewrite stores the address, moves the two checksums against it, and leaves every other byte |
| `FrameRewrite.RewriteAddrKeepsValid` | daemon/bpf/nat.h:387-424 | a valid frame stays valid under an address rewrite |
| `FrameRewrite.RewriteAddrTuple` | daemon/bpf/nat.h:387-424 | every packet with a tuple can be rewritten; one address of the tuple changes and nothing else |
| `FrameRewrite.RewritePortFields` | daemon/bpf/nat.h:430-491 | a port rewrite stores the port or Identifier and moves its checksum; an absent UDP checksum stays absent |
| `FrameRewrite.RewritePortKeepsValid` | daemon/bpf/nat.h:430-491 | a valid frame stays valid under a port rewrite |
| `FrameRewrite.RewritePortTuple` | daemon/bpf/nat.h:188-200 | read back, the named port changed; an Echo's Identifier changed in both slots |
| `FrameRewrite.RewriteRenames` | daemon/bpf/nat.h:642-657 | address and port together rename exactly one side of the tuple |
| `FrameRewrite.RewriteKeepsValid` | daemon/bpf/nat.h:642-657 | and keep the frame valid |
| `FrameQuote.ReadQuoteParses` | daemon/bpf/nat.h:258-338 | a copy that parses lies inside the frame, field by field |
| `FrameQuote.NewChecksApart` | daemon/bpf/nat.h:536-559 | how the three new checksum values relate to the fields that moved |
| `Frame.SumMovedAt` | daemon/bpf/nat.h:546-556 | any words that change move a sum by their parts in its range |
| `FrameQuote.QuoteRewriteKeepsValid` | daemon/bpf/nat.h:517-576 | wherever the message ends: rewriting the copy keeps the copied IP checksum valid if it was, and the copied L4 checksum if the message reaches it and the port; it keeps a valid outer ICMP checksum valid exactly when the parts of the moved fields behind the message end add up as before |
| `FrameQuote.TailKeptIsContained` | daemon/bpf/nat.h:304-336 | for a message that reaches the copied port, that is exactly when the copied L4 checksum is contained in it or the part outside does not move |
| `FrameQuote.QuoteRewriteRenames` | daemon/bpf/nat.h:493-573 | the copy parses as before and shows the new address and port on the mirrored side |
| `FrameQuote.QuoteRewriteKeepsOuterHeader` | daemon/bpf/nat.h:504-576 | the outer IP header is untouched |
| `FrameQuote.QuoteRewriteIsUnique` | daemon/bpf/nat.h:517-576 | the description of the rewrite fixes every byte of the frame |
| `FrameBuffer.UpdateL4Checksum` | daemon/bpf/nat.h:343-382 | the in-place checksum update is its function, failures included |
| `FrameBuffer.RewriteAddrInPlace` | daemon/bpf/nat.h:387-424 | the in-place address rewrite is its function |
| `FrameBuffer.RewritePortInPlace` | daemon/bpf/nat.h:430-491 | the in-place port rewrite is its function |
| `FrameBuffer.RewriteQuoteInPlace` | daemon/bpf/nat.h:517-576 | the five stores leave the frame the relation describes |
| `FrameBuffer.FixupOneToOne` | daemon/bpf/nat.h:603-627 | the three return codes, and that only code 1 changes the frame |
| `FrameBuffer.FixupMovesOneAddress` | daemon/bpf/nat.h:578-627 | a 1:1 repair moves one address of the copy and nothing else of its tuple |
| `FrameBytes.TupleIsReadFromBytes` | daemon/bpf/nat.h:128-200 | which frames show a tuple, and its five fields, in terms of the bytes at the offsets the standards give |
| `FrameBytes.AddrRewritesGoThrough` | daemon/bpf/nat.h:343-424 | an address rewrite goes through exactly if the address is there already or the checksums over it lie within the frame |
| `FrameBytes.PortRewritesGoThrough` | daemon/bpf/nat.h:430-491 | a port rewrite goes through exactly on the frames that show a tuple |
| `FrameBytes.CopyIsReadFromBytes` | daemon/bpf/nat.h:258-338 | which frames carry a copy that can be repaired, and the five fields of its tuple, byte by byte |
| `FrameBytes.FixupAnswers` | daemon/bpf/nat.h:603-627 | the 1:1 fix-up answers 0 exactly for a frame with an IP header that is no unfragmented ICMP message of type 3, 4, 5, 11 or 12, every frame with a tuple among them; 1 exactly for such a message whose copy can be read and names the old address on the mirrored side; -1 for all others |
| `FrameNat.PacketIsReadFromBytes` | daemon/bpf/ct.h:31-43 | every frame with an IPv4 header is a flow, an ICMP error or neither, told by its bytes; a flow's flags are the four tracked bits of its thirteenth TCP byte |
| `FrameNat.TranslateFrameAgrees` | daemon/bpf/pod_egress.c:2140-2145 | the frame a handler sends is the packet its step forwards, flags included, still valid |
| `FrameNat.ReverseFrameAgrees` | daemon/bpf/nat.h:642-657 | the frame a reply hook writes is the packet its step delivers, still valid |
| `FrameNat.FrameRoundTrip` | daemon/bpf/vxlan_ingress.c:137-257 | on the wire, after any run whose tables decide alike: a valid frame leaves valid as the translated flow; any valid frame answering it before the flow is closed becomes a valid frame of the exact mirror, handed to the sender's Subnet exactly when the allocation was opened from there |
| `FrameNat.ErrorFrameAgrees` | daemon/bpf/node_ingress.c:389-394 | an ICMP error through the NAT quotes the tuple its receiver uses, with both IP checksums and the copied L4 checksum still right, and the ICMP checksum exactly when what lies behind the message end adds up as before |
| `FrameTrailer.RewriteExists` | daemon/bpf/nat.h:517-576 | every copy that parses can be rewritten |
| `FrameTrailer.TornCheckBreaksTheMessage` | daemon/bpf/nat.h:310-311 | a concrete frame with a trailer whose right ICMP checksum the rewrite makes wrong |
| `FrameTrailer.TornErrorLeavesWrong` | daemon/bpf/nat.h:551-559 | it leaves the NAT with that wrong checksum |
| `FrameTrailer.ShortUdpBreaksTheMessage` | daemon/bpf/nat.h:317-325 | a concrete frame with a UDP copy that the message cuts off before its checksum, broken alike |
| `FrameNat.InboundErrorOnTheWire` | daemon/bpf/node_ingress.c:772-787 | an error frame about a live NAPT flow reaches the workload as the packet its step delivers, quoting the tuple the workload used |
| `FrameNat.OutboundErrorOnTheWire` | daemon/bpf/pod_egress.c:1885-1994 | a workload's error frame leaves as the packet its step forwards, quoting the tuple the peer used |
| `FrameNat.TranslateInPlace` | daemon/bpf/pod_egress.c:918-925 | the handler's four rewrites in the buffer |
| `FrameNat.ReverseInPlace` | daemon/bpf/nat.h:642-657 | the reverse rewrite in the buffer |
| `FrameNat.RewriteErrorInPlace` | daemon/bpf/pod_egress.c:1946-1994 | copy first, outer address second; fails exactly when no copy parses |
| `L2Switch.EgressStaysApart` | daemon/bpf/l2_egress.c:21-145 | nothing goes back to the port it came from or to this very node, and no table comes to name this node as remote |
| `L2Switch.GatewayStaysApart` | daemon/bpf/l2_gateway.c:113-247 | the same for what the gateway puts on the segment |
| `L2Switch.OverlayNeverRelays` | daemon/bpf/vxlan_ingress.c:35-124 | split horizon: what the overlay delivered is never put back on it |
| `L2Node.TakeHop` | daemon/bpf/l2.h:61-69 | a hop is taken below the limit only, counts one, and leaves the other bits of the mark |
| `L2Node.IngressIsForGateways` | daemon/bpf/l2.h:357-381 | where entries and ports agree on which ports are gateways, exactly the copies to a gateway port are handed over on ingress, whichever hook makes them |
| `L2Node.ChainsAreBounded` | daemon/bpf/l2.h:53-69 | no chain of hook runs on one node, each on a copy the last one made, hands a frame to a gateway port more than four times |
| `L2Node.CopyToPort` | daemon/bpf/l2.h:357-381 | the walk's callback copies to exactly the ports a flood may take |
| `L2Node.FloodLocal` | daemon/bpf/l2.h:438-441 | the local walk reaches exactly its ports, each once, in any order of the walk |
| `L2Node.FloodRemote` | daemon/bpf/l2.h:383-402 | the remote walk adds each node once, behind the local copies |
| `L2Node.FloodPorts` | daemon/bpf/l2.h:424-468 | a flood reaches exactly its targets, each once; no local hand-off follows a tunnel stamp; gateway copies are handed over on ingress and counted |
| `L2Node.Node.Learn` | daemon/bpf/l2.h:315-343 | learning in place, with the gateway entry pinned, and when it counts as news |
| `L2Node.Node.Snoop` | daemon/bpf/l2.h:133-173 | ARP recording in place, and the two ways a frame can concern a gateway |
| `L2Node.Node.ProbeTake` | daemon/bpf/l2.h:190-205 | asking is paced |
| `L2Node.Node.ForwardUnicast` | daemon/bpf/l2.h:603-665 | a known MAC goes to its one place, or is dropped, or has to be flooded |
| `L2Delivery.WorkloadFrameGoes` | daemon/bpf/l2_egress.c:21-145 | a workload's frame: group addresses and unlearned MACs reach every other workload port, the gateway port below four hand-offs and every node of the flood list; a learned MAC reaches its one place |
| `L2Delivery.AnswerGoes` | daemon/bpf/l2.h:424-506 | an answer to the gateway reaches the gateway port, every node of the list and the node that asked within five seconds, and no workload |
| `L2Delivery.WorkloadFrameTeaches` | daemon/bpf/l2.h:315-343 | what a workload's frame changes in the tables: its sender's place, unless a gateway's, and its sender's address if it is ARP |
| `L2Delivery.OverlayFrameGoes` | daemon/bpf/vxlan_ingress.c:35-124 | a frame from another node reaches the port that holds its destination or every workload port, and no node again |
| `L2Delivery.OverlayFrameTeaches` | daemon/bpf/vxlan_ingress.c:58-99 | what it changes in the tables, who asked included |
| `L2Delivery.GatewayFrameGoes` | daemon/bpf/l2_gateway.c:113-247 | a packet for a resolved address is signed by the gateway and goes where its MAC is; ARP goes as it is |
| `L2Delivery.GatewayAsksForUnresolved` | daemon/bpf/l2_gateway.c:51-111 | for an unresolved address of its prefix the gateway floods one request, at most once a second |
| `L2Delivery.StrayPortsAreSilent` | daemon/bpf/l2_gateway.c:113-135 | a port the segment does not have, or one that is not its gateway's, puts nothing on it and changes nothing |
| `L2Delivery.GatewayGetsItsFrames` | daemon/bpf/l2.h:603-665 | over the network's record: a frame to the MAC of a gateway entry reaches the port it names exactly once and nothing else, and nothing at all after four hand-offs |
| `L2Delivery.UnlearnedIsFlooded` | daemon/bpf/l2.h:345-468 | over the network's record: a frame to an unlearned MAC reaches every other workload port exactly once and is sent once to every node of the flood list |
| `L2Node.Node.HandleEgress` | daemon/bpf/l2_egress.c:21-145 | the workload hook is its step |
| `L2Node.Node.HandleOverlay` | daemon/bpf/vxlan_ingress.c:35-124 | the tunnel hook is its step |
| `L2Node.Node.HandleGateway` | daemon/bpf/l2_gateway.c:113-247 | the gateway hook is its step |
| `L2Node.Node.AskTheSegment` | daemon/bpf/l2_gateway.c:51-111 | asking stays in the prefix and the pace, and floods one request |
| `L2Network.ApplyKeepsNetOk` | daemon/bpf/l2.h:404-468 | every step on every node keeps the record: one copy per port, one crossing per node, none in flight to a node that has the frame |
| `L2Network.EveryFrameAtMostOnce` | daemon/bpf/vxlan_ingress.c:35-124 | over every run, with tables changing freely: a frame reaches each port at most once, never its own, and crosses to each node at most once |
| `L2Broadcast.ReceivedBroadcast` | daemon/bpf/l2.h:345-381 | a node that receives a broadcast copies it to all workload ports and to no gateway |
| `L2Broadcast.ApplyKeepsFlooding` | daemon/bpf/l2.h:424-468 | every step keeps the exact count of a broadcast's copies per port |
| `L2Broadcast.BroadcastReachesAll` | daemon/bpf/l2.h:345-468 | with complete flood lists a broadcast whose copies arrived reached every other workload port exactly once, and of the gateways the origin's alone, unless the hop count is at its limit |
| `L2Placement.LearningPlaces` | daemon/bpf/l2.h:315-343 | a frame from its home places a host in the table that sees it |
| `L2Placement.ApplyKeepsKnown` | daemon/bpf/l2.h:295-343 | every step that does not show the MAC elsewhere keeps all nodes knowing the host's place |
| `L2Placement.BroadcastTeachesAll` | daemon/bpf/vxlan_ingress.c:58-123 | after a host's broadcast every node its copies reached knows where it is |
| `L2Placement.UnicastReachesOnlyItsPort` | daemon/bpf/l2.h:603-665 | from then until the MAC is seen elsewhere, a unicast from any port of any node reaches the host's port, exactly once unless lost, and no other port |
| `L2Placement.GatewayUnicastReachesOnlyItsPort` | daemon/bpf/l2_gateway.c:192-246 | the same for what any gateway sends to the host's address |
| `L2Ask.QuestionIsSent` | daemon/bpf/l2_gateway.c:51-111 | the question leaves for every node of the flood list |
| `L2Ask.QuestionIsRemembered` | daemon/bpf/vxlan_ingress.c:69-85 | the receiving node writes down who asked and shows the question to every workload port |
| `L2Ask.RunKeepsRecord` | daemon/bpf/l2.h:225-260 | the record survives any run in which no other node asks |
| `L2Ask.AnswerIsSent` | daemon/bpf/l2_egress.c:93-114 | within the time to live the answer is addressed to the node that asked, listed or not, and to no workload port |
| `L2Ask.AnswerIsRead` | daemon/bpf/vxlan_ingress.c:87-99 | the node that asked reads the address and passes the answer to no port |
| `L2Ask.AskIsAnswered` | daemon/bpf/l2.h:424-468 | over every run, exactly one copy of the answer is sent to the node that asked, and once it arrives the address is resolved there |
| `L2Ask.GatewayGetsItsAnswer` | daemon/bpf/l2_gateway.c:51-111 | the whole exchange, from the gateway's question to its resolved address |
| `L2Ask.LocalAnswerResolves` | daemon/bpf/l2_egress.c:81-86 | an answer on the asking node itself resolves the address at once |
| `PolicyRules.CidrIsBlock` | daemon/bpf/policy_match.h:51-58 | a CIDR rule matches exactly the addresses of its aligned block |
| `PolicyRules.AclEvaluate` | daemon/bpf/acl.h:64-122 | the scan returns the verdict of the first match of its window, terminal deny when none matches, and pass exactly when the direction is not enforced |
| `PolicyRules.AclVerdictIsWhatItSays` | daemon/bpf/acl.h:45-56 | that description admits one verdict only |
| `PolicyRules.LowestPriorityMatchDecides` | daemon/bpf/acl.h:87-121 | on a window in priority order the lowest-numbered match decides |
| `PolicyRules.AclDirectionsAreIndependent` | daemon/bpf/acl.h:87-91 | one direction's verdict does not see the other's window |
| `SecurityGroups.PeerSetContains` | daemon/bpf/sg.h:79-93 | the peer's group list, cut at the slots an interface has |
| `SecurityGroups.EvalOneGroup` | daemon/bpf/sg.h:135-180 | a group allows exactly when some rule of its window does |
| `SecurityGroups.ScanGroups` | daemon/bpf/sg.h:236-283 | the outer loop finds a group that allows, and whether any declares the direction |
| `SecurityGroups.Evaluate` | daemon/bpf/sg.h:208-300 | the nested scan is "some declared rule allows", with the egress default |
| `SecurityGroups.OrderDoesNotMatter` | daemon/bpf/sg.h:208-300 | no order of groups or rules, on either side, changes the verdict |
| `SecurityGroups.DirectionsAreIndependent` | daemon/bpf/sg.h:245-264 | one direction's verdict does not see the other's window |
| `PolicyStage.ReverseKeepsProtected` | daemon/bpf/policy_ct.h:45-58 | mirroring a key is its own inverse and keeps scope, epoch and the protected address |
| `PolicyStage.UnjudgedPacketsEscapeNoRule` | daemon/bpf/policy.h:68-82 | a packet let through without ports could not have been denied by either layer, whatever its ports |
| `PolicyMeaning.AclMeans` | daemon/bpf/acl.h:64-122 | an ACL denies exactly if it lists the direction and the first of its at most sixteen rules that hits protocol, port and block is not an allowing one |
| `PolicyMeaning.SgMeans` | daemon/bpf/sg.h:208-300 | the groups deny exactly if none of the at most two in force has an allowing rule that hits, and one speaks of the direction or it is ingress |
| `PolicyMeaning.NewPacketsAreJudged` | daemon/bpf/policy.h:189-250 | the code of every packet no admission covers, from its own fields: -1 exactly if the ACL of the hook's own address denies its protocol and destination port with the other address as peer, -3 if not that but the groups do, 1 if it is admitted and an ACL or a group stands there, 0 otherwise |
| `PolicyMeaning.NewPacketsMeetTheAcl` | daemon/bpf/policy.h:189-215 | the same -1 in terms of the verdict the ACL's rule list admits |
| `PolicyMeaning.SourcePortIsNotJudged` | daemon/bpf/policy.h:189-250 | two new packets that differ in their source ports get the same code |
| `PolicyMeaning.UnjudgedPacketsAreDropped` | daemon/bpf/policy.h:68-82 | a packet that shows and recovers no ports gets -4 exactly if an ACL list or a group polices the direction |
| `PolicyMeaning.AdmissionsAreWritten` | daemon/bpf/policy_ct.h:100-119 | what judging a new packet writes, entry by entry, for every fill of the table |
| `PolicyMeaning.AdmittedPacketsPass` | daemon/bpf/policy_ct.h:127-139 | a packet of an admitted flow passes, and how its flags change or remove its entries |
| `PolicyCache.InstallKeepsPairs` | daemon/bpf/policy_ct.h:100-119 | reverse half first: a forward half stands beside its reverse half, table full or not |
| `PolicyCache.RunKeepsInv` | daemon/bpf/policy.h:116-251 | every run keeps entries vouched for, pairs standing and none closed |
| `PolicyCache.ShortcutsAreVouchedFor` | daemon/bpf/policy.h:174-187 | after any run a shortcut rests on a step of the run whose packet, of the flow or its mirror at the peer hook, was evaluated and admitted in this epoch, by the rules in force, for the same workload |
| `PolicyCache.ForwardHalvesAreNeverAlone` | daemon/bpf/policy_ct.h:83-119 | in every reachable state a forward half has its reverse half beside it |
| `PolicyCache.CloseTakesBothHalves` | daemon/bpf/policy_ct.h:127-139 | in every reachable state a closing packet at either hook removes exactly the forward half and the reverse half beside it |
| `PolicyCache.AdmissionsServeOneWorkload` | daemon/bpf/policy_ct.h:24-119 | a packet never adds, changes or removes an admission for another workload than its own |
| `PolicyCache.RuleChangeEmptiesTheCache` | daemon/bpf/policy.h:156-178 | right after a rule change no packet passes on the shortcut |
| `PolicyCache.ReplyTakesTheShortcut` | daemon/bpf/policy.h:226-250 | an admission the table had room for lets the reply back in at the peer hook |
| `PolicyFragments.TableIsTheTrace` | daemon/bpf/policy_tuple.h:124-176 | after any run the record of a datagram is what its arrivals and evictions alone make it |
| `PolicyFragments.JudgedPortsWereShown` | daemon/bpf/policy.h:126-150 | after any run a packet that shows no ports is judged exactly while the record is fresh, on the ports the last showing first fragment with its key showed |
| `PolicyFragments.PortsAreFreshUnlessRenewed` | daemon/bpf/policy_tuple.h:143-176 | for packets that can still come those ports are at most five seconds old exactly when the record was not renewed since they were shown or has run out, or the clock ends first |
| `PolicyFragments.PortsAreFreshExactlyWithoutCutShortFirsts` | daemon/bpf/policy_tuple.h:143-176 | and that is exactly when no first fragment with the key was cut short within five seconds after the showing, or more than five seconds have gone by since without one, or the clock ends first |
| `PolicyFragments.RenewedPortsOutliveFiveSeconds` | daemon/bpf/policy.h:126-150 | a concrete run judged on ports shown 9.7 seconds before |
| `PolicyProgram.PolicyTables.Install` | daemon/bpf/policy_ct.h:100-119 | the two writes and their failure counters |
| `PolicyProgram.PolicyTables.Touch` | daemon/bpf/policy_ct.h:127-139 | refresh, state step and removal of the pair, in place |
| `PolicyProgram.PolicyTables.EvaluateLayers` | daemon/bpf/policy.h:196-238 | ACL before SecurityGroup, and the code each denial gets |
| `PolicyProgram.PolicyTables.ApplyPolicy` | daemon/bpf/policy.h:116-251 | the whole stage is its step, with every return code |
| `AddressPrefix.LastAddr` | controller/internal/addressrange/prefix.go:22-40 | the byte loop sets exactly the host bits |
| `AddressPrefix.FloodedIsLast` | controller/internal/addressrange/prefix.go:22-40 | which is the network address plus 2^hostBits - 1 |
| `AddressPrefix.PrefixEnds` | controller/internal/addressrange/prefix.go:22-40 | first and last address bound a block of 2^hostBits that holds the written address |
| `AddressPrefix.MaskedRoundsDown` | controller/internal/addressrange/prefix.go:22-40 | and the first is the written address rounded down to a multiple of 2^hostBits |
| `AddressPool.PrefixIsBlock` | controller/internal/controller/allocation_ranges.go:55-66 | a CIDR entry spans its aligned block, keeps the edges back where there is room, and always leaves something to allocate |
| `AddressPool.PrefixKeepsItsFamily` | controller/internal/controller/allocation_ranges.go:55-66 | every address of it is of the family the entry was written in |
| `AddressPool.FromBounds` | controller/internal/controller/allocation_ranges.go:69-82 | a range of one family in order spans its two bounds and is allocated in full; mixed and reversed ones are refused |
| `AddressPool.FirstAddrNeedsOneHostBit` | controller/internal/addressrange/prefix.go:45-52 | every prefix but a single address yields the address after its network address |
| `AddressPool.MergeRanges` | controller/internal/controller/addresspool_counts.go:82-100 | sorted, disjoint, and the same set of addresses |
| `AddressPool.SizesCountAddrs` | controller/internal/controller/addresspool_counts.go:112-116 | sizes of disjoint ranges add up to the number of addresses |
| `AddressPool.CountPoolAddresses` | controller/internal/controller/addresspool_counts.go:44-78 | total, allocated and available are the cardinalities of the allocatable, unexcluded addresses: all, used and free, capped |
| `AddressPool.CapInt64` | controller/internal/controller/addresspool_counts.go:118-123 | a count that fits in 64 bits is kept, a larger one is the largest that does |
| `AddressPool.CountsAddUp` | controller/internal/controller/addresspool_counts.go:28-34 | total is allocated plus available exactly when the total fits or nothing is allocated |
| `AddressPool.BigPoolDoesNotAddUp` | controller/internal/controller/addresspool_counts.go:28-34 | every IPv6 /64 with one address in use reports as many available as there are in total |
| `AddressPool.FirstFit` | controller/internal/controller/allocation_ranges.go:175-187 | the scan ends, returns the first free address in scan order, and fails only when every address is used |
| `AddressPool.FirstFreeIsUnique` | controller/internal/controller/allocation_ranges.go:173-187 | there is at most one first free address |
| `AddressPool.AllocateIp` | controller/internal/controller/allocationclaim_controller.go:404-428 | allocation over used and excluded addresses succeeds exactly when the pool counts an address available |
| `AllocationLease.Lease.Reconcile` | controller/internal/controller/allocationlease_controller.go:88-204 | one pass in place: status, deletion, requeue and failure, for every branch and for a lost status write |
| `AllocationLease.RunKeepsMemory` | controller/internal/controller/allocationlease_controller.go:154-160 | the recorded release time is the start of the uninterrupted absence, over every run whose writes go through |
| `AllocationLease.DeletedExactlyAfterGrace` | controller/internal/controller/allocationlease_controller.go:116-189 | after any run whose writes went through a pass deletes exactly when the lease is there, the claim is deleted and the grace period is over |
| `AllocationLease.PassTellsWhereTheLeaseStands` | controller/internal/controller/allocationlease_controller.go:88-218 | after any run whose writes went through, phase, times, readiness and requeue of a pass: Active while the claim lives, Retained and back after five minutes while the object exists, Retained and failed if that cannot be read, Released until the grace period is over with the pass that deletes it asked for in time, Expired then |
| `AllocationLease.WaitingLeaseOutlivesItsObject` | controller/internal/controller/allocationlease_controller.go:119-189 | a waiting lease goes only once the time to live has passed since a pass that saw the object gone, with no later pass seeing it or the claim alive; writes may be lost as long as none left the release time stale |
| `AllocationLease.DeletionsAreJustifiedExactlyWhenSafe` | controller/internal/controller/allocationlease_controller.go:116-189 | after any run, every deletion at a later reading, after any later passes that lose no write, is justified exactly when the lease is gone, has no grace period, lost no interrupting write while a release time was recorded and not cleared since, or the absence that goes on now will have lasted long enough |
| `AllocationLease.UnsafeDeletesTooEarly` | controller/internal/controller/allocationlease_controller.go:255-288 | otherwise some later pass deletes the lease too early |
| `AllocationLease.GoneSinceIsEarliest` | controller/internal/controller/allocationlease_controller.go:154-160 | that pass is the earliest since the last interruption |
| `AllocationLease.FailedReadMakesNoDifference` | controller/internal/controller/allocationlease_controller.go:119-140 | a failed read deletes nothing, and every later pass does what it would have done without it |
| `AllocationLease.LostWriteShortensTheWait` | controller/internal/controller/allocationlease_controller.go:255-288 | a concrete run that ends unsafe: the next pass deletes the lease early, and would not have with the write through |
| `AllocationLease.RequeueMeetsTheDeadline` | controller/internal/controller/allocationlease_controller.go:212-218 | a released lease is looked at again in time, and at least once per resync while it waits |

## Left out

- LoadBalancer conntrack: its actions fall into the generic branches of the opposite-key derivation, so the pairing claims do not cover it.
- Backend selection and session affinity: which backend a call gets is a table entry.
- The 5-tuple hash of the probe loop: any function will do, so it is a field of the tables.
- Routing dispatch, FIB and neighbour lookups, external interfaces, virtual services: a route is a table entry, and the MAC rewrite behind it is not modelled.
- CHECKSUM_PARTIAL packets and failing kernel helpers: helpers are taken to succeed on fields inside the frame. The checksum helper is any function that keeps the sum (`FrameRewrite.Sound`).
- Two CPUs inside one program run, and user-space garbage collection of conntrack entries in use.
- Least-recently-used eviction appears in the switch as an arbitrary table change, and in the fragment table as a step.
- L2Broadcast.BroadcastReachesAll: needs copies not to be lost; a lost copy is accounted for as pending.
- Several segments on one node: the switch model is one segment, as every table is keyed by it.
- Wrap-around of the 32-bit policy epoch.
- Parsing of CIDR and address text, IPv6 zones, and the filter that intersects candidate lists.
- Truncation of stored times to seconds, and a deletion that fails or races with another writer.
- The trace plane: it changes no verdict.
