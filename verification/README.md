# K-Watch in Dafny

K-Watch watches an interface with an XDP program that counts packets, keeps SYN/ACK
counts per flow, and drops packets whose source is on a blacklist. A userspace tracker
reads the flows at every tick, flags sources that flood, blocks them for a while and
unblocks them. This project models that loop and the code around it, and proves what
holds in every run. `dafny verify dfyconfig.toml` checks all of it.

## What is proved

- **The control loop** (`ControlLoop`, `LoopTheorems`, `Detection`, `LoopWitness`). A run
  is any sequence of packets (arbitrary bytes), flow-table evictions, delivered events,
  ticks, and operator edits of prefixes shorter than /32, on a monotone nonzero clock
  below 2^63. In every run: a newly flagged source really got at least the threshold of
  SYN packets through XDP within the window, and so did every source that is blocked; a
  source is flagged and blocked exactly when the packets let through in the flows that a
  snapshot shows make a flood (unless an entry of it was made twice at one instant) and,
  if none of its flows was evicted or refused, exactly when the history of packets alone
  shows one; a blocked source is dropped and its flows stay frozen until the first tick
  at or after its deadline, which unblocks it; the /32 entries of the blacklist are
  exactly the blocked sources as long as the map takes them. With auto-blocking on, a block that was in the blacklist never comes back
  without fresh traffic if and only if the time-to-live exceeds the window; a block that
  the full blacklist refused can come back.
- **The tracker** (`Tracker`, `TrackerProgram`, `TrackerRuns`). The loops over vectors
  and hash maps compute the functions of `Tracker`, in any iteration order. Under
  arbitrary inputs: evicting idle sources changes no decision; blocks and unblocks of a
  source alternate; a snapshot's effect does not depend on its order; for every
  configuration the snapshot that follows n others leaves exact generation stamps if and
  only if n < 2^64 - 1, and fresh flags if and only if that or auto-blocking holds.
- **The XDP program** (`Packet`, `Xdp`, `XdpRuns`, `XdpOverflow`, `Frames`, `FrameRuns`).
  The program on bytes refines a parse-then-update specification and never reads outside
  the packet; verdict, counter, flow and event of a frame are told from its bytes and the
  ranges of the blacklist entries; every event in every run describes its frame; a VLAN
  tag and IPv4 options are invisible to it; every counter present equals what was
  counted, and a key is missing exactly when more than 256 keys occurred; events and
  ring-buffer drops account for every selected packet.
- **Concurrent counters** (`ConcurrentCounter`). On n CPUs a counter loses at most n - 1
  calls over a whole run, and some interleaving loses that many.
- **Interface ownership** (`Ownership`, `OwnershipProgram`, `OwnershipRuns`,
  `OwnershipWitness`). Processes die at any step, system calls fail and pids are reused.
  A live owner stays in possession, with its pins and its name on the owner file, if and
  only if no step overlooks it, that is, cannot read the owner file or /proc, takes the
  owner for gone and removes something; then there is at most one owner. A run shows two
  owners after one failed read. A `pin` over a dead owner succeeds exactly if it clears
  the stale pins, and a second cleanup changes nothing.
- **Checksums** (`Checksum`). The host-order and the network-order checksum agree on
  every buffer that is not all zero, up to 131,076 bytes, and not at any greater length.
  A stored checksum verifies: `checksum` at any length, `csum` up to 131,078 bytes.
- **Packet-rate window** (`PpsWindow`). The circular buffer is the last `size` pushes.

Where a promise fails at a boundary, the exact condition is proved, with a run or an input
that fails: the counter table (`NothingMissingIff`, `TableCanOverflow`), the full
blacklist whose refusals the program ignores (`TickKeepsAgreementIff`, `AgreementCanEnd`,
`AlwaysAgreesIff`), blocks that come back (`NeverReblocksIff`, `RefusedBlockRelapses`),
entries made twice at one instant (`AccountsExactIff`, `RecreatedEntryUndercounts`), the
generation counter (`StampsExactIff`, `FlagsFreshIff`), the second VLAN tag
(`TagIsTransparentIff`, `SecondTagHidesArp`), the two folds of `csum` (`ChecksumsAgreeIff`,
`CsumVerifiesIff`), failed reads of the owner (`PossessionIff`, `TwoOwners`) and the
reclaiming `pin` (`CrashRecovery`, `StalePinStays`).

## Conventions

One packet, one tick and one call of `pin`, `unpin`, `cleanup_stale_state` or `detach` is
one step, except that a process may die between any two system calls of `pin` and
`unpin`. An action that cannot happen in a state (a clock reading in the past, a snapshot
with entries that are not in the flow table) is skipped. IPv4 addresses are read in network
order; the host is little-endian. The clock, random words, ring-buffer failures, failures
to insert into the flow table and the blacklist, system call results and times of death
are parameters. A counter insertion fails only when the table is full, and the deletion of
a blacklist entry does not fail. 32- and 64-bit wrap-around is written out (`Words`).

## Model

Properties come first, then the operations of the program with the specification each one
is proved to meet.

| member | source | states |
|---|---|---|
| `LoopTheorems.FlagSoundness` | src/core/flow_tracker.cpp:31-83 | in every run a newly flagged source had at least the threshold of SYNs let through within the window, even if the table was read only in part |
| `LoopTheorems.EveryBlockIsEarned` | src/core/flow_tracker.cpp:125-136 | so had every source that is blocked, in that tick |
| `Detection.DetectionIff` | src/core/flow_tracker.cpp:27-83 | in every run, whatever was evicted, refused or missed, a snapshot newly flags a source whose entries were never made twice at one instant if and only if the packets XDP let through in the flows it shows, since each began, make a flood |
| `Detection.BlockIff` | src/core/flow_tracker.cpp:125-136 | with auto-blocking a tick blocks it if and only if they do |
| `Detection.HistoryDetectionIff` | src/core/flow_tracker.cpp:27-83 | if no flow of the source was evicted or refused, a complete snapshot flags it if and only if the history of packets alone shows a flood |
| `Detection.HistoryBlockIff` | src/core/flow_tracker.cpp:125-136 | and a tick blocks it if and only if the history does |
| `Detection.FiguresAreMarks` | src/core/flow_tracker.cpp:69-75 | the SYN and ACK figures a snapshot leaves for a source are, in 32 bits, the SYNs and ACKs let through in the flows it shows |
| `LoopWitness.HandshakeIsNotFlagged` | bpf/kwatch.bpf.c:220-238 | a SYN and an ACK frame of one flow leave one of each in its entry, and no snapshot flags the source at any threshold above zero |
| `FrameRuns.RecordedFrame` | bpf/kwatch.bpf.c:190-238 | the history records exactly the IPv4 frames from no listed address, with their flow and the SYN and ACK bits of byte 13 of their TCP header |
| `Detection.FloodBelowWrap` | src/core/flow_tracker.cpp:76-82 | below 2^32 packets a flood is a flow and SYNs that exceed the ACKs by the threshold, any flow if the threshold is zero |
| `Detection.TableMirrorsHistory` | bpf/kwatch.bpf.c:213-239 | without evictions and refusals a flow entry is a function of the packets let through |
| `Detection.AccountsExactIff` | bpf/kwatch.bpf.c:213-239 | SYN and ACK counts of a flow are exact modulo 2^32 throughout a run if and only if its entry is never made again at an instant at which a SYN or ACK of it was let through before |
| `LoopWitness.RecreatedEntryUndercounts` | bpf/kwatch.bpf.c:213-239 | a run in which it is, and a SYN is not counted |
| `Detection.AlwaysInOrder` | bpf/kwatch.bpf.c:227-233 | in every run a flow entry covers at most one window and no packet of the flow is later than it says |
| `Detection.NewFlagByTotals` | src/core/flow_tracker.cpp:69-83 | on any snapshot a source is newly flagged exactly if it has an eligible flow and its 32-bit sums differ by the threshold |
| `LoopTheorems.NoReblockWithoutTraffic` | src/core/flow_tracker.cpp:31-42 | with a time-to-live above the window an unblocked source whose own block was in the blacklist is not flagged or blocked before a new packet of it passes |
| `LoopTheorems.TakenBlockEndsForGood` | src/core/flow_tracker.cpp:125-148 | so it is for every block the blacklist took when it was issued, which ends at the first tick at or after its deadline |
| `LoopWitness.NeverReblocksIff` | src/core/flow_tracker.cpp:138-148 | with auto-blocking no block that was in the blacklist comes back without a new packet if and only if the time-to-live exceeds the window |
| `LoopWitness.RefusedBlockRelapses` | src/cli/commands/top.cpp:312-323 | a run in which the full blacklist refuses a block, and that block comes back without a packet after its expiry, for every threshold, window and nonzero time-to-live |
| `LoopWitness.UnheldBlockComesBack` | src/cli/commands/top.cpp:312-323 | without the condition that the blacklist held the block, some run of every auto-blocking configuration blocks a source again |
| `LoopTheorems.QuarantineInterval` | src/core/flow_tracker.cpp:125-148 | from its block until a tick at or after the deadline a source stays blocked and listed and no flow of it is created or updated |
| `LoopTheorems.QuarantineDrops` | bpf/kwatch.bpf.c:184-188 | every IPv4 packet of a blocked, listed source is dropped and touches no flow |
| `LoopTheorems.QuarantineEnds` | src/core/flow_tracker.cpp:138-148 | a tick unblocks it if and only if the deadline has come, and clears its entry |
| `FrameRuns.EntryDrops` | bpf/kwatch.bpf.c:179-188 | in every run, while an operator's entry of any length stands, every IPv4 frame from its range is dropped, counted under 0xFFFF, reported as dropped, and feeds no flow |
| `FrameRuns.LanIsDropped` | bpf/kwatch.bpf.c:179-188 | under 10.0.0.0/24 frames from every host of that network are dropped |
| `FrameRuns.EveryEventDescribesItsFrame` | bpf/kwatch.bpf.c:93-126 | in every run every submitted event carries the addresses, ports, protocol, TTL, flags and ICMP bytes of a frame that arrived, and whether it was dropped |
| `FrameRuns.DeliveryCreditsSender` | src/core/flow_tracker.cpp:17-25 | delivering it moves last activity and TTL of that frame's source and of no other |
| `LoopTheorems.DeadlineDoesNotWrap` | src/core/flow_tracker.cpp:138-141 | a block before 2^63 expires exactly at its deadline, for any 32-bit time-to-live |
| `LoopTheorems.AlwaysAgrees` | src/cli/commands/top.cpp:312-323 | in every run with slots and memory for its blocks the /32 entries are exactly the blocked sources |
| `LoopTheorems.TickKeepsAgreementIff` | src/cli/commands/top.cpp:312-323 | a tick keeps blacklist and tracker in agreement if and only if there are slots and memory for its blocks or the time-to-live is zero |
| `LoopWitness.AgreementCanEnd` | src/cli/commands/top.cpp:312-323 | a run to a full blacklist that agrees with the tracker, and a tick that ends the agreement |
| `LoopWitness.AlwaysAgreesIff` | src/cli/commands/top.cpp:312-323 | they agree after every run if and only if auto-blocking is off or the time-to-live is zero |
| `ControlLoop.AlwaysInv` | src/cli/commands/top.cpp:280-330 | in every run flows are accounted for and every /32 entry is a blocked source whose flows are frozen |
| `LoopTheorems.TrackerInLoop` | src/cli/commands/top.cpp:213-323 | the tracker in the loop is a tracker run, so its run properties hold in the loop |
| `TrackerRuns.EvictionInvisible` | src/core/flow_tracker.cpp:69-136 | in every run trackers with and without eviction flag, block and unblock the same sources at each tick |
| `TrackerRuns.CommandsAlternate` | src/core/flow_tracker.cpp:125-151 | per source blocks and unblocks alternate, block first, and one is outstanding exactly while it is blocked |
| `TrackerRuns.FlagsAlwaysAgree` | src/core/flow_tracker.cpp:76-151 | in every run a blocked source is flagged, and with auto-blocking a flagged one is blocked |
| `TrackerRuns.SnapshotOrderIrrelevant` | src/core/flow_tracker.cpp:28-83 | a snapshot's effect depends only on the multiset of its entries |
| `TrackerRuns.FiguresOfSeen` | src/core/flow_tracker.cpp:31-75 | a source with a TCP flow in the window has their 32-bit SYN and ACK sums and their latest packet as figures |
| `TrackerRuns.FiguresOfUnseen` | src/core/flow_tracker.cpp:85-95 | any other source loses figures and flag exactly if it is unblocked and quiet for longer than the window, and is otherwise unchanged |
| `TrackerRuns.FiguresAfterTick` | src/core/flow_tracker.cpp:125-151 | the rest of a tick zeroes the figures of unblocked sources and keeps those of all others that stay |
| `TrackerRuns.StaysInTable` | src/core/flow_tracker.cpp:112-151 | a tick keeps in the table what the snapshot left there, but for the sources evicted |
| `TrackerRuns.EvictedIff` | src/core/flow_tracker.cpp:112-122 | a source is evicted exactly if there are more than 16384, and it is unflagged, unblocked and idle for a minute |
| `TrackerRuns.StampsExactIff` | src/core/flow_tracker.cpp:64-95 | for every configuration, the snapshot after n others stamps exactly the eligible sources in every run if and only if n < 2^64 - 1 |
| `TrackerRuns.FlagsFreshIff` | src/core/flow_tracker.cpp:64-95 | and leaves every flagged, unblocked source fresh in every run if and only if auto-blocking is on or n < 2^64 - 1 |
| `TrackerRuns.StampsExactUntilWrap` | src/core/flow_tracker.cpp:64-95 | for 2^64 - 1 snapshots stamps are exact and flags fresh |
| `TrackerRuns.StampComesBack` | src/core/flow_tracker.cpp:64-67 | the 2^64th snapshot reuses a stamp and keeps a stale flag |
| `TrackerRuns.EventsRemembered` | src/core/flow_tracker.cpp:17-25 | after any events the last activity is the latest timestamp and flags, blocks and counts are unchanged |
| `TrackerRuns.LastTtlRemembered` | src/core/flow_tracker.cpp:19-21 | the TTL is that of the last event that carried one |
| `OwnershipRuns.SingleOwner` | src/bpf/skeleton.cpp:239-288 | in every run in which no step overlooks an owner, at most one live process holds the interface, and the owner file names it |
| `OwnershipRuns.OwnerUndisturbed` | src/bpf/pin_state.cpp:112-163 | and no step but its own `unpin` takes pins or owner file from a live owner |
| `OwnershipRuns.PossessionIff` | src/bpf/pin_state.cpp:85-118 | in every run in which nobody pins an interface it holds, every owner stays in possession if and only if no step fails to read the owner file or /proc, takes the owner for gone, and then removes something |
| `OwnershipWitness.TwoOwners` | src/bpf/skeleton.cpp:239-288 | a run in which one such read fails and two live processes hold the interface |
| `OwnershipWitness.OwnerCleanedAway` | src/bpf/pin_state.cpp:158-192 | a run in which a cleanup that cannot read /proc removes a live owner's pins and owner file |
| `OwnershipRuns.CrashRecovery` | src/bpf/skeleton.cpp:223-288 | after any deaths, with no live owner, a `pin` without failures succeeds exactly if it clears the stale pins, and is then owner on record, and sole owner if none was overlooked before |
| `OwnershipRuns.DeathIsRecovered` | src/bpf/pin_state.cpp:112-118 | after the death of the named owner, reaped or not, a `pin` without failures takes over exactly if it clears the names, and cleanup and detach meet no active owner |
| `OwnershipRuns.LifeAndDeath` | src/bpf/pin_state.cpp:112-118 | a started process is alive, and none with its pid is once it died, even as a zombie |
| `OwnershipRuns.NamesIff` | src/bpf/pin_state.cpp:85-101 | the owner file names a process exactly if it holds its pid, a positive `int`, and its positive start time |
| `OwnershipWitness.StalePinStays` | src/bpf/skeleton.cpp:252-264 | a run in which a process dies while pinning and the next `pin`, without failures, cannot take over |
| `OwnershipRuns.CleanupIsIdempotent` | src/bpf/pin_state.cpp:158-192 | after a cleanup that returned Ok a second changes nothing, and returns Ok(false) if and only if none of its calls fails for another reason than that nothing is there |
| `OwnershipRuns.DetachIsIdempotent` | src/cli/commands/detach.cpp:106-131 | the same for a second detach after a successful one |
| `OwnershipRuns.PinThenUnpin` | src/bpf/skeleton.cpp:219-307 | from a clean interface, pin and unpin give the clean interface back |
| `ConcurrentCounter.CounterBound` | bpf/kwatch.bpf.c:61-69 | in every interleaving a counter is between finished calls minus n - 1 and finished calls, or the table is full |
| `ConcurrentCounter.CounterBoundIsReached` | bpf/kwatch.bpf.c:61-69 | some interleaving on n CPUs loses n - 1 of n calls |
| `ConcurrentCounter.SingleCpuExact` | bpf/kwatch.bpf.c:61-69 | on one CPU no call is lost |
| `ConcurrentCounter.UninterruptedCall` | bpf/kwatch.bpf.c:61-69 | a call no other CPU interrupts is the sequential increment |
| `XdpRuns.CountersExact` | bpf/kwatch.bpf.c:61-69 | in every run each counter present is the number of packets counted under it |
| `XdpRuns.SlotsExact` | bpf/kwatch.bpf.c:47-69 | in every run a key that occurred is missing only when the 256-entry table is full |
| `XdpRuns.NothingMissingIff` | bpf/kwatch.bpf.c:47-69 | no key is missing if and only if at most 256 keys occurred |
| `XdpOverflow.TableCanOverflow` | bpf/kwatch.bpf.c:47-69 | after one packet of each protocol an ARP packet is not counted |
| `XdpRuns.PossibleKeys` | bpf/kwatch.bpf.c:153-190 | only protocol numbers, 0x86DD, 0x0806 and 0xFFFF are ever counted |
| `XdpRuns.BreakdownTotalsAllPackets` | src/cli/commands/top.cpp:56-86 | with at most 256 keys seen the five figures add up to all counted packets |
| `XdpRuns.BreakdownShowsProtocols` | src/cli/commands/top.cpp:56-86 | and TCP, UDP, ICMP and dropped are the packets counted under 6, 17, 1 and 0xFFFF |
| `XdpRuns.EventsConserved` | bpf/kwatch.bpf.c:74-127 | in every run selected packets are submitted events plus refusals, and reported drops are the drops that were not refused |
| `XdpRuns.RingDropsCountRefusals` | bpf/kwatch.bpf.c:74-91 | `ringbuf_drops` is the number of refusals |
| `Frames.AlwaysReported` | bpf/kwatch_shared.h:51-57 | whatever the draw, a dropped frame and one that opens a flow submit one event that describes it |
| `Frames.EventOf` | bpf/kwatch.bpf.c:82-127 | a frame submits an event exactly if it is dropped, opens a flow, events are not sampled or the draw is a multiple of the sampling number, and the ring has room |
| `Frames.DroppedIff` | bpf/kwatch.bpf.c:161-188 | exactly the IPv4 frames whose source lies in the range of a blacklist entry are dropped |
| `Frames.CountedUnder` | bpf/kwatch.bpf.c:153-190 | a frame is counted under 0xFFFF, its protocol, 0x0806 or 0x86DD, by its bytes |
| `Frames.FlowFed` | bpf/kwatch.bpf.c:190-239 | a frame that passes feeds the flow of its addresses, ports and protocol with its own flags, and a dropped one feeds none |
| `Xdp.PrefixRange` | bpf/kwatch.bpf.c:179-184 | an entry of length n covers exactly the 2^(32 - n) addresses from its network address on |
| `Packet.Ipv4Fields` | bpf/kwatch.bpf.c:138-177 | which frames parse as IPv4, and which bytes give addresses, protocol, TTL and payload |
| `Packet.CountedOnly` | bpf/kwatch.bpf.c:153-159 | exactly the ARP and IPv6 frames, tagged or not, are only counted |
| `Packet.TransportFields` | bpf/kwatch.bpf.c:105-124 | ports, flags and ICMP fields are at their offsets in a complete header and zero otherwise |
| `Packet.SynBit` | bpf/kwatch.bpf.c:220-221 | SYN is bit 1 of the flags byte |
| `Packet.AckBit` | bpf/kwatch.bpf.c:222-223 | ACK is bit 4 of the flags byte |
| `XdpRuns.DropsReportedExactly` | bpf/kwatch.bpf.c:184-188 | without refusals the drop counter equals the reported drops |
| `Xdp.VlanTagChangesNothing` | bpf/kwatch.bpf.c:138-244 | tagging changes neither verdict nor counters, flows, events |
| `Xdp.OptionsChangeNothing` | bpf/kwatch.bpf.c:161-244 | nor does inserting IPv4 options |
| `Packet.SecondTagHidesPayload` | bpf/kwatch.bpf.c:145-159 | a second tag hides the payload entirely |
| `Packet.TagIsTransparentIff` | bpf/kwatch.bpf.c:138-159 | a tag does not change what is parsed if and only if it is the first or nothing is parsed anyway |
| `Packet.SecondTagHidesArp` | bpf/kwatch.bpf.c:145-159 | a tagged ARP frame is counted, and with a second tag it is not |
| `Checksum.ChecksumsAgree` | src/demo/syn_flood.cpp:24-44 | both checksums give the same two bytes unless all bytes are zero, when they give 0xffff and 0x0000 |
| `Checksum.ChecksumsAgreeIff` | src/demo/syn_flood.cpp:24-44 | they agree on all buffers of n bytes that are not all zero if and only if n is at most 131,076 |
| `Checksum.NetworkChecksumInHostOrder` | src/demo/ping_flood.cpp:16-36 | at any length `checksum` is the complemented one's complement sum of the host-order words |
| `Checksum.CsumCorrect` | src/demo/syn_flood.cpp:24-44 | `csum` is the one's complement checksum of every buffer up to 131,076 bytes |
| `Checksum.CsumBoundIsTight` | src/demo/syn_flood.cpp:40-43 | at every greater length some buffer gets a wrong checksum |
| `Checksum.ByteOrderScales` | src/demo/ping_flood.cpp:19-34 | reading words in the other byte order multiplies the sum by 256 modulo 0xffff |
| `Checksum.PingChecksumVerifies` | src/demo/ping_flood.cpp:77-79 | a stored `checksum` makes a second computation return zero, at any length and even offset |
| `Checksum.CsumVerifies` | src/demo/syn_flood.cpp:24-44 | a stored `csum` makes a second computation return zero, up to 131,078 bytes |
| `Checksum.CsumVerifiesIff` | src/demo/syn_flood.cpp:24-44 | it does so on all buffers of n bytes with a zeroed field if and only if n is at most 131,078 |
| `Checksum.Csum` | src/demo/syn_flood.cpp:24-44 | the loop returns the two-fold complement of the exact sum of host-order words, odd byte padded |
| `Checksum.PingChecksum` | src/demo/ping_flood.cpp:16-36 | the loop returns the complement of the one's complement sum of network-order words, in network order |
| `PpsWindow.Window.Push` | src/core/pps_window.cpp:7-14 | the buffer holds the last `size` values pushed after any pushes |
| `PpsWindow.Window.CopySnapshot` | src/core/pps_window.cpp:16-25 | returns exactly the last min(n, size) pushes, oldest first |
| `PpsWindow.Window.Latest` | src/core/pps_window.cpp:27-32 | returns the last push, or zero |
| `PpsWindow.Window.CurrentAverage` | src/core/pps_window.cpp:41-48 | summing in storage order gives the floor mean of the snapshot, its sum taken in 64 bits |
| `Xdp.Program.Run` | bpf/kwatch.bpf.c:130-244 | on any bytes, refines parse-then-update with its verdict, whose meaning in bytes module `Frames` states, and reads only inside the packet |
| `XdpRuns.RefreshBreakdown` | src/cli/commands/top.cpp:56-86 | in any key order, four named counters and the 64-bit sum of the others |
| `TrackerProgram.FlowTracker.ProcessEvent` | src/core/flow_tracker.cpp:17-25 | refines `OnEvent` |
| `TrackerProgram.FlowTracker.AggregateFlows` | src/core/flow_tracker.cpp:28-62 | index and vector stay inverse without duplicates, and the aggregates are the per-source summaries of all eligible flows |
| `TrackerProgram.FlowTracker.ProcessFlowSnapshot` | src/core/flow_tracker.cpp:27-96 | refines `OnSnapshot`, whose figures `FiguresOfSeen` and `FiguresOfUnseen` state |
| `TrackerProgram.FlowTracker.EvictIdleSources` | src/core/flow_tracker.cpp:112-122 | above the limit, exactly the idle, unflagged, unblocked sources go |
| `TrackerProgram.FlowTracker.TickAndGetBlocks` | src/core/flow_tracker.cpp:125-136 | blocks and lists exactly the due sources, each once, then evicts |
| `TrackerProgram.FlowTracker.GetExpiredBlocks` | src/core/flow_tracker.cpp:138-151 | unblocks and lists exactly the expired sources, each once |
| `TopLoop.Top.UpdateBlacklist` | src/cli/commands/top.cpp:315-323 | inserts blocks in order as far as slots and memory go, then deletes expired ones |
| `TopLoop.Top.TickBody` | src/cli/commands/top.cpp:305-323 | the tick on the running objects, with flow lookups that may fail, is the loop's `Tick` action |
| `OwnershipProgram.Interface.Pin` | src/bpf/skeleton.cpp:219-289 | leaves a live owner that it sees alone, takes over otherwise, is complete on success and rolled back on failure, at every point of death and for every failed read |
| `OwnershipProgram.Interface.Unpin` | src/bpf/skeleton.cpp:291-307 | removes only its own names, its owner file and empty directories |
| `OwnershipProgram.Interface.CleanupStaleState` | src/bpf/pin_state.cpp:158-192 | refuses a live owner that it sees, else leaves nothing behind and says whether anything changed |
| `OwnershipProgram.Interface.WaitForOwnerExit` | src/cli/commands/detach.cpp:40-51 | ends before the owner does exactly if /proc becomes unreadable first; otherwise tells whether the owner exits before the timeout |
| `OwnershipProgram.Interface.StopOwnerProcess` | src/cli/commands/detach.cpp:53-90 | reports success with the owner alive exactly if a read of /proc fails first; permission errors are told apart |
| `Ownership.GivesUpIff` | src/cli/commands/detach.cpp:40-90 | in polls of 100 ms: twenty after SIGTERM, ten after SIGKILL, and a last look each |
| `OwnershipProgram.Interface.Detach` | src/cli/commands/detach.cpp:106-131 | unless it overlooks the owner, cleans up only after the owner is gone; on success the interface is clean |

## Left out

- Interleaving inside a step: a tick that reads the flow table while packets arrive, two `pin` calls racing between check and write, and flow entries updated by two CPUs at once. The program takes no lock there.
- Operator edits of /32 entries: such an edit can remove or add a blocked source's own entry.
- `FlowTracker::flows` and its eviction (src/core/flow_tracker.cpp:99-110): nothing fills that table.
- The kernel's LPM trie, LRU policy and ring buffer and libbpf itself: a lookup is a prefix match, eviction is arbitrary, reservation and insertion may fail, and `unpin_maps` removes any part of the names.
- A `flow_state` insertion that evicts another entry is an eviction step followed by the insertion.
- The partial content of an owner file whose writer died: it is either unreadable or complete.
- A signal that reaches a different process because the pid was reused between check and `kill`.
- XDP attach and detach, file descriptors, timers, signals, logging, terminal display, option and address parsing: wrappers and display code with only easy claims.
- The packets-per-second figure of `cmd_top` (src/cli/commands/top.cpp:294-303): a difference of two totals.
- Socket and sleep loops of the demo generators: only their checksums are modelled.
