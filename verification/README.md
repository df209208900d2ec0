# LinkPulse, verified

A Dafny model of the parts of LinkPulse where state, arithmetic or interleaving decide whether it is
right, with proofs of what those parts promise over every input and every run.

| files | what they model |
|---|---|
| `Basics` | Options, slices of lists, 64-bit words, providers |
| `Neighbors`, `Discovery`, `DiscoveryLaws`, `DiscoveryRuns` | Reconciling neighbour snapshots with a retained table: identity by MAC with IP fallback, leaving after three missed polls, bounded tables and event lists |
| `Snapshot` | How a snapshot is put together: address deduplication, ARP replies, clearing of ambiguous MACs |
| `ProbeRotation`, `ProbeSharing` | Which hosts the active scans probe, scan after scan, in one subnet and in several |
| `Sampler`, `SamplerRuns`, `SamplerLaws`, `RateHistory` | Byte counters per interface, resets, the time base, the history ring and the tray's window over it |
| `Clock` | Ticks to nanoseconds without intermediates wider than 64 bits |
| `DnsName`, `DnsResponse` | DNS names with compression pointers, written and read, and the walk over a response |
| `Decimal`, `Config`, `ConfigLaws` | The settings text, parsed and printed |
| `Records`, `RecordLaws`, `DeviceStore` | The device store: networks by gateway MAC, devices by MAC, keys without regard to case |
| `Persistence`, `Migration`, `FlatFiles`, `FileLaws`, `DeviceFile` | The device file: saving, loading, migrating the flat layout |
| `Trails`, `TrayFiling`, `TrayWorker`, `TurnLaws` | The tray's discovery thread: gateway attribution, completing and recording devices |
| `SpeedMeter`, `SpeedMeterLaws` | The life of the speed-meter window, its test workers and the thread that waits for the last one |

Code that changes state is modelled by classes and methods over arrays and fields, each proved against a
specification function on values; the laws are lemmas about those functions. The speed meter is a
transition system whose steps are the single shared accesses of its threads. Snapshots, provider
answers, clock readings, ARP replies, received packets and failing allocations are arbitrary inputs.
Text fields are strings without their terminating NUL; an empty string is an absent value. Counters and
clock readings of the sampler and the clock wrap at 64 bits where the program's do.

`dafny verify dfyconfig.toml` checks the whole project.

Where the code and its comments or expectations differ, the model follows the code:

- The comment on `clear_ambiguous_macs` (src/platform/win32/discovery_win32.c:409-414) says any MAC seen
  on more than one address is blanked. A reply to a probe with a MAC that is already listed is dropped
  before that, so only table rows count: `AmbiguousMacsAreBlankedIff` says exactly when the promise
  holds, `SharedMacInReplyIsKept` gives the input for which it does not.
- The comment on `is_unicast_address` (src/platform/win32/discovery_win32.c:59) names unspecified
  addresses among those kept out; they pass (`UnicastTestKeepsUnspecified`).
- A scan shares one probe budget and one offset between subnets, and the rotation without holes is that
  of a single subnet (`EveryHostIsProbed`). Several subnets are probed completely by a scan exactly when
  all their hosts but the local ones fit into the window (`ScanIsCompleteIff`). When they do not, hosts
  may be out of reach for good: behind a small subnet (`SmallSubnetHidesLaterHosts`, `LinkHidesHosts`),
  behind a large one (`LargeLaterSubnetHasHole`, `OthersNeverGetAProbe`), and in a large first subnet
  itself (`TailOfFirstIsNeverProbed`). Where everything fits or one of the last three is at work,
  `CoveredIffTargetsFit` is an equivalence over whole runs; elsewhere `MoreThanFitsMayBeCovered`.
- An interface name that occurs twice in a snapshot counts bytes at the very first poll;
  `FreshBaselineCountsNothingIff` is an equivalence.
- The monotonic clock runs backwards once its count passes 64 bits: `ClockIsMonotoneIffItFits`.
- A name that fails to read leaves its first labels in the buffer, and the callers of the walk ignore its
  status: `CallerSeesTextIff` says when they see a text, which ends at a NUL inside a label
  (`NulLabelIsNotSeen`).
- The range check on `interval_ms` rejects nothing where long is as wide as int: negative numbers wrap and
  large ones saturate (`IntervalStored`, `NegativeIntervalIsAccepted`).
- The "compaction" of src/core/discovery.c:99-127 never moves an entry, because inactive entries are
  kept: `EverySlotKeepsItsIndex`.
- Matching by MAC or address is not transitive, so the closed form of a run needs that no address comes
  both with a MAC and without; `MixedRunSharesOneSlot` gives a run for which it fails.
- At capacity an unmatched neighbour is announced as joined at every poll without being stored
  (`FullTableAnnouncesAgain`); it is the one leak in `PollConservesActiveDevices`.
- `dns_write_qname` accepts a trailing dot, which does not come back, and an empty name, which does not
  read; `ReadUndoesWrite` states exactly what comes back.
- An interface name with blanks at its ends, or an interval of 0, is printed but not restored: `RoundTrip`
  is an equivalence.
- A saved device file of more than 100000 nodes loses its last entries when it is loaded:
  `SavedBookComesBackIff` is an equivalence.

## Model

| member | source | states |
|---|---|---|
| Neighbors.MatchingIsSymmetric | src/core/discovery.c:31-37 | Matching by MAC with IP fallback is symmetric. |
| Neighbors.MatchingIsNotTransitive | src/core/discovery.c:31-37 | It is not transitive: an entry without a MAC can match two entries that do not match each other. |
| Discovery.FindKnown | src/core/discovery.c:40-49 | The lookup yields the first slot that matches the item and -1 exactly when no slot does. |
| Discovery.Monitor.constructor | src/core/discovery.c:6-12 | A fresh monitor retains nothing, has no baseline and no provider. |
| Discovery.Monitor.SetSources | src/core/discovery.c:15-26 | Installs the providers that are given, keeps the others and the retained state. |
| Discovery.Monitor.FindKnownIndex | src/core/discovery.c:40-49 | The search loop returns exactly the first matching slot among the given ones. |
| Discovery.Monitor.AbsorbOne | src/core/discovery.c:74-96 | One turn of the first loop: a matched slot takes over the item, an unmatched item is appended while there is room, and a join goes to the buffer only while it has room. |
| Discovery.Monitor.AbsorbReported | src/core/discovery.c:73-97 | The first loop, overwriting the slots it searches, folds in every item in turn; the buffer holds the first max_events events. |
| Discovery.Monitor.SweepOne | src/core/discovery.c:103-122 | One turn of the second loop ages or expires exactly one slot, changes no other, and logs a leave exactly when an active slot expires. |
| Discovery.Monitor.CompactRetained | src/core/discovery.c:101-123 | The in-place compaction ends with every retained slot swept and still at its own index. |
| Discovery.Monitor.SlideAppended | src/core/discovery.c:124-127 | Sliding the appended slots moves nothing: the table is the swept one. |
| Discovery.Monitor.Poll | src/core/discovery.c:52-132 | Whole poll: status by cause; a refused or failed poll changes nothing and reports nothing; otherwise the new table is independent of max_events and the buffer holds exactly the first max_events events of the full log. |
| Discovery.PollKeepsWellFormed | src/core/discovery.c:93-131 | Every poll keeps at most 256 slots and every miss counter below three. |
| DiscoveryLaws.EachSlotAbsorbsAtMostOne | src/core/discovery.c:73-97 | Although lookups run over slots overwritten during the loop, pairwise non-matching items never hit the same slot twice; matched slots hold their item and the others are untouched. |
| DiscoveryLaws.EverySlotKeepsItsIndex | src/core/discovery.c:69-131 | After a poll of pairwise non-matching items every old slot keeps its index; it either holds the one item matched with it, counter 0, or aged by one poll and became inactive on the third. |
| DiscoveryLaws.NewDevicesFollowInOrder | src/core/discovery.c:87-96 | For any snapshot the table is the old slots followed by the unmatched items in reported order, cut at 256. |
| DiscoveryLaws.PollConservesActiveDevices | src/core/discovery.c:73-131 | With a baseline, for any snapshot: active after + leaves + the new devices beyond the room left = active before + joins, over the uncut log. |
| DiscoveryLaws.FullTableAnnouncesAgain | src/core/discovery.c:87-96 | For any pairwise non-matching snapshot: every item that finds the table full, be it from the start or filled up by earlier items of the snapshot, is announced as joined without being stored, and the same holds again at the next poll that reports the snapshot. |
| DiscoveryLaws.BaselinePollIsSilent | src/core/discovery.c:78-92 | The first successful poll logs nothing and sets the baseline. |
| DiscoveryLaws.EventsCarryTheirDevice | src/core/discovery.c:78-121 | For any table and snapshot: every join carries an item of the snapshot, as reported or marked active, and every leave an active entry of the table that has been missing twice already. |
| DiscoveryRuns.FailedPollsLeaveNoTrace | src/core/discovery.c:63-67 | A run with failed polls ends as the run of its successful polls alone. |
| DiscoveryRuns.MatchesIsSameId | src/core/discovery.c:31-37 | As far as no address is reported both with a MAC and without, two entries match exactly when they are known by the same identity: the MAC, or the address of an entry without one. |
| DiscoveryRuns.OrderListsEveryDeviceOnce | src/core/discovery.c:93-96 | Slots are taken in order of first appearance, one per device ever reported, known by its MAC or without one by its address. |
| DiscoveryRuns.AbsorbById | src/core/discovery.c:73-97 | After the first loop over items of distinct identities: a slot whose device was reported holds that report, the others are untouched, and the new devices follow in order. |
| DiscoveryRuns.TableAfterAnyRun | src/core/discovery.c:69-131 | Closed form of the table after any run in which no address comes both with a MAC and without, with at most 256 devices in all: one slot per device in order of first appearance with its last report, counter and presence. |
| DiscoveryRuns.PresentExactlyWhenSeenInThreePolls | src/core/discovery.c:103-123 | A device is active after poll n exactly when it was in snapshot n, n-1 or n-2; its counter is min(2, polls since last seen); inactive means counter 2. |
| DiscoveryRuns.PollLogOfOneDevice | src/core/discovery.c:78-121 | The events of one poll about one device, whole: a returning device is announced as it is reported now, a new one marked active, one that leaves on its third consecutive absence as it was last reported, and nothing else is. |
| DiscoveryRuns.EventsOfOneDeviceAlternate | src/core/discovery.c:78-121 | Over a whole run the events about one device strictly alternate, starting from its presence in the baseline, and their number tells whether it is active now. |
| DiscoveryRuns.EventsFallOnTheThirdAbsence | src/core/discovery.c:107-121 | A leave is logged exactly in the poll completing three consecutive absences, a join exactly on a return after at least three or on first appearance, never both. |
| DiscoveryRuns.MixedRunSharesOneSlot | src/core/discovery.c:31-49 | The failing input of that closed form: a device reported with its MAC and then without it at the same address keeps one slot for two identities. |
| NeighborSnapshot.NeighborList.FindNeighborIp | src/platform/win32/discovery_win32.c:396-407 | First entry with that address, -1 for an empty address or none. |
| NeighborSnapshot.NeighborList.FindNeighborMac | src/platform/win32/discovery_win32.c:382-393 | Finds an entry with that MAC exactly when the MAC is non-empty and listed. |
| NeighborSnapshot.UnicastTestKeepsUnspecified | src/platform/win32/discovery_win32.c:59-71 | The address test keeps out multicast, reserved and broadcast addresses, but not the unspecified ones its comment names. |
| NeighborSnapshot.NeighborList.ReadRow | src/platform/win32/discovery_win32.c:662-699 | A table row is listed exactly when there is room, its state is live, its address unicast, and its text non-empty and new. |
| NeighborSnapshot.NeighborList.AppendActive | src/platform/win32/discovery_win32.c:443-488 | An ARP reply is listed exactly when there is room and neither its MAC nor its address is listed. |
| NeighborSnapshot.NeighborList.ClearAmbiguousMacs | src/platform/win32/discovery_win32.c:415-440 | The nested in-place loops blank exactly the MACs carried by two or more entries, although they compare against entries already blanked. |
| NeighborSnapshot.NeighborList.Collect | src/platform/win32/discovery_win32.c:644-711 | The whole pipeline equals rows, then replies, then clearing, including the early return on a full list; without a table it fails with an empty list. |
| NeighborSnapshot.RowsHaveDistinctIps | src/platform/win32/discovery_win32.c:676-682 | Entries from the table have distinct, non-empty addresses and number at most 256. |
| NeighborSnapshot.RepliesKeepIpsDistinct | src/platform/win32/discovery_win32.c:443-470 | Replies keep addresses distinct and only extend the list. |
| NeighborSnapshot.SnapshotIsPairwiseNonMatching | src/platform/win32/discovery_win32.c:662-709 | For any rows and replies: distinct addresses, an entry keeps its MAC exactly when no other entry carried it, nothing else changes, and no two entries match - the precondition of reconciliation. |
| NeighborSnapshot.PollOfAnySnapshot | src/core/discovery.c:73-97 | Composition: polling whatever the pipeline delivers, no retained slot takes over more than one entry. |
| NeighborSnapshot.SnapshotIsIdentified | src/platform/win32/discovery_win32.c:662-709 | Any snapshot lists a device at most once, so the laws of whole runs apply as far as no address comes both with a MAC and without. |
| NeighborSnapshot.EntriesAreVouched | src/platform/win32/discovery_win32.c:27-71 | Every entry of a snapshot is, up to its MAC, a table row that is reachable, delayed or probing with a unicast address, or an answered probe. |
| NeighborSnapshot.LiveRowsAreListed | src/platform/win32/discovery_win32.c:662-685 | Conversely the address of every such row is listed, unless the list is full. |
| NeighborSnapshot.BlankedExactlyWhenRowsShareIt | src/platform/win32/discovery_win32.c:409-440 | For any rows and replies an entry loses its MAC exactly when two listed table rows carry it: what the probes find never makes a MAC ambiguous. |
| NeighborSnapshot.CarriedIff | src/platform/win32/discovery_win32.c:443-482 | Which MACs make it into the list, from the rows and replies alone: a row is listed when it is the first listable one of its address and fewer than 256 addresses come before, a reply when it is answered, shares neither address nor MAC with a listed row or an earlier listed reply, and there is room. |
| NeighborSnapshot.AmbiguousMacsAreBlankedIff | src/platform/win32/discovery_win32.c:409-440 | The promise of the comment over the inputs: every MAC seen at more than one address is blanked if and only if each such MAC is carried by two listed rows, or by no listed row and no listed reply. |
| NeighborSnapshot.ProbesListOneHostPerMac | src/platform/win32/discovery_win32.c:443-470 | Of all the hosts that answer with one MAC, probing lists at most one, and none when the MAC is already listed. |
| NeighborSnapshot.SharedMacInTableIsBlanked | src/platform/win32/discovery_win32.c:415-440 | In any snapshot, two table rows sharing a MAC both lose it. |
| NeighborSnapshot.SharedMacInReplyIsKept | src/platform/win32/discovery_win32.c:443-470 | The failing input: a MAC seen in a row and, at another address, in a reply is kept, and the host that replied is not listed. |
| ProbeRotation.Prober.ScanSubnet | src/platform/win32/discovery_win32.c:573-595 | One subnet is probed from the rotating offset, without the local host, as far as its window and the remaining budget go; the offset moves by the number of probes unless the list filled up. |
| ProbeRotation.Prober.Scan | src/platform/win32/discovery_win32.c:529-640 | A scan passes over at most eight subnets that share one offset and one probe budget, and ends when the budget is used up or the list is full. |
| ProbeRotation.BudgetIsShared | src/platform/win32/discovery_win32.c:581-594 | However many subnets there are, a scan sends at most its window of probes. |
| ProbeRotation.SingleSubnetScan | src/platform/win32/discovery_win32.c:569-635 | With a single subnet the scan is one window of the rotation, so the laws below apply to it. |
| ProbeRotation.LaterSubnetsStarve | src/platform/win32/discovery_win32.c:581-635 | In one scan, a first subnet of at least the window leaves at most one probe to all the others, and none unless its own local host lies in the window. |
| ProbeRotation.FullListKeepsTheOffset | src/platform/win32/discovery_win32.c:624-631 | A list that fills up ends the scan at that subnet with the offset where the subnet found it, so its hosts are probed again. |
| ProbeRotation.ScanCoversItsWindow | src/platform/win32/discovery_win32.c:581-594 | A host is probed exactly when it is not the local one and lies within the window ahead of the start; only the local host makes the scan probe fewer. |
| ProbeRotation.ReachedWithin | src/platform/win32/discovery_win32.c:573-631 | Each scan is sure to gain window-1 hosts: a host is probed once the scans reach its distance. |
| ProbeRotation.EveryHostIsProbed | src/platform/win32/discovery_win32.c:569-595 | A single subnet, any n usable hosts and window w >= 2: from any offset, every host but the local one is probed within ceil((n-1)/(w-1)) consecutive scans. |
| ProbeRotation.LargestSubnetTakesNineScans | src/platform/win32/discovery_win32.c:573-577 | For a /24 and the window of 32 in the code that is nine scans. |
| ProbeSharing.ScannedPrefixLeavesTwoHosts | src/platform/win32/discovery_win32.c:544-572 | A prefix that is scanned has no usable host at /31 and /32 and otherwise 2 to 254. |
| ProbeSharing.ScanIsCompleteIff | src/platform/win32/discovery_win32.c:573-635 | Two subnets or more, any offset: one scan probes every host but the local ones if and only if all of them together fit into the window. |
| ProbeSharing.SmallSubnetHidesLaterHosts | src/platform/win32/discovery_win32.c:573-631 | Behind a subnet of u hosts, no scan of any run from any offset probes a host numbered u + window or more of the next subnet, because the offset is reduced modulo u first. |
| ProbeSharing.LinkHidesHosts | src/platform/win32/discovery_win32.c:573-631 | A failing input: behind a /30 with two hosts, hosts 34 to 254 of a /24 are out of reach of every run. |
| ProbeSharing.LargeLaterSubnetHasHole | src/platform/win32/discovery_win32.c:573-635 | Behind any other subnet, a subnet of at least window + 3 hosts has a host besides the local one that no scan of any run from any offset probes. |
| ProbeSharing.LargeSubnetKeepsTheBudget | src/platform/win32/discovery_win32.c:581-635 | A first subnet of at least the window whose local host is outside its range uses up every scan from every offset and goes on rotating by itself. |
| ProbeSharing.OthersNeverGetAProbe | src/platform/win32/discovery_win32.c:581-635 | Then no host of any other subnet is ever probed. |
| ProbeSharing.TailOfFirstIsNeverProbed | src/platform/win32/discovery_win32.c:573-635 | When the local host of the first subnet leaves a window of hosts behind it and no later subnet is larger than its number, no scan of a run that starts before it probes those hosts, although they are in the first subnet. |
| ProbeSharing.CoveredIffTargetsFit | src/platform/win32/discovery_win32.c:529-640 | Since the start of the program every host but the local ones is probed sooner or later if and only if all together fit into the window - for any two or more subnets that fit, or of which a later one has at least window + 3 hosts, the first takes the whole budget, or the first has such a tail. |
| ProbeSharing.MoreThanFitsMayBeCovered | src/platform/win32/discovery_win32.c:573-635 | Outside those cases more than fits may be covered: two subnets of 30 hosts with the window of 32 are. |
| Sampler.RateSampler.constructor | src/core/sampler.c:7-21 | A fresh sampler tracks nothing, has time base 0, no history and no providers. |
| Sampler.RateSampler.SetSources | src/core/sampler.c:24-39 | Installs only the providers that are given and keeps the others. |
| Sampler.RateSampler.PushHistory | src/core/sampler.c:41-52 | Pushing on the ring keeps exactly the last 300 samples, oldest first. |
| Sampler.RateSampler.History | src/core/sampler.c:220-235 | Copies the last min(stored, cap) samples, oldest first; nothing for a missing buffer. |
| Sampler.RateSampler.FindTargetIndex | src/core/sampler.c:65-73 | The search loop returns the first target of that name. |
| Sampler.RateSampler.FindByName | src/core/net.c:18-29 | The search loop returns the first interface of that name. |
| Sampler.RateSampler.AccumulateTargetDelta | src/core/sampler.c:84-111 | Renews one baseline and adds each direction that did not go down, modulo 2^64; a new name adds nothing, a full table ignores it. |
| Sampler.AccumulateInTwoSteps | src/core/sampler.c:87-110 | Creating a blank entry and then renewing it is the same as appending the renewed entry. |
| Sampler.RateSampler.EvictUntracked | src/core/sampler.c:116-128 | The in-place compaction keeps exactly the targets seen in this poll, in order, with cleared flags. |
| Sampler.RateSampler.ResolveDeltas | src/core/sampler.c:135-176 | All mode sums the eligible interfaces, Auto and Manual the single one; a lookup failure reports its status and leaves the table. |
| Sampler.RateSampler.Poll | src/core/sampler.c:179-217 | One poll: a refused or failed snapshot changes nothing, a failed selection drops every baseline, a success records the rate of the wrapped totals over the wrapped time difference. |
| SamplerRuns.BaselinesShareTheTimeBase | src/core/sampler.c:84-128 | After every run in every mode: distinct names, clear flags, at most one target in Auto and Manual, and every baseline was recorded by the poll whose clock reading is the time base. |
| SamplerLaws.PollFailsExactlyWhen | src/core/sampler.c:135-206 | When a poll fails and with which status: its snapshot failed, Auto has no default route, or no listed interface has the name wanted; All never fails on a snapshot. |
| SamplerLaws.SingleModeMeasuresTheWanted | src/core/sampler.c:157-176 | Over any run: after a success the table holds exactly one interface, the first listed one of the default route in Auto and of the configured name in Manual, with its new counters. |
| SamplerLaws.SingleModeCountsGrowth | src/core/sampler.c:84-111 | Auto and Manual count what that interface has grown since it was last measured, nothing after a reset and nothing when another one was measured last. |
| SamplerLaws.AllModeMeasuresTheRest | src/core/sampler.c:142-153 | All mode leaves out loopback interfaces and, unless asked for, virtual ones, and nothing else, repeated entries included. |
| SamplerLaws.AllModeTracksTheRest | src/core/sampler.c:142-155 | When the names fit, the table then holds exactly the names of those interfaces. |
| SamplerLaws.ResetCountsNothing | src/core/sampler.c:103-108 | A counter that went down adds nothing, any other the difference, each direction by itself. |
| SamplerLaws.SampleIsTheRateSinceLastSuccess | src/core/sampler.c:55-62 | Over any run: a success adds a sample with its clock reading whose rates are, rounded to the nearest whole number, the bytes of this poll over the time since the last success; 0 when no time has passed. |
| SamplerRuns.FailedSnapshotsLeaveNoTrace | src/core/sampler.c:189-193 | Any number of failed snapshots leaves baselines, time base and history as they were. |
| SamplerRuns.FailedSnapshotsLoseNothing | src/core/sampler.c:189-193 | In All mode, however many snapshots fail in between, the next success counts everything the interfaces grew since the last success. |
| SamplerRuns.FreshBaselineReportsZero | src/core/sampler.c:196-208 | The first success after the start, after a failed selection, or on interfaces the last success did not measure reports rate 0, unless a name is repeated and grows within the snapshot itself. |
| SamplerRuns.FreshBaselineCountsNothingIff | src/core/sampler.c:84-111 | For every list whose names fit the table, repeated names included: a poll that meets fresh baselines counts nothing if and only if no entry exceeds the entry of its own name before it. |
| SamplerRuns.PollCountsEachInterface | src/core/sampler.c:84-128 | One All-mode poll of any list whose names fit the table: the table becomes the map of its interfaces, and the bytes are what every entry grew since the one of its name before it. |
| SamplerRuns.BytesAreConserved | src/core/sampler.c:141-155 | Over any run in All mode whose names fit, repeated ones included: the table is the map of the last success, and the counted bytes of a direction are the sum over names of every non-decreasing step between consecutive entries. |
| SamplerRuns.ShareOfSingleEntry | src/core/sampler.c:76-83 | A name that occurs once in a snapshot gets exactly its own step from the snapshot before, and none after a gap or a reset. |
| SamplerRuns.DuplicateNamesCountAtOnce | src/core/sampler.c:84-111 | The failing input: with two entries of one name the very first poll counts the difference of their counters. |
| RateHistory.HistoryAfterAnyRun | src/core/sampler.c:41-52 | After any run the history is the last min(successes, 300) samples, oldest first. |
| RateHistory.RateWindow.ShiftDown | src/ui/tray_win32.c:236-237 | The overlapping move shifts every rate down by one. |
| RateHistory.RateWindow.Push | src/ui/tray_win32.c:233-239 | The window holds the last min(pushes, 32) rates, oldest first. |
| RateHistory.SamplerWorker.PollOnce | src/ui/tray_win32.c:215-242 | After every turn, paused or not, the window equals the RX rates of the last min(successes, 32) samples of the run, and the newest sample is the one shown. |
| RateHistory.WindowFollowsHistory | src/ui/tray_win32.c:228-242 | The window always shows the tail of the sampler's own history. |
| RateHistory.WindowEndsWithTheDownloadRate | src/ui/tray_win32.c:232-241 | The window shows as many rates as there are samples, at most 32, and ends with the download rate of the newest. |
| Clock.AddMod | src/platform/win32/clock_win32.c:13-19 | One wrapping addition with its two-way carry test is an exact addition modulo the divisor. |
| Clock.TakeBit | src/platform/win32/clock_win32.c:11-30 | One turn of the loop keeps quotient * divisor + remainder equal to value times the bits taken so far. |
| Clock.MulDivFraction | src/platform/win32/clock_win32.c:6-33 | For every 64-bit value < divisor and 32-bit multiplier the wrapping loop returns floor(value * multiplier / divisor). |
| Clock.MonotonicNs | src/platform/win32/clock_win32.c:36-59 | The reading is floor(ticks * 10^9 / f) modulo 2^64, and 0 without a counter. |
| Clock.ClockIsExactWhileItFits | src/platform/win32/clock_win32.c:51-58 | The reading is exact if and only if the exact count fits 64 bits. |
| Clock.WholeSeconds | src/platform/win32/clock_win32.c:55-59 | Any number of whole seconds of ticks is that many thousand million nanoseconds. |
| Clock.ClockIsMonotoneIffItFits | src/platform/win32/clock_win32.c:51-58 | For every frequency: up to a tick the clock never runs backwards if and only if the exact count of that tick fits 64 bits. |
| DnsName.SkipName | src/platform/win32/discovery_win32.c:84-103 | The skip loop succeeds exactly when the name skips within 128 steps, with that end. |
| DnsName.ReadWithin | src/platform/win32/discovery_win32.c:112-138 | The reading loop stops at its limit even on pointer cycles, reads only inside the packet, keeps the buffer terminated, and reports the decoded labels and end. |
| DnsName.ReadName | src/platform/win32/discovery_win32.c:105-139 | A read succeeds exactly when the name decodes within 128 steps to a non-empty text; text, terminator and end offset are those of the decoding, and a failed read leaves the terminated text of the labels met so far. |
| DnsName.DecodeAgrees | src/platform/win32/discovery_win32.c:112-138 | Decoding agrees with an inductive relation for section 4.1.4 of RFC 1035: it yields exactly the labels derivable within the limit. |
| DnsName.ReadingFollowsTheRelation | src/platform/win32/discovery_win32.c:105-139 | A read reports some labels exactly when they are derivable in at most 128 steps and not empty, as joined text cut to the buffer. |
| DnsName.SmallerBufferReadsPrefix | src/platform/win32/discovery_win32.c:129-135 | A smaller buffer yields a prefix of what a larger one yields, and success carries over. |
| DnsName.PointerCycleNeverDecodes | src/platform/win32/discovery_win32.c:118-124 | A name that leads back to itself through pointers has no decoding at all. |
| DnsName.SkipFollowsRead | src/platform/win32/discovery_win32.c:84-103 | Whatever reads can be skipped from the same start, with the same end offset. |
| DnsName.SkipMovesForwardInBounds | src/platform/win32/discovery_win32.c:86-101 | A successful skip moves forward and stays inside the packet. |
| DnsName.WriteQName | src/platform/win32/discovery_win32.c:141-160 | Writing succeeds exactly when every label has 1 to 63 octets and the encoding fits; then the packet holds the encoding and is otherwise unchanged. |
| DnsName.WritableIff | src/platform/win32/discovery_win32.c:141-160 | A name can be written exactly when each label has 1 to 63 octets and the packet has room for all of them, a length octet each and the end. |
| DnsName.JoinedByDots | src/platform/win32/discovery_win32.c:129-135 | Labels read are joined by full stops. |
| DnsName.EncodedIsDerivable | src/platform/win32/discovery_win32.c:141-160 | What is written is derivable by the decoding relation. |
| DnsName.CompressedDerives | src/platform/win32/discovery_win32.c:118-124 | Labels followed by a pointer to an encoded name derive all of both (section 4.1.4 of RFC 1035). |
| DnsName.EncodedDecodes | src/platform/win32/discovery_win32.c:105-160 | A written name of k labels decodes to them, ending just past its terminator, exactly when the step limit exceeds k. |
| DnsName.JoinOfLabels | src/platform/win32/discovery_win32.c:145-155 | Joining the labels of a writable name gives the name back, without a trailing dot. |
| DnsName.LabelsOfJoin | src/platform/win32/discovery_win32.c:145-155 | Splitting joined labels gives the labels back. |
| DnsName.ReadUndoesWrite | src/platform/win32/discovery_win32.c:105-160 | A written name reads back from wherever its bytes stand exactly when it has 1 to 127 labels; the text is the name, cut to the buffer, the offset just past the terminator. |
| DnsName.WrittenNameReadsBack | src/platform/win32/discovery_win32.c:105-160 | Writing and then reading at the same offset, for any packet, name and buffer: the read succeeds exactly when the name has 1 to 127 labels, ends just past what was written, and gives the name itself exactly when it has no dot at its end and the buffer holds it. |
| DnsName.DottedNameRoundTrips | src/platform/win32/discovery_win32.c:105-160 | Every dotted name of 1 to 127 labels that fits the buffer comes back identical (sections 3.1 and 2.3.4 of RFC 1035). |
| DnsResponse.SkipQuestions | src/platform/win32/discovery_win32.c:222-227 | Skipping the questions succeeds exactly when all of them are complete, with the offset after the last. |
| DnsResponse.ReadRecord | src/platform/win32/discovery_win32.c:230-240 | A record is read exactly when its name, fixed part and data lie inside the packet. |
| DnsResponse.FindHostName | src/platform/win32/discovery_win32.c:212-249 | The walk succeeds exactly when a record before the first malformed one is a pointer whose data reads; succeed or fail, the buffer holds the terminated text of the last pointer record tried, or is untouched when there was none. A caller that cleared it sees that text up to its first NUL. |
| DnsResponse.CallerSeesTextIff | src/platform/win32/discovery_win32.c:241-249 | What a caller that ignores the status sees in the buffer: after a success the name up to its first NUL, and some text exactly when its first label does not begin with a NUL; after a failure some text exactly when the last pointer record starts with a readable label that does not begin with one. |
| DnsResponse.NulLabelIsNotSeen | src/platform/win32/discovery_win32.c:132-135 | The packet that tells the two apart: a label holding a NUL and then a reserved octet leaves that label in the buffer, and no text is seen. |
| DnsResponse.RecordsLieInOrder | src/platform/win32/discovery_win32.c:228-248 | On every packet the records follow each other without overlap and inside the packet. |
| DnsResponse.NameComesFromFirstReadablePointer | src/platform/win32/discovery_win32.c:241-246 | The name comes from the first type-12 record whose data decodes, in answer, authority, additional order; no name means there is none. |
| DnsResponse.EncodedResponseParses | src/platform/win32/discovery_win32.c:216-248 | Every well-formed encoded response (sections 4.1.1 to 4.1.3 of RFC 1035) is read as exactly its records. |
| DnsResponse.FindsTheEncodedName | src/platform/win32/discovery_win32.c:216-249 | In every well-formed encoded response, the first pointer record whose data derives a non-empty name within 128 steps is found, however that name is compressed and whatever pointer records precede it without one. |
| DnsResponse.FindsTheCompressedName | src/platform/win32/discovery_win32.c:216-249 | In particular data made of labels and a compression pointer to an encoded name yields all of their labels. |
| DnsResponse.FindsNothingIff | src/platform/win32/discovery_win32.c:241-249 | Nothing is found in a well-formed response if and only if no pointer record derives a non-empty name. |
| Config.MoveDown | src/core/config.c:38-40 | The overlapping move brings the text down to the start of the token and touches nothing outside it. |
| Config.TrimInPlace | src/core/config.c:32-46 | The in-place trim of a token leaves its text without blanks and tabs in front and without those and line ends behind, and the rest of the buffer as it was. |
| Config.Store.constructor | src/core/config.c:8-15 | The defaults. |
| Config.Store.AssignKey | src/core/config.c:66-95 | A known key with an accepted value sets its one field; everything else changes nothing. Numbers are read as strtoul reads them. |
| Config.IntervalStored | src/core/config.c:88-94 | For every text: it is stored exactly when all of it is a numeral and the number is not 0; what is stored is the number written exactly when that is positive and fits 32 bits, the maximum when it is larger in size than that, and otherwise, being negative, its wrapped value. |
| Config.NegativeIntervalIsAccepted | src/core/config.c:88-94 | In particular every negative interval is accepted, wrapped within 32 bits and as the maximum beyond. |
| Config.Store.ApplyPair | src/core/config.c:60-95 | Cutting the buffer at the separator and trimming both sides in place, neither disturbing the other, assigns the trimmed key and value. |
| Config.Store.Apply | src/core/config.c:49-96 | One line has the effect of its trimmed key and value, blank and comment lines none. |
| Config.Store.ParseText | src/core/config.c:99-120 | The character loop with its 512-byte line buffer equals applying every line, cut to what fits. |
| ConfigLaws.LastEntryWins | src/core/config.c:49-120 | Over any lines, each of the five fields is what the last line says that names its key with an acceptable value, blanks around key and value aside. |
| ConfigLaws.FieldStaysWithoutEntry | src/core/config.c:49-96 | Comments, unknown keys, unacceptable values and lines without an equals sign never change a field. |
| ConfigLaws.LinesAreBetweenNewlines | src/core/config.c:107-119 | The lines of a text are its stretches between newlines. |
| Config.Serialize | src/core/config.c:123-148 | Prints the canonical text, cut to the buffer and always terminated, and returns what was kept. |
| Config.TextLineByLine | src/core/config.c:133-141 | The printed text of any settings, line by line. |
| Config.ParseJoined | src/core/config.c:107-119 | parse(c, a + newline + b) = parse(parse(c, a), b). |
| Config.LineEndingsNeverMatter | src/core/config.c:42-45 | LF and CRLF line endings give the same result for every text, overlong lines included. |
| Config.ParseOfText | src/core/config.c:99-148 | What parsing printed settings yields, field by field, for every name without a newline. |
| Config.NameComesBack | src/core/config.c:74-75 | A name survives printing and parsing exactly when it has no trimmable ends. |
| Config.RoundTrip | src/core/config.c:99-148 | Printed settings come back whole from every starting settings if and only if the name has no newline and no trimmable ends and the interval is not zero. |
| Config.AppliedLinesAreSound | src/core/config.c:88-95 | Parsing never produces a name with a newline or an interval of zero. |
| Config.PrintedTextIsShort | src/core/config.c:133-141 | A printed text has fewer than 256 characters. |
| Decimal.NumeralIff | src/core/config.c:88-94 | The texts taken for a number are exactly blanks, an optional sign and at least one digit, with nothing behind. |
| Decimal.CharacterClasses | src/core/config.c:88-94 | Blanks are a space and the control characters 9 to 13, signs are - and +, digits 0 to 9. |
| Decimal.ValueOfLonger | src/core/config.c:90 | Every further digit counts ten times what came before it, and zeros in front count nothing. |
| Decimal.ParseOfPrint | src/core/config.c:88-94 | Parsing a printed number, unsigned or signed, gives the number. |
| Decimal.IntOfNumeral | src/platform/win32/device_store_win32.c:410 | A signed number is read as written, or as the nearest number within the bounds. |
| DeviceStore.Growable.Add | src/platform/win32/device_store_win32.c:170-182 | Appending doubles a full array, keeps every element in place, and fails only without memory, changing nothing. |
| DeviceStore.Store.FindNetworkIndex | src/platform/win32/device_store_win32.c:152-160 | First network whose key equals the given one up to case. |
| DeviceStore.FindDeviceIndex | src/platform/win32/device_store_win32.c:185-193 | First device whose MAC equals the given one up to case. |
| DeviceStore.Store.AddNetwork | src/platform/win32/device_store_win32.c:170-182 | Growing the network array carries every network along with its own device array: no record changes and no two networks share an array. |
| DeviceStore.Store.FindOrCreateNetwork | src/platform/win32/device_store_win32.c:164-183 | Finds the network or appends a blank one; without memory nothing changes. |
| DeviceStore.Store.FindOrCreateDevice | src/platform/win32/device_store_win32.c:195-214 | Finds the device or appends a blank one to the device array of that network, which grows by itself; no other network changes, and without memory nothing does. |
| DeviceStore.ApplyFields | src/platform/win32/device_store_win32.c:216-233 | The user's label, icon, trust and type win; a learned name or vendor fills only a missing one. |
| DeviceStore.Store.ApplyTo | src/platform/win32/device_store_win32.c:561-570 | Completes a neighbour from its record under that gateway, and leaves it alone when there is none. |
| DeviceStore.Store.ObserveNetwork | src/platform/win32/device_store_win32.c:572-597 | Creates or updates the network of an observation. |
| DeviceStore.Store.ObserveDevice | src/platform/win32/device_store_win32.c:599-610 | Creates or updates the device of an observation. |
| DeviceStore.Store.ObserveNeighbor | src/platform/win32/device_store_win32.c:572-611 | One observation with the outcome of every allocation: ignored without a MAC, stopped where memory fails, otherwise recorded; each is a step of the runs that `ReachableStoreComesBackIff` speaks of. |
| RecordLaws.ObserveKeepsUnique | src/platform/win32/device_store_win32.c:164-214 | Keys stay unique up to case at both levels. |
| RecordLaws.ObserveKeepsProper | src/platform/win32/device_store_win32.c:572-609 | Every device keeps a MAC, and its type is marked as learned exactly when it is known. |
| RecordLaws.ObserveIsPointUpdate | src/platform/win32/device_store_win32.c:572-611 | The store is a case-insensitive map of maps: an observation updates one entry, from its old record or a blank one, and no other. |
| RecordLaws.OtherNetworksAreUntouched | src/platform/win32/device_store_win32.c:561-611 | Observing under one gateway never changes what apply returns under another. |
| RecordLaws.ApplyThenObserveKeepsLearned | src/platform/win32/device_store_win32.c:216-233 | Apply then observe never blanks a learned name or vendor, never changes a learned type, and leaves the user's settings, for every device. |
| RecordLaws.ObserveAloneKeepsNameIffReported | src/platform/win32/device_store_win32.c:600-601 | Observe alone keeps a learned name exactly when the observation carries one. |
| RecordLaws.SameKeyIff | src/platform/win32/device_store_win32.c:152-192 | Two keys are the same exactly when they have the same length and differ at most in the case of ASCII letters. |
| RecordLaws.TypeIsLearnedOnceWhenSure | src/platform/win32/device_store_win32.c:602-607 | A device type is learned exactly when it is known and reported with a confidence of at least 80, and a learned one never changes. |
| RecordLaws.ObservationIsStamped | src/platform/win32/device_store_win32.c:597-609 | The record gets the reported host name and vendor and the time; its first time is set once, and what the user has set stays. |
| RecordLaws.NetworkLearnsFromContext | src/platform/win32/device_store_win32.c:577-595 | An observation changes one network only: gateway name, vendor and ISP when they are given, the first time once, the last time always. |
| RecordLaws.ApplyCompletes | src/platform/win32/device_store_win32.c:216-233 | What the user has set and a learned type win over what was reported, a reported name or vendor over a recorded one; nothing else changes, and without a record nothing at all. |
| RecordLaws.ApplyIsIdempotent | src/platform/win32/device_store_win32.c:216-233 | Completing a neighbour twice is completing it once. |
| Persistence.NetworkNodesComeBack | src/platform/win32/device_store_win32.c:491-531 | The nodes written for a network, its attributes and its devices, read back as exactly that network after the ones before it. |
| DeviceFile.WriteStore | src/platform/win32/device_store_win32.c:463-540 | The nested writing loops over both levels of arrays produce the file of the store. |
| DeviceFile.ReadDeviceAttributes | src/platform/win32/device_store_win32.c:235-276 | The guarded attribute loop reads the first 64 attributes into a blank device. |
| DeviceFile.ReadNetworkAttributes | src/platform/win32/device_store_win32.c:278-332 | The guarded attribute loop reads the first 64 attributes into a network. |
| DeviceFile.FindAttribute | src/platform/win32/device_store_win32.c:336-347 | The first attribute of that name. |
| DeviceFile.ReadNetworkInto | src/platform/win32/device_store_win32.c:412-420 | A network element enters the network of its key and reads its attributes. |
| DeviceFile.ReadDeviceInto | src/platform/win32/device_store_win32.c:421-440 | A device element goes to the current network, to the unknown one before the first, and replaces the record of its MAC; without a MAC it is ignored. |
| DeviceFile.ReadStore | src/platform/win32/device_store_win32.c:360-451 | The guarded reading loop builds the store that loading means and reports whether the file is of an older schema. |
| DeviceFile.OpenStore | src/platform/win32/device_store_win32.c:542-559 | Opening loads the file and rewrites it when it is of an older schema; if the rewritten file cannot be moved into place the old one stays. |
| DeviceFile.ObserveAndSave | src/platform/win32/device_store_win32.c:572-611 | The file is written anew exactly when the observation was recorded and the new file could be moved into place; otherwise it stays as it was. |
| Persistence.TypesAreRead | src/platform/win32/device_store_win32.c:120-144 | Reading a printed device type gives the type. |
| FileLaws.TypesAreNamed | src/platform/win32/device_store_win32.c:120-144 | The seven type texts, every other reading as unknown. |
| FileLaws.DeviceAttributesNameTheirFields | src/platform/win32/device_store_win32.c:512-525 | A device element has nine attributes of different names, each carrying the field it is named after. |
| FileLaws.NetworkAttributesNameTheirFields | src/platform/win32/device_store_win32.c:495-508 | A network element has fifteen. |
| FileLaws.AttributesBeyond64AreIgnored | src/platform/win32/device_store_win32.c:242 | The first 64 attributes of an element count, later ones do not. |
| FileLaws.LastAttributeWins | src/platform/win32/device_store_win32.c:242-276 | Whatever attributes a device element has, the last of each name decides: its text, its type, whether it is trusted ("true" or "1") and its times as 64-bit numbers. |
| FileLaws.ReadingANetworkKeepsDevices | src/platform/win32/device_store_win32.c:408-424 | A network element changes the header of one network: its devices stay, and so do all other networks. |
| FileLaws.ReadingADeviceIsPointUpdate | src/platform/win32/device_store_win32.c:425-440 | A device element with a MAC becomes the record of that MAC in the current network, the unknown one before the first, and changes nothing else; one without a MAC changes no record. |
| Persistence.DeviceComesBack | src/platform/win32/device_store_win32.c:509-526 | A device element reads back as the device it was written from. |
| Persistence.NetworkComesBack | src/platform/win32/device_store_win32.c:495-508 | A network element reads back as the network it was written from. |
| Persistence.ReadConcat | src/platform/win32/device_store_win32.c:384-441 | Reading two stretches of nodes is reading one after the other. |
| Persistence.BookComesBack | src/platform/win32/device_store_win32.c:492-531 | Reading the written networks rebuilds them all, in order. |
| Migration.LoadedIsStorable | src/platform/win32/device_store_win32.c:384-441 | Any file, well-formed or not, loads to a store with unique keys, a MAC on every device, consistent types and times that fit. |
| Migration.ReadingAddsAtMostOneEach | src/platform/win32/device_store_win32.c:412-440 | Inside a network every element adds at most one network or device. |
| Migration.SavedBookComesBackIff | src/platform/win32/device_store_win32.c:384-540 | Loading a saved store rebuilds it, in order, if and only if the last start tag of the file is within the limit of 100000 nodes. |
| Migration.SavedIsCurrent | src/platform/win32/device_store_win32.c:446-450 | A saved file is never outdated. |
| Migration.MigrationChangesNothing | src/platform/win32/device_store_win32.c:542-559 | Opening rewrites a file at most once; reloading then gives the same store if and only if nothing was rewritten or the rewritten file is within the limit. |
| FlatFiles.FlatFileLandsUnderUnknown | src/platform/win32/device_store_win32.c:421-440 | A flat v1 file of any length is outdated and lands wholly under the empty key, each MAC with its last record within the node limit. |
| FlatFiles.OutdatedIff | src/platform/win32/device_store_win32.c:385-446 | The first element of a file, whatever its name, decides whether it is outdated: its version is missing or reads as a number below 2. |
| FlatFiles.FlatFileSurvivesMigration | src/platform/win32/device_store_win32.c:446-450 | Migrating a flat file and loading the result gives the same records if and only if the number of its different MACs plus three is within the node limit. |
| FlatFiles.ReachableStoreComesBackIff | src/platform/win32/device_store_win32.c:360-611 | Whatever file a store came from and whatever it observed, it comes back from the file it writes exactly when that file is within the limit. |
| TrayWorker.FindGateway | src/ui/tray_win32.c:349-358 | The first network whose gateway MAC is known. |
| TrayWorker.DiscoveryWorker.AttributeGateway | src/ui/tray_win32.c:359-376 | A poll without a gateway stays with the last one; a different gateway is remembered and signals an ISP refresh. |
| TrayFiling.GatewayInUse | src/ui/tray_win32.c:346-376 | After any run the gateway in use is the most recent non-empty one, or the unknown network if none was ever seen. |
| TrayFiling.MostRecentGatewayIsUsed | src/ui/tray_win32.c:359-376 | When poll k saw a gateway and no later poll did, that gateway is in use. |
| TrayFiling.WithoutGatewayTheNetworkIsUnknown | src/ui/tray_win32.c:346-358 | Until a gateway has been seen, devices go to the unknown network. |
| TrayFiling.RefreshesExactlyOnChange | src/ui/tray_win32.c:364-375 | A refresh is signalled exactly when the gateway in use changes. |
| TrayFiling.GatewayFollowsSuccesses | src/ui/tray_win32.c:336-376 | The discovery thread's gateway is that of its successful polls. |
| TrayWorker.CompleteEvents | src/ui/tray_win32.c:377-379 | Every reported event is completed from the store under the gateway of the poll. |
| TrayWorker.FileActive | src/ui/tray_win32.c:402-412 | The loop applies and observes every active device in order, and lists each as applied. |
| TrayWorker.DiscoveryWorker.PollOnce | src/ui/tray_win32.c:334-412 | One turn of the thread: table, gateway, store and map follow the turn as a whole, a failed poll changes nothing, and the reported events are the first 32 of the poll, each completed from the store as it was before the turn under the gateway of the turn. |
| TrayFiling.FilingKeepsLearned | src/ui/tray_win32.c:402-412 | Filing a poll never blanks a learned name or vendor and never changes a learned type. |
| TrayFiling.FilingStaysInItsNetwork | src/ui/tray_win32.c:402-412 | Filing under one gateway leaves the devices of every other network as they were. |
| TrayFiling.FilingRecordsWhatIsShown | src/ui/tray_win32.c:402-412 | After a poll the record of any MAC under the gateway has the name and vendor the map shows for the last active device of that MAC; without such a device it is as before. |
| TrayFiling.RunKeepsLearned | src/ui/tray_win32.c:330-412 | Over any run of the discovery thread nothing learned about any device is lost. |
| TurnLaws.ActiveDevicesAreFiled | src/ui/tray_win32.c:402-412 | The devices filed are exactly the active ones of the table, in slot order, each at the place given by the active slots before it. |
| TurnLaws.MapShowsTheActiveSlots | src/ui/tray_win32.c:402-412 | The map of a turn has one entry for every active slot and no other, in slot order, with its address and MAC. |
| TurnLaws.MapShowsTheRecords | src/ui/tray_win32.c:405-411 | The map shows what the user has set for a device, and its learned type, as recorded before the turn. |
| TurnLaws.TurnRecordsTheActiveSlots | src/ui/tray_win32.c:402-412 | After a turn, the record of a MAC with an active slot is what the map shows for the last such slot, stamped with its time; the record of a MAC no active slot has is unchanged. |
| TurnLaws.TurnLeavesOtherNetworks | src/ui/tray_win32.c:402-412 | Other networks keep their devices. |
| TurnLaws.TurnContextIsTheFirstGateway | src/ui/tray_win32.c:346-376 | A turn is attributed to the first network with a known gateway, with its name and vendor, or else to the last gateway without either. |
| SpeedMeter.StepIsSafe | src/ui/speed_meter_win32.c:69-96 | Every step of the UI thread, a worker or the waiter keeps the invariant, brings no worker back to life and drops a cancel request only when none is live. |
| SpeedMeter.RunIsSafe | src/ui/speed_meter_win32.c:464-522 | The same for every interleaving of any length. |
| SpeedMeter.AtMostOneLiveWorker | src/ui/speed_meter_win32.c:490-510 | At most one test worker is ever live. |
| SpeedMeter.CancelClearsOnlyWhenIdle | src/ui/speed_meter_win32.c:495-500 | The cancel flag returns to 0 only while no worker is live. |
| SpeedMeter.CancelSticks | src/ui/speed_meter_win32.c:93-96 | A cancel request stays set as long as the worker it was meant for is live. |
| SpeedMeterLaws.CancelReachesTheWorker | src/ui/speed_meter_win32.c:93-96 | Over every interleaving: once a cancellation, a stop or the destruction asks for it, the worker of that moment sees the flag set for as long as it lives. |
| SpeedMeterLaws.CancelledIffRequested | src/ui/speed_meter_win32.c:500-522 | A live worker sees the flag exactly when its cancellation was requested since it was created: none is lost, and none is left over from an earlier test. |
| SpeedMeterLaws.StartIsPossibleIffIdle | src/ui/speed_meter_win32.c:490-522 | With the window open and the UI thread at rest, the running flag is set exactly while a test is in progress, and a new one can be started exactly when none is: a finished, failed or stopped test never blocks the next. |
| SpeedMeterLaws.ResultComesBeforeTheFlag | src/ui/speed_meter_win32.c:477-480 | No worker clears the running flag before it has published its result. |
| SpeedMeterLaws.LateWorkersStayQuiet | src/ui/speed_meter_win32.c:451-469 | A worker that first runs after the window is gone exits at once, and no worker begins another report. |
| SpeedMeterLaws.NoWakeAfterTheMark | src/ui/speed_meter_win32.c:481-483 | No worker wakes the window at its end once the destruction is marked. |
| SpeedMeterLaws.DestroyWithoutThreadFreesAtOnce | src/ui/speed_meter_win32.c:613-637 | A window destroyed without a thread handle frees its state within the destruction itself. |
| SpeedMeterLaws.DestroyWaitsIffAWorkerLives | src/ui/speed_meter_win32.c:618-636 | Over every interleaving: the destruction waits for a worker exactly when one is live when it looks; otherwise it frees the state within itself. |
| SpeedMeterLaws.FreedTidily | src/ui/speed_meter_win32.c:69-79 | Over every interleaving: when the state is freed its running flag is clear and its thread handle closed. |
| SpeedMeterLaws.DestroyBlocksAsLastResort | src/ui/speed_meter_win32.c:619-632 | The destruction waits on the UI thread only after both the registered wait and the fallback thread were refused. |
| SpeedMeter.FreedOnceAndLast | src/ui/speed_meter_win32.c:613-637 | The state is freed at most once, only after every worker has exited, and is never touched afterwards. |
| SpeedMeter.StuckMeansFreed | src/ui/speed_meter_win32.c:613-637 | A run cannot go on if and only if it has freed the state, exactly once, whichever branch was taken. |
| SpeedMeter.EveryDestructionEnds | src/ui/speed_meter_win32.c:613-637 | For every run from the start: once the window is destroyed, at most 16 steps other than progress reports remain whatever the threads do, and when they are used up the state has been freed. |
| SpeedMeter.DestructionCanAlwaysFinish | src/ui/speed_meter_win32.c:69-90 | From any moment of the destruction some continuation without reports frees the state within the steps left. |

## Left out

- All Win32, Winsock, WinHTTP, COM and registry calls, file access, sockets and threads themselves: what they deliver is an input.
- XmlLite, UTF-8 and UTF-16 conversion and path handling: the device file is a stream of start tags and other nodes, with values that fit their fields and conversions that succeed.
- Painting, menus, notifications, icons, message plumbing, the tray's shutdown, `src/core/format.c` and the gauge.
- Easy members: status and quality strings, version comparison, host-name and vendor classification, JSON extraction, the latency sort, the log.
- NULL objects and NULL strings, except for missing buffers and providers, which are modelled.
- Config.TrimInPlace: a text inside the line buffer is given by its bounds instead of its terminating NUL.
- Sampler.RateSampler.Poll: the rate is exact rational arithmetic rounded half up; the program's double agrees only while the values are small.
- DiscoveryRuns.TableAfterAnyRun: speaks of runs in which no address comes both with a MAC and without, since without that it fails (`MixedRunSharesOneSlot`); other runs are covered poll by poll by the laws of DiscoveryLaws.
- SpeedMeter.DestructionCanAlwaysFinish: needs a worker that runs to its end; how long a transfer takes to notice the cancel flag is not modelled.
- SpeedMeter.FreedOnceAndLast: registering the wait, with the handle it writes into the state, is one step, and the fonts and brush freed with the state are not modelled.
- NeighborSnapshot.NeighborList.ReadRow: the text of an address, the name and the type of a row come with it, and an IPv6 address is its first byte.
- ProbeRotation.Prober.Scan: adapters that are down, loopback and link-local addresses and repeated subnets are filtered out before, and the 5-second wait for replies is not modelled.
- ProbeRotation.EveryHostIsProbed: speaks of a single subnet; with several it fails, as `ProbeSharing.CoveredIffTargetsFit` says.
- ProbeSharing.CoveredIffTargetsFit: several subnets that neither fit nor fall under one of its three reasons are not decided, as some of them are covered (`MoreThanFitsMayBeCovered`). The neighbour list never fills up here, and subnets without usable hosts, which a scan skips, are left out of the list.
- DeviceFile.ReadNetworkInto: memory is assumed to suffice while a file is read, so the branch without a current network after a failed allocation is not modelled.
- DeviceFile.ReadDeviceInto: likewise; a device that finds no memory is skipped by the program.
- DeviceFile.ReadStore: likewise, and errors of the XML reader in the middle of a file are not modelled.
- DeviceFile.OpenStore: likewise, and an application-data path that cannot be found is not modelled.
- DeviceFile.WriteStore: failures inside the writer of the temporary file are not modelled, only that the finished file could not be moved into place.
- TrayWorker.FileActive: memory is assumed to suffice for the records, and the file written after each observation is left to `DeviceFile.ObserveAndSave`.
- TrayWorker.DiscoveryWorker.PollOnce: likewise; the identity refresh that observes without applying first runs on another thread and is not interleaved.
