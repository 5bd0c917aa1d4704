# BGP stress harness: a verified model

The harness peers one VyOS router with a fleet of simulated BGP speakers, feeds it generated routing tables, churns
it, and decides whether what it measured can be believed. This project models the parts that decide: the table
writer and its independent reader, the prefix planner, the convergence and predicate state machines, the
configuration change protocol, allocation, the weighted draw and the address repair. What the source does step by
step on fields or cursors is a class or a loop here, proved against a function of the old state or the input; what
it promises is then proved of that function, over every input, run or reachable state.

`dafny verify dfyconfig.toml` checks everything.

## The parts

**MRT tables.** `TableDump` is the TABLE_DUMP_V2 wire format as a grammar (trees, the octets they print, side
conditions; sections 2 and 4.3 of RFC 6396, section 4.3 of RFC 4271). `MrtCheck` holds the cursor loops of the
structural reader, proved against the front-to-back reading of `MrtParse`, and that against the grammar: a file is
accepted if and only if it prints a sound dump, which is then unique. `RouteGen` and `MrtWriting` are the encoders
and the streaming writer; `MrtRoundTrip` recovers every field that was written, and `WireOctets` says the format once
more in plain numbers. `PrefixPlanning` and `PrefixWindows` are the planner: the fraction is a real number, a prefix
is an address and a length. `WindowOffsets` is what the offset does, `ChurnWalk` the churn that uses it. `SessionMrt`
joins them: a session of a profile that passes the capacity check gets a table the reader accepts with the declared
counts. `Bytes`, `Arith` and `Sequences` are what these need of octets, division and lists.

**Convergence.** `Convergence` is the tracker, `ConvergenceRuns` says what its True means in terms of the records fed,
`ConvergenceFields` in those of their fields, `Runner` wraps it in the two retry loops. The sampler, the clock and
zebra's route summary are one object that moves by itself each time it is looked at, and remembers what it showed.

**Predicates.** `Predicates` is the predicate set (`Telemetry` its input), `PredicateRuns` and `PredicateWindows` its
behaviour over any sequence of calls. `LogWindows` is how far back the sampler's log reads look.

**Configuration changes.** `ChurnFragments` has the fragments over a tree in which `set` overwrites a leaf and
`delete` removes a subtree, `ChurnEffects` what each does to it leaf by leaf; `ChaosRun` has the two events that
commit them and the loop that stops when a revert failed. A commit that is not known to have worked took effect up to
an arbitrary point. `Limits` is the maximum-prefix override.

**Allocation and repair.** `Inventory` expands a profile into `Sessions`, `ProfileFacts` says what comes out in terms
of the fleets, `Profiles` joins it with the planner and the table builder. `Scheduler` is the weighted draw,
`AddressRepair` the two interfaces of a container.

## Where the code does less than its documentation says

Each of these is a lemma or a run with a concrete case, an exact condition, or both.

- The reader promises that a RIB entry's peer exists and has the record's family. With a second peer table it looks
  the family up among the peers of all tables but bounds the index by the last one
  (`MrtCheck.StaleFamilyAccepted`, exact condition `MrtCheck.FamiliesRightExactly`).
- The builder's `rib_entries` counts prefixes, not entries (`SessionMrt.TwoPathsAreOneEntry`, exact condition in
  `SessionMrt.GenerateAndCheck`).
- The capacity check does not keep exclusive windows apart when sessions announce different counts
  (`PrefixWindows.MixedCountsOverlap`, exact condition `PrefixWindows.WindowsDisjointExactly`), and a fraction
  outside 0..1 can break the declared count (`SessionMrt.FractionAboveOneMiscounts`, exact condition
  `SessionMrt.DeclaredCountsAnnounced`).
- A walk is said to leave every prefix new and the table its size. The offset moves on by the IPv4 prefixes taken, so
  of more IPv6 ones some are withdrawn as soon as they are announced (exact condition
  `ChurnWalk.WindowAnnouncedExactly`); and the first walks announce what the loaded table has already (exact
  condition `ChurnWalk.SizeKeptExactly`). `ChurnWalk.FirstWalkShrinks` is a case of both.
- The FIB observation behind a confirmation may be older than the streak it confirms
  (`ConvergenceRuns.EvidenceOlderThanStreak`, exact condition `ConvergenceRuns.OwnEvidenceExactly`; what the flag
  does mean is `ConvergenceRuns.FibSeenIsEvidence`).
- With `stable_samples` 0 the back-dated seconds exceed the wait (`Runner.NoStableSampleOverstates`, exact condition
  `Runner.BackDatedWithinExactly`).
- The FIB-lag timer is shared by both families, so a healthy one hides a lagging one
  (`PredicateRuns.LagHiddenByOtherFamily`, exact condition `PredicateRuns.EscalatesExactly`).
- A PID change whose pair of PIDs recurs is not reported again (`PredicateRuns.RecurringPairUnreported`, exact
  condition `PredicateRuns.RestartsReportedExactly`).
- A revert that is refused, or that raises anything but a timeout, leaves the router changed without the flag
  (`ChaosRun.RestoredOrFlaggedExactly`); `ev_maxprefix_trip` has no `finally`, so an exception before its revert
  skips it although the comment says it must be attempted (`ChaosRun.TripRestoredOrFlaggedExactly`).
- The squeeze fragment puts back the computed limit, not the one the generated configuration has, and lowers a
  higher one (`Limits.HigherBaseLowered`, exact condition `Limits.SqueezeRevertHoldsExactly`).
- Two fleets with one id can share containers and ports (`ProfileFacts.DuplicateIdsShareAPort`, exact condition
  `ProfileFacts.PortsDistinctExactly`); a peer can be given the router's own address (`ProfileFacts.DutAddressTaken`,
  exact condition `ProfileFacts.DutAddressTakenExactly`).
- A host number is checked against the IPv4 network alone, and only from above: a small IPv6 network or a negative
  host base gives addresses outside their network (`ProfileFacts.SmallV6Network`, `ProfileFacts.NegativeHostBase`,
  exact condition `ProfileFacts.AddressesInNetworkExactly`).
- Weights may be negative, and then the draw is not fair (`Scheduler.NegativeWeightUnfair`, exact condition
  `Scheduler.FairExactly`).
- A log line can fall between two windows (`LogWindows.LineLost`, exact condition
  `LogWindows.EveryLineCountedExactly`).

## Model

| member | source | states |
|---|---|---|
| MrtParse.SegmentsGrammar | tests/mrtcheck.py:177-194 | the AS_PATH walk finds no error exactly on a whole number of segments of kinds 1 to 4 |
| MrtParse.AttrsGrammar | tests/mrtcheck.py:102-197 | the attribute walk reads a list exactly when the list is valid and prints those octets: lengths tile the block, per-code checks included |
| MrtParse.RecordsGrammar | tests/mrtcheck.py:215-342 | the record walk reads a dump exactly when every record is sound where it stands and the dump prints those octets; four levels of lengths tile |
| MrtParse.EntrySound | tests/mrtcheck.py:302-333 | an entry that is read is valid, names a known peer of its family and consumes exactly its own octets |
| MrtParse.EntryComplete | tests/mrtcheck.py:302-333 | a valid entry is always read back, whatever follows it |
| MrtParse.PeersSound | tests/mrtcheck.py:248-269 | peers that are read are valid and tile the rest of the table |
| MrtParse.PeersComplete | tests/mrtcheck.py:248-269 | valid peers are always read back |
| MrtCheck.WalkAsPath | tests/mrtcheck.py:180-194 | the cursor over segments gives the verdict of the segment grammar for that slice, never indexing past it |
| MrtCheck.ReadAttr | tests/mrtcheck.py:111-194 | one turn of the attribute loop is the next attribute of the rest of the block |
| MrtCheck.WalkAttributes | tests/mrtcheck.py:102-197 | the loop reads exactly the attribute list of the block and returns the set of its codes |
| MrtCheck.ReadPeer | tests/mrtcheck.py:250-265 | one peer at the cursor, and where the next starts |
| MrtCheck.ReadPeers | tests/mrtcheck.py:249-269 | the peer loop with its tiling check is the reading of all the remaining octets as that many peers |
| MrtCheck.ReadPeerTable | tests/mrtcheck.py:241-269 | a PEER_INDEX_TABLE body |
| MrtCheck.ReadEntry | tests/mrtcheck.py:303-333 | one RIB entry at the cursor, in the context of the peers declared so far |
| MrtCheck.ReadEntries | tests/mrtcheck.py:302-336 | the entry loop with its tiling check |
| MrtCheck.ReadRib | tests/mrtcheck.py:271-336 | a RIB record body |
| MrtCheck.ReadRecord | tests/mrtcheck.py:216-342 | the record at the cursor, its own length deciding where the next one starts |
| MrtCheck.CheckFile | tests/mrtcheck.py:200-356 | terminates on every octet string; accepts exactly those that print a sound dump with the expected counts, returns that dump and its summary |
| MrtCheck.VerdictGrammar | tests/mrtcheck.py:200-356 | acceptance means that a sound dump prints the file; the dump is unique, and the summary is its own |
| MrtCheck.SummaryCounts | tests/mrtcheck.py:66-79 | the running counters always describe the whole dump read so far |
| WireOctets.SummaryIs | tests/mrtcheck.py:66-78 | what the summary says of a dump, item by item: counts, the codes that occur, the most entries of a record, the first prefix of each family and its length |
| WireOctets.ListsAre | tests/mrtcheck.py:66-78 | the lists it counts hold every peer of every table, every RIB record of a family, every entry |
| MrtCheck.EntriesNamePeers | tests/mrtcheck.py:16-27 | in any accepted dump every entry's index is below the count of the table it follows; its peer has the record's family whenever the families of the tables repeat, as with a single table |
| MrtCheck.FamilyCheckExact | tests/mrtcheck.py:210-211 | one table: what the reader lets through is right for every index and family exactly when its families are the first of those declared so far |
| MrtCheck.FamiliesRightExactly | tests/mrtcheck.py:210-316 | over a whole accepted dump it is right exactly when the families of every table repeat those declared so far |
| MrtCheck.StaleFamilyAccepted | tests/mrtcheck.py:308-316 | a dump that is accepted although an IPv6 entry names an IPv4 peer |
| WireOctets.AcceptedKinds | tests/mrtcheck.py:43-46 | in every accepted file the records stand one after the other, each announced at its offset by the octets 0,13,0,1 (peer table), 0,13,0,2 (IPv4) or 0,13,0,4 (IPv6), its four length octets saying where the next one starts |
| WireOctets.ValidAttrExactly | tests/mrtcheck.py:102-197 | what an attribute the reader takes looks like, code by code in numbers: 1, 2, 3, 4, 8, 14 and 32, nothing asked of others |
| WireOctets.ComplaintIs | tests/mrtcheck.py:135-194 | and which complaint each of them draws otherwise |
| WireOctets.SegmentOctets | tests/mrtcheck.py:180-194 | a segment is a kind from 1 to 4, a count and four octets for each ASN |
| WireOctets.NextHopCarried | tests/mrtcheck.py:317-333 | an entry in order carries attribute 14 in an IPv6 record and attribute 3 in an IPv4 one |
| RouteGen.AttrPrints | harness/routegen.py:230-234 | fails exactly above 65535 octets, otherwise prints one attribute whose length form fits its body |
| RouteGen.AsPathPrints | harness/routegen.py:241-249 | succeeds exactly when both lists have under 256 32-bit numbers, and prints a valid AS_PATH of the non-empty ones |
| RouteGen.HopPrints | harness/routegen.py:252-302 | the next hop of an attribute set succeeds exactly for an address of the record's family, in the reduced form for IPv6 |
| RouteGen.MpReachPrints | harness/routegen.py:270-302 | the MP_REACH encoder, with or without a link-local address, succeeds exactly for IPv6 addresses and prints a valid reduced body |
| RouteGen.CommunitiesPrint | harness/routegen.py:260-262 | succeeds exactly when the pairs fit 16 bits and the list the length field |
| RouteGen.LargePrints | harness/routegen.py:265-267 | succeeds exactly when the triples fit 32 bits and the list the length field |
| RouteGen.EncodePrints | harness/routegen.py:317-326 | encoding succeeds exactly when every field fits, and prints a valid list that carries the next hop where the reader looks |
| WireOctets.EncodedAttr | harness/routegen.py:230-234 | flags as given up to 255 octets, with 16 added and two length octets above |
| WireOctets.EncodedNextHop | harness/routegen.py:252-253 | octets 0x40, 3, 4 and the address |
| WireOctets.EncodedMed | harness/routegen.py:256-257 | octets 0x80, 4, 4 and the value |
| WireOctets.EncodedMpReach | harness/routegen.py:270-302 | octets 0x80, 14, 17, 16 and the address |
| WireOctets.EncodedAsPath | harness/routegen.py:241-249 | code 2: the sequence, of kind 2, before the set, of kind 1, an empty one left out |
| WireOctets.EncodedCommunities | harness/routegen.py:260-262 | code 8 under flags 0xC0, four octets for each pair |
| WireOctets.EncodedLargeCommunities | harness/routegen.py:265-267 | code 32 under flags 0xC0, twelve octets for each triple |
| MrtWriting.PackPrefixPads | harness/routegen.py:346-350 | the octets kept, padded with zeros, are the network address with host bits cleared |
| MrtWriting.NetworkExactly | harness/routegen.py:346-350 | a prefix is taken exactly up to 32 or 128 bits, and its network is the multiple of its block that the address lies in |
| MrtWriting.PeerPrints | harness/routegen.py:353-366 | a peer encodes exactly when its ASN fits, as a valid peer of its address family |
| WireOctets.EncodedPeer | harness/routegen.py:353-366 | kind 2 or 3, id, address, and a four-octet ASN |
| MrtWriting.EntryPrints | harness/routegen.py:413-416 | an entry encodes exactly when index, time, attributes and their length fit |
| MrtWriting.TableSound | harness/routegen.py:397-405 | the writer's table is always sound and declares exactly the writer's peers |
| MrtWriting.JoinPeers | harness/routegen.py:403-404 | the loop over peers |
| MrtWriting.JoinEntries | harness/routegen.py:413-416 | the loop over entries |
| MrtWriting.EncTable | harness/routegen.py:398-405 | the table record, or nothing exactly when a field does not fit |
| MrtWriting.EncRib | harness/routegen.py:409-417 | a RIB record, or nothing exactly when a field does not fit |
| MrtWriting.MrtWriter.constructor | harness/routegen.py:381-388 | a closed writer with nothing written, numbering from 0 |
| MrtWriting.MrtWriter.Open | harness/routegen.py:397-405 | truncates, then the file is the printed table alone, announced by the octets 0,13,0,1 |
| MrtWriting.MrtWriter.Add | harness/routegen.py:407-417 | appends exactly one numbered record, announced by 0,13,0,2 or 0,13,0,4 after what was there, or nothing when a field does not fit; the number is spent once the prefix and number packed |
| MrtWriting.MrtWriter.Close | harness/routegen.py:429-432 | changes nothing in the file |
| MrtRoundTrip.PathBack | harness/routegen.py:241-249 | both AS lists are read back from the segments |
| MrtRoundTrip.PathAttrsBack | harness/routegen.py:305-326 | every field of an attribute set that fits is read back from what it printed |
| MrtRoundTrip.PeerBack | harness/routegen.py:359-366 | a peer is read back |
| MrtRoundTrip.TableBack | harness/routegen.py:397-405 | the table gives back its time, view name and every peer in order |
| MrtRoundTrip.RibBack | harness/routegen.py:407-417 | a record gives back family, time, sequence number, canonical prefix, and each entry's peer index and attributes; for a prefix of the other family, its leading octets |
| MrtRoundTrip.RibVerdict | tests/mrtcheck.py:271-336 | the reader takes a well-framed RIB body exactly when prefix length, entry count and peers are in order |
| MrtRoundTrip.DumpBack | harness/routegen.py:369-432 | the reader accepts the file exactly when there is a peer and every written call was sound, and reads back that very dump |
| MrtRoundTrip.WriteAll | harness/routegen.py:397-417 | for any run of calls, those that raise included, the file is the dump of the calls that were written, under the numbers they got |
| PrefixPlanning.ExpandOctets | harness/generate.py:65-105 | the expansion, or the first of the three complaints that applies; a success is unicast, free of the bogon octets and duplicate-free |
| WindowOffsets.ExpandedMembers | harness/generate.py:76-86 | a range string stands for exactly the numbers its pieces name, both ends of a range included |
| Sequences.SetSizeIsDistinct | harness/generate.py:103-104 | comparing set and list size is a duplicate test, both ways |
| PrefixPlanning.PrefixPlan.WorstContested | harness/routegen.py:172-177 | the loop finds the largest contested count |
| PrefixPlanning.PrefixPlan.SumExclusive | harness/routegen.py:188-191 | the sum of the windows needed |
| PrefixPlanning.PrefixPlan.CheckCapacity | harness/routegen.py:165-206 | passes exactly when both pools cover every session and both spaces hold pool and windows; otherwise names a real shortfall |
| PrefixWindows.AtInjective | harness/routegen.py:98-110 | two indices give one prefix exactly when they agree modulo the capacity, in both families |
| PrefixWindows.AtInPool | harness/routegen.py:98-110 | every planned prefix has no host bits and lies in a declared octet or the declared IPv6 base |
| PrefixWindows.ContestedWithin | harness/routegen.py:114-116 | a fraction in 0..1 splits a count into two non-negative parts |
| PrefixWindows.YieldsDeclaredCountExactly | harness/routegen.py:114-163 | a session announces exactly its declared count if and only if the contested part fits count and pool |
| PrefixWindows.WindowPlacement | harness/routegen.py:139-206 | in a checked profile of equal counts every window lies above the pool, below the capacity and below the later ones |
| PrefixWindows.SessionPrefixesDistinct | harness/routegen.py:139-163 | such a profile gives each session exactly its count of distinct prefixes |
| PrefixWindows.ExclusiveWindowsDisjoint | harness/routegen.py:139-163 | and exclusive windows share no prefix with each other or with the contested pool |
| PrefixWindows.WindowsDisjointExactly | harness/routegen.py:139-163 | for any two windows: disjoint exactly when, round the capacity, each starts past the other's end |
| PrefixWindows.MixedCountsOverlap | harness/routegen.py:188-206 | a profile of mixed counts that passes the capacity check and overlaps |
| PrefixWindows.ContestedWindowSize | harness/routegen.py:118-137 | a contested window has exactly min(cont, pool) different indices, all in the pool |
| PrefixWindows.ContestedWindowsOverlap | harness/routegen.py:118-137 | windows k slots apart share at least width - k * max(1, width / 4) indices, through every wrap |
| WindowOffsets.ContestedTruncates | harness/routegen.py:114-116 | the contested count is the whole number next to the product on the side of zero |
| WindowOffsets.IndicesAre | harness/routegen.py:118-163 | the own window stands behind the pool and one window for each earlier slot, moved by the offset; the contested indices follow, rotated by a quarter of their number for each slot |
| WindowOffsets.OffsetMovesIndices | harness/routegen.py:139-163 | moving the offset moves every index of the own window by as much and leaves the contested ones alone |
| WindowOffsets.OffsetMovesPrefixes | harness/routegen.py:142-143 | so the session announces the prefixes that many indices on, and the same contested ones |
| WindowOffsets.OffsetsDisjointExactly | harness/routegen.py:139-163 | two offsets announce disjoint own prefixes exactly when, round the capacity, they are the size of the own window or more apart both ways |
| WindowOffsets.WalkNeverRepeats | harness/routegen.py:139-163 | so two offsets that far apart inside the capacity never share an own prefix |
| WindowOffsets.V4AddressIs | harness/routegen.py:98-104 | the octets in the order listed, each with as many prefixes as its length leaves room for |
| WindowOffsets.V6AddressIs | harness/routegen.py:106-110 | the base, in steps of the prefix length |
| ChurnWalk.Speaker.Walk | harness/scenarios.py:331-386 | one walk: what it announces and withdraws, the offset after it, and how many prefixes it counts |
| ChurnWalk.AfterWalksIs | harness/scenarios.py:372-386 | over any number of walks the two families do not touch each other and share one offset |
| ChurnWalk.WantedIs | harness/scenarios.py:304-312 | the whole part of the share, and one prefix at least wherever the family has any |
| ChurnWalk.WalksLeave | harness/scenarios.py:372-386 | after any number of walks inside the own window and the capacity, an own prefix is announced exactly when it is in the loaded table or the current window and was in no earlier window |
| ChurnWalk.WindowAnnouncedExactly | harness/scenarios.py:373-377 | after a walk the whole new window is announced if and only if the walk takes no more of the family than it moves on by |
| ChurnWalk.SizeKeptExactly | harness/scenarios.py:373-375 | a family that moves on by what it takes keeps its table size if and only if a walk takes the whole own window; the size after any number of walks otherwise |
| ChurnWalk.FirstWalkShrinks | harness/scenarios.py:372-386 | a plan that passes the capacity check and a session whose first walk withdraws an IPv6 prefix it has just announced, and leaves one IPv4 prefix less |
| SessionMrt.NextSafeUpstream | harness/routegen.py:516-520 | the first draw that is not the router's; none exactly while every draw is |
| SessionMrt.NextSafeOrigin | harness/routegen.py:523-527 | the first draw that is neither the router's nor 23456; none exactly while every draw is one of them |
| SessionMrt.AsPath | harness/routegen.py:503-507 | a safe upstream and a safe origin, after the peer's own ASN unless it is transparent |
| SessionMrt.SafeAsnsAre | harness/routegen.py:503-527 | the ten upstreams, and the origins from 4000 to 63999 without 23456, neither the router's |
| SessionMrt.EntriesFor | harness/routegen.py:471-480 | one entry per path, each with the planned peer, next hop, MED range and communities |
| SessionMrt.BuiltAttrsFit | harness/routegen.py:473-480 | such attributes always fit the wire, in at most 80 octets |
| SessionMrt.AddOne | harness/routegen.py:471-482 | one turn of the prefix loop keeps the dump sound with its counts, and fails only when a number does not fit |
| SessionMrt.AddFamily | harness/routegen.py:468-496 | the prefix loop writes one record per planned prefix, in order |
| SessionMrt.BuildSessionMrt | harness/routegen.py:440-499 | whatever is written is a sound dump announcing exactly the planned prefixes in order, numbered from 0, each with the session's attributes; a session whose numbers fit is always written, unless the plan has no octet to divide by |
| SessionMrt.TableAccepted | tests/mrtcheck.py:200-356 | a finished table is accepted with exactly its own counts and no others, and the entry total is prefixes times paths |
| SessionMrt.DeclaredCountsAnnounced | harness/routegen.py:165-206 | in a checked profile a session announces its declared count of a family if and only if it has an address there and the contested part lies between nothing and the whole, or has none and declares nothing; a fraction in 0..1 ensures the former |
| SessionMrt.GenerateAndCheck | harness/routegen.py:440-499 | end to end, for any session: plan, write and read back; accepted with the declared counts exactly when it has an address and keeps both counts, with (v4 + v6) * max(1, paths) entries; the builder's own entry count agrees exactly with one path per prefix or no prefix |
| SessionMrt.TwoPathsAreOneEntry | harness/routegen.py:498-499 | a session whose `rib_entries` is 1 to the builder and 2 to the reader |
| SessionMrt.FractionAboveOneMiscounts | harness/routegen.py:114-186 | a profile with a fraction above 1 that passes the capacity check and whose table the reader rejects |
| Profiles.Generate | harness/generate.py:722-755 | inventory, octets, plan and capacity check in turn succeed exactly when each would; the plan is well formed and checked for the declared sessions |
| Profiles.GeneratedWindowsDisjoint | harness/generate.py:722-755 | in a generated profile of one count every session announces that many distinct prefixes, and exclusive windows share nothing with each other or the pool |
| Profiles.SessionsAddressed | harness/model.py:315-324 | every session of an expanded profile has addresses inside the address space |
| Profiles.GenerateTable | harness/generate.py:722-755 | from fleets to octets: any session whose numbers fit gets a table, which the reader accepts with its fleet's counts exactly when it has an address, and one in each family it declares something in |
| Convergence.ConvergenceTracker.constructor | harness/telemetry.py:428-456 | a tracker starts as after a reset |
| Convergence.ConvergenceTracker.Reset | harness/telemetry.py:612-617 | every field is forgotten |
| Convergence.ConvergenceTracker.Busy | harness/telemetry.py:494-558 | the reason, and which of the two fields it may move on each exit |
| Convergence.ConvergenceTracker.Feed | harness/telemetry.py:560-610 | result and all five fields after each of the eight exits |
| ConvergenceRuns.StreakIsGoodRun | harness/telemetry.py:593-598 | the streak is the length of the longest good run of one key that ends the history; no other key has one |
| ConvergenceRuns.FibSeenIsEvidence | harness/telemetry.py:450-454 | the FIB flag is set exactly when an equal pair of install counts was seen since the last good record whose key differed from that of the quiet record before it |
| ConvergenceRuns.ConfirmsExactly | harness/telemetry.py:560-610 | True exactly when the last `stable_samples` informative samples are good with one key and, with quiet required, there is FIB evidence |
| ConvergenceRuns.ConfirmedFibWasSteady | harness/telemetry.py:531-557 | a confirmation rests on two equal successive install counts since the reset |
| ConvergenceRuns.EvidenceOlderThanStreak | harness/telemetry.py:450-454 | a run that confirms with no install count in the confirming streak |
| ConvergenceRuns.LastKeyIsNoted | harness/telemetry.py:560-598 | the last key and install count kept are those of the last quiet record and the last comparison |
| ConvergenceRuns.RunStartIsExact | harness/telemetry.py:593-598 | a good run counts exactly the samples from where it starts, and each of them is good |
| ConvergenceRuns.OwnEvidenceExactly | harness/telemetry.py:450-454 | the streak itself saw two equal successive counts if and only if one of its samples carries a count with one before it to compare |
| ConvergenceRuns.CalmRun | harness/telemetry.py:560-610 | calm samples from an agreeing state are all counted, and the flag follows the counts carried |
| ConvergenceRuns.CalmConfirms | harness/telemetry.py:560-610 | liveness: `stable_samples` calm samples with two counts to compare end confirmed |
| ConvergenceRuns.CalmConfirmsFromAnywhere | harness/telemetry.py:560-610 | liveness from any state at all, the first count being allowed to disagree |
| ConvergenceFields.ConfirmsInFields | harness/telemetry.py:463-610 | True exactly when, in the records' own fields, the last `stable_samples` that count show a running router with no failed peer and the peers it is to have, the same table versions and prefix counts in both families, CPU, queue and install count at rest where required, and there is FIB evidence |
| ConvergenceFields.ConfirmedRecordsAgree | harness/telemetry.py:471-492 | so any two of these report equal versions and prefix counts in both families, no failed peer, and the expected count of established ones of each family |
| ConvergenceFields.GoodExactly | harness/telemetry.py:471-558 | what makes one record good, field by field |
| ConvergenceFields.EqualReadingExactly | harness/telemetry.py:526-557 | what makes an equal pair of install counts, field by field |
| Runner.WaitForConvergence | harness/telemetry.py:620-649 | looks at the sampler and nothing else; feeds what it sees there, each record once, nothing older than the latest when it began; returns at the first that confirms or when time is up; the seconds are those since it began, less one interval for each stable sample after the first |
| Runner.BackDatedWithinExactly | harness/telemetry.py:640-646 | back-dated seconds stay within the wait exactly with at least one stable sample or an interval of 0 |
| Runner.NoStableSampleOverstates | harness/telemetry.py:640-646 | a confirmation with no stable sample required, whose second of waiting is reported as three |
| Runner.FibAgrees | harness/runner.py:567-609 | asks zebra once for each family the sample has routes in, IPv4 first; disagrees exactly on a readable summary below the ratio, and names the first; in the record's own fields where it agrees |
| Runner.FibShortIsBehind | harness/runner.py:605-608 | the two places that judge FIB completeness judge alike |
| Runner.CompleteWhenAsked | harness/runner.py:586-608 | with no objection there is an IPv4 answer exactly where the record's IPv4 `rib_count` is not 0, an IPv6 one exactly where its IPv6 one is not, and every readable answer has installed at least the ratio of its routes |
| Runner.JudgeReading | harness/runner.py:721-726 | one summary judged and recorded extends the predicate set's run by that call |
| Runner.JudgeReadings | harness/runner.py:718-727 | all of them, in order |
| Runner.Converge | harness/runner.py:661-762 | everything the call saw is a run of rounds, each a wait that settles on records of that wait and then zebra's answers; True exactly when zebra has no objection to the last, having been asked about exactly the families whose `rib_count` is not 0 and having installed the ratio of each; False only after the whole timeout; every answer is judged, seconds are within the elapsed time, zebra's last objection is the reason kept |
| Predicates.PredicateSet.constructor | harness/telemetry.py:738-757 | the initial fields |
| Predicates.PredicateSet.ImpairBegin | harness/telemetry.py:761-764 | suppression on, nothing else changed |
| Predicates.PredicateSet.ImpairEnd | harness/telemetry.py:766-770 | suppression off after the grace |
| Predicates.PredicateSet.ExpectDaemonRestart | harness/telemetry.py:782-788 | the daemon is announced |
| Predicates.PredicateSet.CheckPid | harness/telemetry.py:884-934 | one process: the restart violation and the three fields |
| Predicates.PredicateSet.CheckRestarts | harness/telemetry.py:883-934 | the loop over processes |
| Predicates.PredicateSet.CheckSessions | harness/telemetry.py:842-854 | the loop over the families: peers down beyond the budget, outside an impairment |
| Predicates.PredicateSet.CheckMemory | harness/telemetry.py:873-881 | one memory budget |
| Predicates.PredicateSet.CheckGone | harness/telemetry.py:935-939 | the daemons that were seen and are gone |
| Predicates.PredicateSet.CheckLogs | harness/telemetry.py:941-981 | the log signatures, in order, with their severities |
| Predicates.PredicateSet.CheckDplane | harness/telemetry.py:983-1039 | dataplane violations and the latched high-water mark |
| Predicates.PredicateSet.Check | harness/telemetry.py:818-1040 | all violations of a record in order, and every field after |
| Predicates.PredicateSet.Record | harness/runner.py:722-726 | keeps what was not seen and remembers its keys |
| Predicates.PredicateSet.CheckNew | harness/telemetry.py:1100-1108 | the first occurrences of what the record raises |
| Predicates.PredicateSet.FeedFib | harness/telemetry.py:1042-1098 | the violation for one summary and the timer after it |
| PredicateRuns.ReportedIsFirstRaised | harness/telemetry.py:1100-1108 | over any run, what is reported is what is raised, first occurrences only |
| PredicateRuns.EachKeyReportedOnce | harness/telemetry.py:657-675 | every key raised in a run is reported exactly once and nothing else is |
| PredicateRuns.PassForDaemon | harness/telemetry.py:883-934 | one pass over distinct processes moves a daemon's record once and raises the one violation that calls for |
| PredicateRuns.RestartsAreChanges | harness/telemetry.py:883-934 | over any run: one restart violation per PID change among judged samples, numbered 1..n, at most one `info` per announcement |
| PredicateRuns.UnseenRestarts | harness/telemetry.py:1100-1108 | suppression treats one daemon's restarts as if nothing else were reported |
| PredicateRuns.RestartsReportedExactly | harness/telemetry.py:657-675 | every change is reported exactly when no pair of PIDs recurs among the announced restarts, and none among the others |
| PredicateRuns.InfoIsAnnounced | harness/telemetry.py:782-788 | over any run a restart is `info` exactly when it was announced and no PID change came between |
| PredicateRuns.RecurringPairUnreported | harness/telemetry.py:657-675 | PIDs 1, 2, 1, 2: three restarts, two reported |
| PredicateRuns.LagSinceIsFirst | harness/telemetry.py:1078-1097 | the timer holds the time of the first reading of the current unbroken lag |
| PredicateRuns.EscalatesExactly | harness/telemetry.py:1078-1097 | `fail` exactly when every measured reading since one more than the grace ago was behind |
| PredicateRuns.OneFamilyEscalates | harness/telemetry.py:1042-1098 | the same for readings of one family, as documented |
| PredicateRuns.SharedTimerHidesLag | harness/telemetry.py:750-752 | with a healthy reading of the other family after each lagging one, a lag never escalates |
| PredicateRuns.LagHiddenByOtherFamily | harness/telemetry.py:1079-1097 | IPv4 behind for longer than the grace, not failed because of one IPv6 reading and failed without it |
| PredicateWindows.PeerFaultsExactly | harness/telemetry.py:720-731 | over any run: a family's peers are faulted exactly when the record's own `failed` exceeds the budget and no impairment or 30-second grace covers the moment |
| PredicateWindows.RaisedExactly | harness/telemetry.py:818-1040 | over any run and in the record's own fields: every violation but a restart is raised exactly when it is warranted (memory over each budget, a daemon seen before and absent now, each log signature, update errors, skipped updates, saturation, failed reads, a stopped router), with its severity |
| PredicateWindows.OnlyPlain | harness/telemetry.py:818-1040 | and by one and the same violation whenever its code is raised |
| PredicateWindows.SeenRunningIs | harness/telemetry.py:883-935 | a daemon counts as seen exactly when a judged record reported a PID for it |
| PredicateWindows.FibRaisedExactly | harness/telemetry.py:1042-1098 | a route summary draws a violation exactly when it is unreadable, has no BGP row or is below the ratio, and which |
| PredicateWindows.SaturationExactly | harness/telemetry.py:730-735 | over any run: saturation is reported exactly when a mark at its limit exceeds every mark before it, or as earlier when there was none |
| PredicateWindows.WatchdogBlamedExactly | harness/telemetry.py:790-816 | over any run: a restart is blamed on the watchdog exactly within 600 seconds of the last unresponsive signature |
| PredicateWindows.FieldsAre | harness/telemetry.py:738-757 | the fields kept are those the run of calls determines |
| PredicateWindows.PeakIsHighest | harness/telemetry.py:983-1039 | the latched mark is the highest any judged record reported |
| LogWindows.Sampler.constructor | harness/telemetry.py:208-240 | no log read yet; the floor is the configured window without its sign |
| LogWindows.Sampler.ReadLogs | harness/telemetry.py:391-401 | the three clock readings in order, the span asked for, and the time remembered |
| LogWindows.Sampler.Sample | harness/telemetry.py:342-404 | only slow samples read logs, and one that ends early leaves the last read as it was |
| LogWindows.Sampler.Loop | harness/telemetry.py:407-420 | any number of samples leaves a run of log reads |
| LogWindows.ReachesBack | harness/telemetry.py:387-401 | a read reaches back to the previous one exactly when the seconds asked for cover the time between and both delays; in particular when the delays stay within the margin |
| LogWindows.EveryLineCountedExactly | harness/telemetry.py:380-401 | every such line is counted if and only if the gap before each read is empty or bridged by that read or a later one |
| LogWindows.EveryLineCounted | harness/telemetry.py:380-401 | with the delays within the margin at every read, every line from the first window's start to the last read is counted at least once |
| LogWindows.LineLost | harness/telemetry.py:380-401 | with the shipped floor and margin, a run that loses a line to a delay one second above the margin |
| LogWindows.FloorAbsorbsDelay | harness/telemetry.py:380-401 | the same delay losing nothing because the floor absorbs it |
| ChurnFragments.ExecAt | harness/dut.py:1051-1074 | the last command that touches a leaf decides it |
| ChurnFragments.RevertRestoresExactly | harness/dutconfig.py:600-606 | a revert after every prefix of the apply gives the start back if and only if the start held what the revert leaves |
| ChurnFragments.RevertedHolds | harness/dutconfig.py:600-606 | whatever came before, the revert's values are in force after it |
| ChurnFragments.GrowLoop | harness/dutconfig.py:614-622 | the loop builds the n-rule fragment and its revert |
| ChurnFragments.RenderChurnFragments | harness/dutconfig.py:600-714 | which fragments exist and what each is; the squeeze only where something is announced and a limit known |
| ChurnFragments.FragmentCovered | harness/dutconfig.py:616-712 | every leaf any fragment sets is decided by its revert |
| ChurnFragments.FragmentReverts | harness/dutconfig.py:616-712 | so every fragment is undone from any point of its apply, exactly from a configuration that held its revert |
| ChurnEffects.FragmentIs | harness/dutconfig.py:611-712 | the commands of every fragment, leaf by leaf and value by value |
| ChurnEffects.ApplyLeaves | harness/dutconfig.py:611-712 | after the apply each of its leaves has its value and every other leaf is as it was |
| ChurnEffects.RevertLeaves | harness/dutconfig.py:611-712 | after the revert its leaves have their values, nothing is left under what it removes, the rest is as it was |
| ChurnEffects.ApplyChangesExactly | harness/dutconfig.py:600-606 | from a configuration that holds the revert every fragment changes something, unless the retag or the squeeze would set what is restored |
| ChaosRun.EvPolicyChurn | harness/scenarios.py:453-492 | the commits sent, the configuration left, and the record, for every way the two commits can end |
| ChaosRun.CommittedRevertRestores | harness/scenarios.py:470-481 | a revert that committed restores whatever part of the apply landed |
| ChaosRun.RestoredOrFlaggedExactly | harness/scenarios.py:437-438 | restored or flagged is certain exactly when the revert committed, or timed out with the apply not raising |
| ChaosRun.UnsaidSwap | harness/dutconfig.py:675-684 | the route-map swap, for every pair of outcomes that is not accounted for, can leave the router changed with nothing said |
| ChaosRun.EvMaxprefixTrip | harness/scenarios.py:551-662 | the same for the squeeze, whose revert is reached only when nothing before it raised |
| ChaosRun.TripRestoredOrFlaggedExactly | harness/scenarios.py:554-631 | certain exactly when neither apply nor sampling raised and the revert is accounted for |
| ChaosRun.UnsaidSqueeze | harness/dutconfig.py:694-712 | so can the squeeze, and it does when the revert is skipped |
| ChaosRun.RunOne | harness/scenarios.py:1161-1173 | what one event does to the configuration and what its record says |
| ChaosRun.ChaosLoop | harness/runner.py:1178-1210 | runs the drawn events in order, sending exactly their commits, and none after one that left the configuration modified |
| ChaosRun.QuietTurnRestores | harness/scenarios.py:481-492 | an accounted event without the flag ends where it began |
| ChaosRun.EveryEventStartsClean | harness/runner.py:1188-1210 | over any run of accounted events whose fragments fit the first configuration, each starts from that configuration; only the last can end elsewhere, and it says so |
| ChaosRun.RenderedRunsStartClean | harness/runner.py:1188-1210 | the same for any run of events with rendered fragments, from any configuration that holds every rendered revert |
| ChaosRun.SomeHoldsAll | harness/dutconfig.py:600-714 | whatever the inventory, there is a configuration that holds every rendered revert |
| Limits.WantIsLargest | harness/dutconfig.py:523-530 | what a group wants is the largest announcement of its members; nothing without a member |
| Limits.PeergroupLimits | harness/dutconfig.py:499-537 | the table is, for every group and family, the limit its members need |
| Limits.PeergroupLimitsIn | harness/dutconfig.py:545-552 | the last matching line decides each limit |
| Limits.RenderPeergroupLimits | harness/dutconfig.py:555-597 | emits exactly the computed limits the base lacks or has lower |
| Limits.EmittedExactly | harness/dutconfig.py:531-588 | a limit is emitted exactly where a member announces and the base says none or a lower one, and it is 1000 or four times the largest announcement |
| Limits.LimitsOnlyRise | harness/dutconfig.py:557-564 | base and override together give the larger of the two at every wanted group and family, and change nothing else |
| Limits.LimitsCoverMembers | harness/dutconfig.py:531-537 | that limit is at least four times every member's count and at least 1000 |
| Limits.SqueezeRevertHoldsExactly | harness/dutconfig.py:686-712 | the squeeze's revert puts the generated limit back exactly when the base limit was not above the computed one |
| Limits.HigherBaseLowered | harness/dutconfig.py:686-712 | a base limit of 400000 that the revert leaves at 20000 |
| Inventory.NextSafeAsn | harness/model.py:50-57 | terminates at the least non-bogon ASN not below its argument |
| Inventory.BogonsAre | harness/model.py:23-47 | the ranges together: 0, 23456, 64496 to 131071, and 4200000000 to 4294967294 |
| Inventory.AddPeer | harness/model.py:303-375 | one turn of the inner loop: succeeds exactly when host, addresses, ASN and router allow, and adds the declared session |
| Inventory.AddFleet | harness/model.py:294-375 | a whole fleet, its ASNs the next safe ones in order |
| Inventory.BuildInventory | harness/model.py:244-380 | succeeds exactly when every declared session can be had; the cursors and the owner table then give exactly the declared sessions |
| Inventory.AsnsAndSlots | harness/model.py:326-373 | ASNs pairwise distinct, none bogon, none the router's; slot equals position |
| Inventory.AddressesDistinct | harness/model.py:315-324 | addresses distinct within a fabric, in both families; IPv4 below the last of its network |
| Inventory.ContainersPartition | harness/model.py:303-374 | each session is in its own container and in no other |
| ProfileFacts.DeclaredAt | harness/model.py:285-375 | peer i of fleet k stands at its place with the host, ASN, ports and slot that follow from the fleets before it |
| ProfileFacts.DeclaredFields | harness/model.py:285-375 | every field of that session: addresses, container and port, peer-groups, counts and paths as its fleet has them, its ASN the least safe one after that of the peer before |
| ProfileFacts.DutAddressTakenExactly | harness/model.py:278-324 | a session gets the router's own address, in either family, exactly when the router's host number falls to a fleet of that family |
| ProfileFacts.DutAddressTaken | harness/model.py:278-324 | a profile that is accepted and whose first peer has it |
| ProfileFacts.AddressesInNetworkExactly | harness/model.py:315-324 | the addresses of a family lie in their network exactly when the hosts that fall to each of its fleets do |
| ProfileFacts.SmallV6Network | harness/model.py:317-324 | a profile that is accepted and hands out an address outside its IPv6 network |
| ProfileFacts.NegativeHostBase | harness/model.py:278-324 | a profile with a negative host base that is accepted and hands out addresses below both networks |
| ProfileFacts.ContainerSize | harness/model.py:303-374 | a container holds exactly what the fleets of its id put into it |
| ProfileFacts.ContainersWithinSizeExactly | harness/model.py:303-313 | no container exceeds `per_container` exactly when what the fleets of each id put in together does not; always with distinct ids |
| ProfileFacts.PortsDistinctExactly | harness/model.py:356-357 | gobgp ports in every container are distinct if and only if no two gobgp fleets with a peer share an id |
| ProfileFacts.DuplicateIdsShareAPort | harness/model.py:303-313 | a profile of two fleets with one id that is accepted, its two speakers on one port of one container |
| Scheduler.Scheduler.Load | harness/scenarios.py:1140-1150 | the table and its total, or the first unknown event, or that there is none |
| Scheduler.Scheduler.Draw | harness/scenarios.py:1152-1159 | the first entry whose running total exceeds the draw; the line after the loop is never reached |
| Scheduler.PicksItsInterval | harness/scenarios.py:1152-1159 | without negative weights an entry answers for exactly the values between its two running totals |
| Scheduler.FairExactly | harness/scenarios.py:1131-1159 | every entry is drawn for as many values as its weight exactly when no weight is negative |
| Scheduler.NegativeWeightUnfair | harness/scenarios.py:1140-1159 | weights 3 and -1: both values draw the first entry |
| AddressRepair.PeerContainer.Missing | harness/peers.py:502-516 | exactly the planned addresses absent from the interface, in the order planned |
| AddressRepair.PeerContainer.Misplaced | harness/peers.py:518-527 | exactly the planned addresses on a different parent, in the order planned |
| AddressRepair.PeerContainer.RestoreOne | harness/peers.py:490-499 | one address: the commands it needs and what they change |
| AddressRepair.PeerContainer.Restore | harness/peers.py:471-500 | runs exactly the commands that are needed, each on its interface; whatever the outcomes no unplanned address and no other interface changes, and if all worked the plan is in force |
| AddressRepair.ChecksDecideRepair | harness/peers.py:502-527 | a repair issues nothing exactly when neither check finds anything, which is when the plan is in force |
| AddressRepair.RepairTwice | harness/peers.py:471-527 | after a repair whose commands worked both checks are empty and a second issues nothing |

## Left out

- Everything that talks to docker, vtysh, journalctl or a speaker, and the scraping of their text: records, summaries
  and commit outcomes are arbitrary values.
- Formatting of text, addresses, YAML and configuration lines; error messages and offsets. Values are numbers and
  datatypes, and prefixes are addresses with a length.
- The random generators: each draw is an arbitrary value of its range. The retry loops of `next_safe_upstream` and
  `next_safe_origin` run over a finite list of draws; that some draw ends them is assumed where they are called.
- Floating point: `contested_fraction`, CPU, memory, ratios and clocks are real numbers; rounding of reported
  figures is not modelled.
- Threads, file handles, the sampler's loop: the sampler publishes distinct records at arbitrary moments.
- Validation of interfaces and bridges and parsing of the fabric table.
- `_converge` without a predicate set, its progress lines, the peer snapshot on failure, and the log entry.
- The other churn modes, and commands to a speaker that do not work: a walk inside the own window and the capacity is
  what `ChurnWalk` is about.
- The other event kinds, the time limit of the chaos loop, `--stop-on-violation`, the missing-fragment and dry-run
  exits: an event that is not one of the two modelled leaves the configuration alone.
- The order of emitted limit lines, which follows sorted group names; the limits they amount to do not depend on it.
- exabgp batches, the policy probe, report analysis, topology generation, and the ramp: none of them decides what is
  measured.
- How long a commit, a sample or an event takes.
