# Swarm attestation: a verified model

The repository attests the memory of a swarm of sensor nodes. Leaves answer a request with their own
checksum; relays fold their children's checksums and paths into packets that climb an RPL network of
increasing rank towards the border router; a verifier then polls suspects one at a time. This project
models that behaviour in Dafny and proves what the protocol is for: that no contribution is lost or
counted twice, that what a relay reports is determined by the network and not by the order of arrival,
that the checksum notices a change of memory, that printed addresses and framed output can be read back,
and that a polling session sends exactly what it should.

## Modules

| file | content |
|---|---|
| `Words.dfy` | ids, bytes, XOR folds and their algebra |
| `ChildTable.dfy` | the child table with its flags, and the destinations of a node's packets |
| `RelayModel.dfy` | one relay as a state machine on values: packets, events, steps, runs |
| `RelayRuns.dfy` | laws of every run of one relay: bounds, XOR conservation, path ids, no repetitions |
| `RelayRounds.dfy` | rounds: counter and flags, leaf rank, second-round snapshot |
| `Relay.dfy` | the relay program with its globals and arrays, proved against `RelayModel` |
| `Network.dfy` | a tree of relays and leaves under the border router; XOR conservation |
| `NetworkPaths.dfy`, `NetworkRanks.dfy` | path ids and leaf ranks in every network run |
| `Aggregate.dfy` | nodes with several parents: what one packet is worth, by counting downward paths |
| `Mesh.dfy` | network runs with several parents; every run that comes to rest is a round |
| `Hops.dfy` | ranks, hop counts and the two timeouts |
| `Generator.dfy` | the RC4-like generator with its doubled index |
| `AddressWalk.dfy` | the addresses drawn from the generator |
| `MemoryChecksum.dfy` | the rotating checksum over a memory walk, and its packing |
| `AddressText.dfy` | printed IPv6 addresses and a reader for section 2.2 of RFC 4291 |
| `PageReading.dfy` | a reader that gets the neighbours and routes back from the page |
| `Page.dfy` | the buffered status page and the unbuffered page it must equal |
| `Verifier.dfy` | the polling session of the second round |
| `DebugFraming.dfy` | debug output between SLIP delimiters (RFC 1055) |

Code that updates fields or arrays is a class or a method over arrays (`RelayProgram.Relay`,
`ChildTable.Table`, `Generator.Rc4`, `AddressWalk.NextAddress`, `MemoryChecksum.Attestation`, `Page.PageWriter`, `Verifier.Program`,
`DebugFraming.Bridge`). Each such method equates the new state with a function of the old one, and the
laws are then proved about those functions, over all runs. XOR of 64-bit words is kept behind the function
`Words.Xor`, whose definition most proofs hide in favour of its algebraic laws.

The build modelled is the one the headers select: broadcasting to parents and the attestation time test
on, no binary tree, MAX_CHILD and MAX_PATH_NODES 10, NUM_NODES 20, RPL in storing mode, and none of the
optional parts of the web server. A timer may fire at any moment.

## What the code does not guarantee

These are statements one might expect and the code does not meet, with the conditions under which it
does. "Exactly when" means that both directions are proved for all inputs.

* A round may end early. The relay counts reports instead of looking at its flags, so a child that
  reports twice stands in for one that has not reported, and its own contribution cancels
  (`RelayRounds.RepeatedReportEndsRound`). Counting decides like the flags exactly when the report that
  completes the count leaves no other child unreported, or fills the path buffer
  (`RelayRounds.StepDecides`, over runs `RelayRounds.RunDecides`).
* A round in which every child reports does not always end in one packet: it does exactly when all new
  ids fit the path buffer (`RelayRounds.CompleteRound`).
* The second-round snapshot misses what a split carried of the children, because a split resets the
  relay twice. It accounts for the last checksum sent exactly when that contribution is 0
  (`RelayRounds.SnapshotAccountsForLastSend`, `RelayRounds.SplitLosesSnapshot`).
* The search for repeated ids covers only what was stored before the packet, and never the relay's own
  id. A run is free of repetitions exactly when every accepted packet is clean in the sense of
  `RelayRuns.CleanPacket` (`RelayRuns.RunCleanExactly`; with room for everything,
  `RelayRuns.RepetitionInsideOnePacketSurvives`). In the network all packets are
  (`NetworkPaths.PacketsNameDescendants`).
* A packet sent because the path buffer is full carries the leaf rank from before the arrival that
  filled it (`RelayRounds.RunRank`).
* A relay that has heard of no leaf computes a negative distance, and the attestation timeout wraps to
  256 minus its own hops. Its timeout stays within the hops to its deepest leaf exactly when it has heard
  of one (`NetworkRanks.TimeoutWithinReach`).
* A memory change at an address that a walk of the program's length visits three times can go unnoticed
  (`MemoryChecksum.RepeatedVisitsCanCancel`). One or two visits always show it
  (`MemoryChecksum.AttestSensitive`).
* `next_addr` draws again when an address is out of range, but drops what it draws: it gives the first
  address drawn, which is in range exactly when the first draw is, and it ends exactly when some later
  draw is in range (`AddressWalk.NextAddrExactly`).
* The attestation path writes behind its array of checksums exactly when more than MAX_CHILD packets are
  buffered between two resets, whoever sends them (`RelayRuns.AttestationStoresFit`). The topology path
  never does (`RelayRuns.TopologyStoresFit`).
* The topology timeout is NUM_NODES minus the hop count exactly up to depth NUM_NODES; deeper the byte
  wraps (`Hops.TopologyTimeoutCountsHops`).
* Framed debug text is recovered exactly when it does not contain the delimiter, because `putchar` does
  not escape it (`DebugFraming.FramingExact`).
* The verifier does not recognise every reply it should. It keeps the newline of its address table, compares
  ten characters and takes the first entry that agrees, so with distinct ids a reply is taken for its node
  exactly when its text agrees with the node's entry and with no earlier one; a reply in the very form that
  was polled agrees with its entry exactly when it has at least ten characters or the entry has no newline
  (`Verifier.ReplyIdentifiesNode`). Short addresses, and addresses with the same first ten characters, fail.
  A session in which every poll is answered comes to its end exactly when every line names nodes with nonzero
  ids and addresses and the replies of all but the last of a line are recognised (`Verifier.FaithfulSession`;
  `Verifier.ShortAddressStalls` is a session that stops after its first answer).
* A verifier that cannot open its file polls one node and never ends, whoever replies
  (`Verifier.SessionWithoutFile`).
* The comment above `get_attestation_timeout` speaks of the farthest leaf; `max_leaf_rank` is never
  reset, so it is the maximum over all rounds (`RelayRounds.RunRank`).

## Model

| member | source | states |
|---|---|---|
| Network.LedgerBalances | relay-node/udp-relay.c:213-346 | network conservation: after every run on a tree, what the border router received, what is in the air and what waits in relays XOR to the senders' own checksums, one for each packet ever sent |
| Network.DeliveredIsAccepted | relay-node/list_utility.c:25-36 | in every reachable network state a packet is delivered to a relay that lists its sender as a child |
| NetworkPaths.PacketsNameDescendants | relay-node/udp-relay.c:227-240 | every packet ever sent fits, has its index assigned, names only its sender and the sender's descendants, each once, and ends with its sender |
| NetworkPaths.NoIdLost | relay-node/udp-relay.c:315-333 | the ids received, in the air and pending are exactly the ids of the nodes that have sent, through de-duplication and splits |
| NetworkRanks.HeardRanksAreReal | relay-node/udp-relay.c:335-336 | in every run a leaf rank held or carried is that of an actual leaf below the node, or 0 |
| NetworkRanks.TimeoutWithinReach | relay-node/udp-relay.c:104-118 | in every reachable state a relay's own hops plus its attestation timeout are at most the hops of its deepest leaf if and only if it has heard of a leaf; before that the timeout is 256 minus its hops |
| NetworkRanks.DeliveredRanksAreHeard | relay-node/udp-relay.c:335-336 | in every run a parent's leaf rank is at least that of every packet delivered to it |
| NetworkRanks.FullRoundTeachesDepth | relay-node/udp-relay.c:104-118 | in every reachable state, whatever the interleaving: if each node below a relay has had a packet delivered that carries what it knows now, the relay holds exactly the highest leaf rank below it |
| NetworkRanks.FullRoundMeasuresDepth | relay-node/udp-relay.c:104-118 | in such a state the attestation timeout is the distance in hops to the deepest leaf below |
| NetworkRanks.FullRoundParentsWaitLonger | relay-node/udp-relay.c:104-133 | in such a state of a tree of depth at most NUM_NODES, both timeouts of a relay exceed those of each relay child by at least one, with no wrap |
| RelayRuns.RunBounded | relay-node/udp-relay.c:227-240 | in every topology run the checksum count is 0 or below the child count, the path buffer holds at most MAX_PATH_NODES - 3 ids, and every packet sent has a last entry that is the sender and an index within bounds |
| RelayRuns.OwnChecksumHoldsId | utility-functions.c:61 | a leaf's packet, and that of a relay which has heard nothing, hold the node's id XORed with 0x11e108b7 |
| RelayRuns.OwnChecksumsDiffer | utility-functions.c:61 | the checksums of two leaves XOR to the XOR of their ids, so they are equal if and only if the ids are |
| RelayRuns.AttestationTimerSends | relay-node/udp-relay.c:181-211 | the attestation timer sends one attestation packet with the combined value, empties the buffers, clears every flag and keeps the leaf rank; or, when the value is 0, does none of this |
| RelayRuns.StepKind | relay-node/udp-relay.c:189-220 | attestation packets come from the attestation timer only, complete topology packets from everything else |
| RelayRuns.AttestationRunSends | relay-node/udp-relay.c:181-279 | in every run of attestation arrivals and attestation timers all packets sent are attestation packets and the leaf rank stays |
| RelayRuns.TopologyStoresFit | relay-node/udp-relay.c:308-309 | in every topology run each checksum is stored inside the array |
| RelayRuns.AttestationStoresFit | relay-node/udp-relay.c:252-254 | between two resets attestation packets are stored inside the array if and only if no more than MAX_CHILD checksums are buffered in all |
| RelayRuns.RunConserves | relay-node/udp-relay.c:68-102 | over any run, topology and attestation mixed, as far as its stores fit the array (`RelayRuns.StoresFit`): what is held and sent is what was held, what was accepted, and the own checksum once for each packet sent |
| RelayRuns.RunIds | relay-node/udp-relay.c:315-333 | over any topology run, ids sent and pending are the ids accepted and the relay's own once it sends: none lost, none invented |
| RelayRuns.RunNoDup | relay-node/udp-relay.c:283-294 | arriving paths without repetition or the receiver's own id keep the buffer and every sent path free of repetitions although the search is limited to entries from before the packet |
| RelayRuns.RunCleanExactly | relay-node/udp-relay.c:283-333 | the buffer and all sent paths of a run are free of repetitions if and only if, for every accepted packet, buffered and kept ids up to a full buffer are distinct, so is each further block of the packet, and none is the receiver's |
| RelayRuns.RepetitionInsideOnePacketSurvives | relay-node/udp-relay.c:316-320 | for a packet that leaves room: a repetition survives if and only if the packet brings a new id twice or the receiver's own |
| RelayRounds.CounterRefinesFlags | relay-node/udp-relay.c:341-346 | with no second report between resets the counter equals the number of flags after every event, and the run is the one that tests `is_all_child_set` |
| RelayRounds.StepDecides | relay-node/udp-relay.c:341-343 | comparing the counter does the same as `is_all_child_set` if and only if the report does not complete the count, with room for its ids, while another child has not reported |
| RelayRounds.RunDecides | relay-node/udp-relay.c:341-346 | a run and all its prefixes are those of a relay that tests the flags if and only if no round in it ends early |
| RelayRounds.CounterPartsExactly | relay-node/udp-relay.c:306-346 | from agreement, counter and flags still agree after an event if and only if it is not a second report, or completes the count, or fills the path buffer |
| RelayRounds.CounterNeverLags | relay-node/udp-relay.c:306-309 | the counter is never below the number of flags, in any topology run |
| RelayRounds.RepeatedReportEndsRound | relay-node/udp-relay.c:306-346 | a repeated report ends the round of a two-child relay early and cancels, where the test of flags would wait |
| RelayRounds.UnfinishedRound | relay-node/udp-relay.c:308-346 | before the last child reports nothing has been sent if and only if all new ids fit the path buffer, and then everything reported is buffered in order |
| RelayRounds.CompleteRound | relay-node/udp-relay.c:341-343 | as many reports as children end, with the last of them, in the one packet with all ids, the XOR of all reports and the own checksum and the highest leaf rank, if and only if all new ids fit the path buffer |
| RelayRounds.RunRank | relay-node/udp-relay.c:324-336 | over any topology run the leaf rank is the maximum of all accepted, and which rank each sent packet carries |
| RelayRounds.SnapshotAccountsForLastSend | relay-node/udp-relay.c:68-81 | over any run the checksum last sent is what the snapshot accounts for XOR what a last split carried of the children, computed from the buffers before it; the two agree if and only if that is 0 |
| RelayRounds.SplitLosesSnapshot | relay-node/udp-relay.c:324-331 | every report that fills the path buffer once leaves a snapshot that misses all reported so far, unless that is 0 |
| RelayProgram.Relay.constructor | relay-node/udp-relay.c:48-55 | the initial globals are those of a fresh relay within its bounds |
| RelayProgram.Relay.ResetVariable | relay-node/udp-relay.c:68-81 | saves the live checksums, empties the buffers, clears the flags, and keeps the leaf rank and own checksum |
| RelayProgram.Relay.GetCombinedChecksum | relay-node/udp-relay.c:83-102 | the byte-counted loop ends and gives the XOR of the buffered checksums and 0x11e108b7 XORed with the id |
| RelayProgram.Relay.SendAttestationResp | relay-node/udp-relay.c:181-211 | sends the combined value and resets, or does neither when it is 0 |
| RelayProgram.Relay.SendTopologyResp | relay-node/udp-relay.c:213-250 | sends the buffered path with the own id at its end, in place, then resets |
| RelayProgram.Relay.ProcessAttestationReq | relay-node/udp-relay.c:252-279 | appends the checksum whoever sent it |
| RelayProgram.Relay.IsPresentPaths | relay-node/udp-relay.c:283-294 | finds exactly the ids below `paths_loc` |
| RelayProgram.Relay.CopyPaths | relay-node/udp-relay.c:315-333 | the copy loop over the array, with its early sends, is the recursive model's, and every store is in bounds |
| RelayProgram.Relay.StoreReport | relay-node/udp-relay.c:306-309 | marks the child and stores the checksum in bounds |
| RelayProgram.Relay.ProcessTopologyReq | relay-node/udp-relay.c:296-353 | keeps the bounds between events; the new state and the packets sent are the model's |
| RelayProgram.Relay.UnicastSendToSink | relay-node/udp-relay.c:399-408 | the second-round answer gives the snapshot's length and the own checksum that completes the snapshot to the value `RelayRounds.SnapshotAccountsForLastSend` speaks of |
| ChildTable.Table.constructor | relay-node/list_utility.c:16-46 | the table lists the neighbours of higher rank, unmarked |
| ChildTable.Table.IsChildSet | relay-node/list_utility.c:48-58 | whether some entry with the id is marked |
| ChildTable.Table.RestChildList | relay-node/list_utility.c:61-67 | all flags cleared, ids kept |
| ChildTable.Table.IsAllChildSet | relay-node/list_utility.c:70-79 | whether every entry is marked |
| ChildTable.Table.IsChild | relay-node/list_utility.c:81-90 | whether some entry has the id |
| ChildTable.Table.ChildSetPktReceived | relay-node/list_utility.c:92-102 | marks the first entry with the id, and says whether there is one |
| ChildTable.Table.GetChildCount | relay-node/list_utility.c:104-107 | the counter is the length of the list |
| ChildTable.MarkCounts | relay-node/list_utility.c:92-102 | with distinct ids, marking a child adds one flag exactly when it was clear |
| ChildTable.FlagCountBound | relay-node/list_utility.c:70-79 | the number of flags reaches the length exactly when all are set |
| ChildTable.ChildEntriesFresh | relay-node/list_utility.c:25-36 | an id is in the new table exactly when some neighbour of higher rank has it |
| ChildTable.ChildEntriesInOrder | relay-node/list_utility.c:25-36 | the table lists each neighbour of higher rank once, in the order of the neighbour table |
| ChildTable.IdIsLastBytes | utility-functions.c:36-38 | an id is bytes 14 and 15 of the address, high byte first, and two addresses have one id if and only if they agree there |
| ChildTable.SendToParents | utility-functions.c:98-124 | the destinations, in neighbour-table order |
| ChildTable.TargetsAre | utility-functions.c:89-121 | an id is a destination exactly when some neighbour of lower rank has it, or any neighbour for a client |
| ChildTable.TargetsInOrder | utility-functions.c:111-121 | the destinations are the ids of exactly the parents, each once, in the order of the neighbour table |
| ChildTable.TargetsCount | utility-functions.c:111-121 | an id is a destination as often as there are parents with it |
| Aggregate.EdgesAgree | utility-functions.c:89-121 | a node lists another as child exactly when the other's packets go to it: the two sides compute the same edges |
| Aggregate.PathsExact | relay-node/list_utility.c:25-36 | the enumeration of downward paths is complete and lists each path once |
| Aggregate.RelayValue | relay-node/udp-relay.c:83-102 | in a round with reliable links, in any order and with splits and timers, all that a relay sends XORs to all that its children send and its own checksum once for each packet |
| Aggregate.AggregateIsOddXor | relay-node/udp-relay.c:83-102 | in any rank-ordered graph all that a node sends in a round XORs to the own checksums of exactly the nodes that send an odd number of packets and have an odd number of downward paths to them |
| Aggregate.OnePacketAggregate | relay-node/udp-relay.c:83-102 | when every node sends one packet, that packet is the XOR over exactly the nodes with an odd number of downward paths |
| Aggregate.TreeCountsDescendants | relay-node/udp-relay.c:83-102 | in a tree the nodes with an odd number of paths are exactly the whole subtree |
| Mesh.CopiesAreTargets | utility-functions.c:98-121 | the copies of a packet in a network run are those `send_to_parents` makes: one for each time it lists a parent |
| Mesh.QuietRunIsRound | utility-functions.c:98-121 | every network run with several parents, in any interleaving and with timers and splits, that comes to rest with nothing in the air and nothing buffered is a round |
| Mesh.QuietAggregate | relay-node/udp-relay.c:83-102 | in every such run all that a node has sent XORs to the own checksums of exactly the nodes with an odd packet count and an odd path count |
| Hops.TopologyTimeoutCountsHops | relay-node/udp-relay.c:120-133 | the topology timeout is NUM_NODES minus the hops if and only if the depth is at most NUM_NODES |
| Hops.AttestationTimeoutIsDistance | relay-node/udp-relay.c:104-118 | the attestation timeout is the distance in hops if and only if the leaf is not above the relay |
| Hops.UnheardTimeout | relay-node/udp-relay.c:104-118 | with nothing heard the attestation timeout is 256 minus the hops |
| Hops.LightRelayAnswers | relay-node/udp-relay.c:335-343 | a relay that hears as many packets from its children as it has children answers with the one packet for all of them if and only if there is room for all new ids |
| Hops.RankCoversLeaves | relay-node/udp-relay.c:335-336 | in a round in which every node ends up having sent what it knows, no leaf below a node has a higher rank than the node knows |
| Hops.DeepestLeaf | client-node/udp-client.c:99-102 | after such a round, with any number of parents and splits, the rank known is that of the deepest leaf below and the timeout is the distance to it |
| Hops.ParentsWaitLonger | relay-node/udp-relay.c:104-133 | after such a round, at depth at most NUM_NODES, a relay's timeouts exceed each child's by at least one in both phases, with no wrap |
| Generator.Rc4.Swap | attestation_lib.c:11-17 | exchanges two entries of the table and nothing else |
| Generator.SwapExchanges | attestation_lib.c:11-17 | each of two entries gets the other's value and no other entry changes |
| Generator.Rc4.Init | attestation_lib.c:21-37 | the table is the key schedule's, a permutation for every key; the indices left by earlier calls stay |
| Generator.ScheduleClosedForm | attestation_lib.c:29-33 | the index after n rounds is the sum of entry plus key byte of each round, weighted by powers of two, modulo 256 |
| Generator.ScheduleExchanges | attestation_lib.c:24-36 | the table starts in order, and each round exchanges the entry of its number with the one at the index |
| Generator.KeySensitive | attestation_lib.c:29-36 | for two keys that first differ at byte k the tables are equal before round k, and after it index and table differ |
| Generator.Rc4.Next | attestation_lib.c:41-58 | one call is one step of the model, with no sum outside its C type |
| Generator.ByteReturned | attestation_lib.c:44-57 | the call exchanges the entries at both new indices and returns the entry their sum points at |
| Generator.ByteFromIdentity | attestation_lib.c:44-57 | the byte returned from a table in order, in closed form |
| Generator.CallsCounted | attestation_lib.c:44-45 | the first index counts the calls modulo 256 |
| Generator.GeneratorStaysPermutation | attestation_lib.c:21-58 | after any key and any number of calls the table is a permutation of 0..255 and both indices are below 256 |
| Generator.IndexClosedForm | attestation_lib.c:29-33 | the doubled index in closed form: powers of two times the start and the added bytes, modulo 256 |
| Generator.LastEightDecide | attestation_lib.c:47-49 | from eight steps on the index depends only on the last eight values added |
| Generator.GeneratorIndex | attestation_lib.c:44-49 | both facts for the generator's own runs |
| MemoryChecksum.UpdateByte | attestation_lib.c:124-136 | the in-place update writes one byte, as the model says |
| MemoryChecksum.RotateEight | attestation_lib.c:134-136 | the rotation doubles a byte below 0x80, takes 0x80 to 1, and eight of them change nothing |
| MemoryChecksum.MixUndone | attestation_lib.c:126-130 | what is added to the target byte is the byte read XOR the source byte, plus the low byte of the last address |
| MemoryChecksum.LowBitsAre | attestation_lib.c:128 | the low byte of an address is what is left when the others are put back |
| MemoryChecksum.FirstTwoAccesses | attestation_lib.c:118-147 | the first two accesses write bytes 0 and 5, the first taking its own address as the last one |
| MemoryChecksum.PackBytes | attestation_lib.c:152-155 | the loop packs the bytes first byte highest |
| MemoryChecksum.ResultBytes | attestation_lib.c:152-155 | byte i of the checksum is found 56 - 8i bits up in the result |
| AddressWalk.NextAddress | attestation_lib.c:62-76 | one call gives the model's address and leaves the generator where the model says, with no sum outside its C type |
| AddressWalk.DrawnHoldsBytes | attestation_lib.c:65-69 | an address holds two bytes and one bit of three calls, highest first, and moves the generator by three calls |
| AddressWalk.NextAddrExactly | attestation_lib.c:65-75 | the call ends within a nesting if and only if one of as many draws is in range, and its result is in range if and only if the first draw is |
| AddressWalk.FuelDoesNotMatter | attestation_lib.c:71-75 | a deeper nesting changes nothing once the call ends |
| AddressWalk.Prepare | attestation_lib.c:101-115 | the generator is seeded with the four bytes of the nonce and 256 bytes are thrown away |
| AddressWalk.NonceRead | attestation_lib.c:103-106 | the nonce is read back from its four bytes |
| AddressWalk.NoncesDiffer | attestation_lib.c:103-110 | different nonces give different tables at the latest after four rounds of the key schedule |
| AddressWalk.DiscardsOneRound | attestation_lib.c:114-115 | the bytes thrown away bring the first index back to where it was |
| MemoryChecksum.Attestation | attestation_lib.c:90-158 | for every nonce and generator state the loop gives the model's result for the addresses the generator yields, whatever the memory |
| MemoryChecksum.UpdateInjective | attestation_lib.c:124-136 | each update is injective on the eight bytes |
| MemoryChecksum.UpdateSensitive | attestation_lib.c:126-130 | each update is injective in the memory byte read |
| MemoryChecksum.PackInjective | attestation_lib.c:152-155 | packing at most eight bytes is injective |
| MemoryChecksum.DifferenceSpreads | attestation_lib.c:120-147 | how the difference a visit makes spreads over the eight bytes during the accesses that follow |
| MemoryChecksum.SecondVisit | attestation_lib.c:120-147 | in a walk as long as the program's a second visit cannot cancel the first |
| MemoryChecksum.WalkSensitive | attestation_lib.c:120-147 | two runs over memories that differ in one address agree exactly while it is unvisited, for one visit in any walk and two in the program's |
| MemoryChecksum.AttestSensitive | attestation_lib.c:120-155 | with at most one visit to the changed address, or two in a walk of at most 15 accesses, the 64-bit results differ if and only if it is visited |
| MemoryChecksum.RepeatedVisitsCanCancel | attestation_lib.c:120-155 | some sequence of 15 addresses with three visits gives the same result for two memories |
| AddressText.TextLength | border-router-server/border-router.c:132-150 | a printed address has at most 39 characters |
| AddressText.DigitsAre | border-router-server/border-router.c:147 | printed digits are lower case and below the base |
| AddressText.NoLeadingZero | border-router-server/border-router.c:147 | only 0 is printed with a leading zero |
| AddressText.DoubleColonMarksFirstRun | border-router-server/border-router.c:139-144 | "::" occurs exactly once, in place of the first run of zeroes, if some group is 0, and not otherwise |
| AddressText.TextRoundTrip | border-router-server/border-router.c:132-150 | reading the text by section 2.2 of RFC 4291 gives back all eight groups |
| Page.PageWriter.Add | border-router-server/border-router.c:124-128 | appends at the end, or truncates and says so, as `snprintf` does |
| Page.PageWriter.SendBuffer | border-router-server/border-router.c:220 | hands over the string up to its terminator, which is all that is pending |
| Page.PageWriter.AddDigits | border-router-server/border-router.c:142-147 | the digits of a group, behind a colon unless the group comes first or after the double colon |
| Page.PageWriter.AddGroup | border-router-server/border-router.c:138-148 | one round of the printer's loop adds what the group contributes and keeps the loop's state |
| Page.PageWriter.IpaddrAdd | border-router-server/border-router.c:132-150 | the loop with its state adds exactly the address text, uncut, if 39 characters fit |
| Page.PageWriter.AddNeighbours | border-router-server/border-router.c:178-224 | sent and pending together grow by exactly the neighbour lines, and 45 characters stay free |
| Page.PageWriter.SendRoute | border-router-server/border-router.c:243-271 | one route line, uncut, in one string |
| Page.PageWriter.GenerateRoutes | border-router-server/border-router.c:168-345 | for any neighbours and routes no `snprintf` is cut and the strings sent concatenate to the unbuffered page |
| PageReading.RouteRead | border-router-server/border-router.c:255-262 | a route's line gives back its address, length, next hop and lifetime, each in its place |
| PageReading.PageRead | border-router-server/border-router.c:168-345 | the whole page, cut into lines, gives back all neighbours and all routes in order |
| Verifier.ReplyIdentifiesNode | verifier/sec_server.c:69-96 | with distinct ids a reply is taken for a node if and only if its text agrees with the node's entry, newline included, on ten characters and with no earlier entry; a reply in the form polled agrees if and only if it has ten characters or the entry has no newline |
| Verifier.AgreesExactly | verifier/sec_server.c:74 | a table entry and a reply agree if and only if they are equal or share their first ten characters |
| Verifier.AddressOfIs | verifier/sec_server.c:81-90 | the address of an id is that of the last entry with it |
| Verifier.ListAt | verifier/sec_server.c:180-211 | each data line gives one list, in order, with its nodes and the nearest run number before it |
| Verifier.Program.GetIdFromAddr | verifier/sec_server.c:69-79 | the loop finds the first entry that agrees, or gives 0 |
| Verifier.Program.GetAddrFromId | verifier/sec_server.c:81-90 | the loop leaves the last entry with the id, if there is one |
| Verifier.RepliesAreCounted | verifier/sec_server.c:285-319 | for every stream of replies: STOPs follow exactly the lists' counts with their run numbers, polls are a prefix of the current list in order, and the session is over when all lists are |
| Verifier.FaithfulSession | verifier/sec_server.c:136-319 | if each poll is answered once by the node it goes to, whatever text its address comes back as: the session ends if and only if all lines name nodes with nonzero ids and addresses and all replies but the last of a line are recognised, and then the output is START, each list in order and one STOP with the nearest preceding run number, then DONE |
| Verifier.ShortAddressStalls | verifier/sec_server.c:69-78 | with short addresses from a file with newlines the correct reply to the first poll is not recognised and the second node is never polled |
| Verifier.SessionWithoutFile | verifier/sec_server.c:262-271 | without its file the program has sent START and one poll after any replies, and still waits |
| Verifier.Program.constructor | verifier/sec_server.c:272-282 | the program with its file, up to the reply loop |
| Verifier.Program.WithoutFile | verifier/sec_server.c:262-271 | the program without its file, up to the reply loop |
| Verifier.Program.SendReqSingleNode | verifier/sec_server.c:113-134 | polls the entry at the index, or records id 0 and sends nothing |
| Verifier.Program.SendUnicastSecondRoundReq | verifier/sec_server.c:136-169 | START once, then the first poll of the new list |
| Verifier.Program.ReadLineSendReq | verifier/sec_server.c:171-213 | reads up to the next data line and starts it, or reports the end |
| Verifier.Program.Receive | verifier/sec_server.c:285-319 | one reply keeps the index within the list and does what the model does |
| DebugFraming.Bridge.Putchar | border-router-server/slip-bridge.c:124-149 | the bytes written and the frame flag after one character; as long as no character was the delimiter, the receiver has exactly the text's lines |
| DebugFraming.EvenEnds | border-router-server/slip-bridge.c:127-147 | the number of delimiters is even exactly when no frame is open |
| DebugFraming.FramesMarked | border-router-server/slip-bridge.c:127-133 | every frame starts with byte 13, and the output with byte 192 |
| DebugFraming.FramingRoundTrip | border-router-server/slip-bridge.c:124-149 | cutting at the delimiters and dropping the marker gives back the lines and the open remainder |
| DebugFraming.FramingExact | border-router-server/slip-bridge.c:124-149 | the text is recovered if and only if it does not contain the delimiter |
| DebugFraming.AnswerMacRequest | border-router-server/slip-bridge.c:75-84 | the reply decodes to the address, keeps its type byte and writes nothing behind its 18 bytes |

## Left out

- RelayProgram.Relay.ProcessAttestationReq: requires room for one more checksum; the code has no bound on the attestation path, where it stores before it looks the sender up, and there the model has neither a bound nor a filter by child.
- RelayProgram.Relay.UnicastSendToSink: the packet's transport to the border router is not modelled.
- ChildTable.Table.constructor: the pool has MAX_CHILD entries and more children are a precondition; the linked list is a sequence of entries.
- RelayRuns.RunConserves: describes the code only while the stores fit the array (RelayRuns.StoresFit), which attestation arrivals can break (relay-node/udp-relay.c:254); the same holds of RelayRounds.SnapshotAccountsForLastSend.
- RelayProgram.Relay.CopyPaths: assumes that the arriving packet is still intact after a send in the middle of its own copy loop, where the code reads it from the network stack's buffer (relay-node/udp-relay.c:361).
- Network.LedgerBalances: links are reliable and each node has one parent; several parents are treated in Aggregate, Hops and Mesh, where the statement is about rounds and runs that have come to rest.
- Mesh.QuietRunIsRound: the network is that of relays and leaves; the copies that go to the border router are not followed.
- MemoryChecksum.Attestation: nested calls of `next_addr` are bounded by a parameter, since the code has no measure for them; AddressWalk.NextAddrExactly says when they end. Memory is an arbitrary function, because `read_byte_far` returns a constant.
- MemoryChecksum.RepeatedVisitsCanCancel: no nonce is shown to give these addresses, and which positions of three or more visits cancel is not determined.
- Generator.Rc4.Init: a key of length 0 is excluded, since the code divides by the length.
- AddressText.TextRoundTrip: the reader accepts forms 1 and 2 of section 2.2, not the form with a dotted quad.
- Page.PageWriter.GenerateRoutes: one connection at a time, which the file's own comment asks for; the section on links of non-storing mode and the optional web server settings are not built.
- Verifier.FaithfulSession: a data line of more than 150 ids, which would overrun the packet, is a precondition, lines are given as their numbers, and the address table is unbounded where the program has room for 5 entries. The text form of an address that has been through the network is a parameter.
- DebugFraming.AnswerMacRequest: the prefix message, the clearing of the buffer and the saved sender are not modelled.
- Timers: when they are set, their lengths in milliseconds, `first_child`, and the random delay before a broadcast (so also a delayed packet that is overwritten by the next one): every send is immediate and every timer may fire at any moment.
- `first_round_completed`, which is always 1, and the handling of requests in the relay and client processes.
- The border router's request handlers, clock differences and counters.
- Sockets, files and string splitting below the level of lines and numbers; protothread mechanics.
- `httpd-simple.c`, `log.c`, `server.c`, `pingall_get_addr.c`, `udp-server.c` and the Contiki internals: plumbing, or members that would only be easy.
