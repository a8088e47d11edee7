# Verified models of the switch library

This project models the protocol state machines and data structures of the OpenFlow
switch's `lib/` directory in Dafny and proves what they keep over whole runs.  Each
component has a model on values (datatypes and functions), lemmas about that model, and,
where the C code updates structures in place, a class whose methods are proved to act as
the model does.  Clocks, random numbers, packets that arrive and the answers of the kernel
or of a peer are parameters, so every statement holds for all of them.

- **Spanning tree** (`stp_*.dfy`): a bridge of IEEE 802.1D.  `stp_model` holds the
  procedures, `stp_selection` the choice of root and designated ports, `stp_invariants` and
  `stp_safety` what every entry point keeps, `stp_timing` what the hold and forward delay
  timers guarantee over runs, `stp_network` a network of bridges at rest, `stp_convergence`
  how a network comes to rest, and `stp_bridge` the bridge in place.
- **MAC learning** (`tags.dfy`, `lists.dfy`, `mac_*.dfy`): tags and tag sets, intrusive
  rings, the learning table as a sequence, and the table of linked entries.
- **Reliable connection** (`rconn*.dfy`): the connection's states, backoff, transmit queue
  and packet counters.
- **Stream framing** (`bytes.dfy`, `stream*.dfy`): messages over a byte stream.
- **DHCP** (`dhcp_*.dfy`): options in packets and in memory, whole messages, and the
  client's lease.
- **Hash map** (`bits.dfy`, `hmap.dfy`), **port array** (`port_array.dfy`) and **log rate
  limiting** (`rate_limit.dfy`, with the saturating arithmetic of `sat_math.dfy`).

Several laws that the code seems to promise do not hold for all inputs. Each is stated
with the exact condition under which it does and an input at which it fails: one pass of
configuration update (`UpdateSettlesIff`), messages that never worsen the root
(`ReceiveNeverWorsens`, `ReceiveKeepsInv`), roles after a priority change
(`SetPriorityKeepsIff`), flows told of every changed answer (`EvictionGoesUntold`), the
DHCP options round trip (`RoundTripIff`, `VendorReceived`), that of whole messages
(`MessageComesBack`, `SentOn`, `WidthMatters`), vendor's options read from a block that
stays put (`DhcpMessages.DhcpParse`, `OrdinaryMessageMoves`), framing after a failed write
(`DeliveredInOrder`), the lease that outlives itself (`HeldPastLeaseIff`), and the
iteration step above the largest index (`PortArrays.PortArray.Next`).

The models follow the code where its comments differ: the DHCP client's change flag is also
set when a renewed lease brings another configuration, and the DHCP parser skips as many
bytes for the cookie as a pointer has.

`dafny verify dfyconfig.toml` checks everything.

## Model

| member | source | states |
|---|---|---|
| StpSelection.RootOrder | lib/stp.c:834-851 | the five-key comparison of root candidates is a strict order, total on ports with different identifiers |
| StpSelection.ScanRootFindsBest | lib/stp.c:853-877 | the root port scan finds a candidate exactly if there is an eligible port, and the one found beats every other |
| StpSelection.UpdateChoosesBest | lib/stp.c:827-877 | from any state at all, the root port after a configuration update is the unique best of the eligible ports, and there is none exactly if no port is eligible |
| StpSelection.UpdateSettlesIff | lib/stp.c:827-906 | from any state, one pass of configuration update leaves a settled configuration, and a second pass changes nothing, if and only if the chosen root port is not a zero-cost port that the designated port selection takes over |
| StpSelection.SettledIsFixed | lib/stp.c:827-906 | a settled configuration is a fixed point of configuration update |
| StpSelection.FreePathCostUnsettles | lib/stp.c:879-896 | a bridge with a zero-cost port on which the single pass makes the root port designated, so the failing side of the condition occurs |
| StpSelection.RootPortUnlessRoot | lib/stp.c:853-877 | in a settled configuration there is no root port exactly if the bridge is its own root, and the root port is enabled and not designated |
| StpInvariants.ReconfigureEstablishes | lib/stp.c:827-950 | configuration update followed by state selection makes the configuration settled and every port state follow the port's role, from any sound state, touching no bridge timer |
| StpInvariants.BecomeRootKeeps | lib/stp.c:1131-1141 | taking over as root turns right roles into the whole invariant, with the hello timer running and the bridge's own timer values in force |
| StpInvariants.ReconfigureAfterLossKeeps | lib/stp.c:1047-1064 | reconfiguring after information is lost, and becoming root if that is new, makes the roles right from any sound state, and leaves a root that does its duties unless it was an idle root before |
| StpInvariants.GenerateKeepsRoles | lib/stp.c:801-811 | sending configuration messages on all designated ports changes no role, state, vector or timer value |
| StpSafety.ReceiveNeverWorsens | lib/stp.c:991-1027 | in every state with right roles, a received configuration message makes the bridge's root or cost worse if and only if it is accepted on the root port, claims to come from that very port, and no other port offers as much |
| StpSafety.ReceiveKeepsDuties | lib/stp.c:991-1027 | after a received configuration message the root's duties fail if and only if such a message took the last way to the root while the hello timer was off or foreign timer values were in force |
| StpSafety.ReceiveKeepsRoles | lib/stp.c:991-1027 | every received configuration message, also one that claims to come from the receiving port, leaves the configuration settled and every port state as its role asks |
| StpSafety.ReceiveKeepsInv | lib/stp.c:991-1027 | a received configuration message keeps the whole invariant if and only if it does not take the last way to the root from a bridge whose hello timer is off or that uses foreign timer values |
| StpSafety.LastWayDisclaimed | lib/stp.c:991-1027 | a bridge that meets the invariant and a message after which its root is worse, its duties fail and the invariant is lost, so the failing side of these conditions occurs |
| StpSafety.TcnKeepsInv | lib/stp.c:1029-1038 | a received topology change notification keeps the roles right and a root at its duties |
| StpSafety.TickKeepsInv | lib/stp.c:280-320 | a tick of any length, with every timer that expires in it, keeps the roles right and a root at its duties |
| StpSafety.SetBridgeIdKeepsInv | lib/stp.c:322-342 | changing the bridge identifier keeps the roles right and a root at its duties, also where the bridge becomes or stops being root |
| StpSafety.EnableKeepsInv | lib/stp.c:642-649 | enabling a port keeps the roles right and a root at its duties |
| StpSafety.DisableKeepsInv | lib/stp.c:621-639 | disabling a port keeps the roles right and a root at its duties, also where it was the only way to the root |
| StpSafety.SetPathCostKeepsInv | lib/stp.c:674-683 | a positive path cost keeps the roles right and a root at its duties; for every path cost, 0 included, the configuration is settled afterwards if and only if the chosen root port is not taken over as designated |
| StpSafety.SetPriorityKeepsIff | lib/stp.c:653-669 | setting a port's priority leaves the roles right if and only if the port's role stands: the new identifier does not disturb the choice of root port, or the port is off, designated, or takes the designated role over from a port of the same bridge; the root's duties are never touched |
| StpSafety.ParallelUnsettled | lib/stp.c:653-669 | on two parallel links to a better bridge, raising the blocked port's priority above the root port's leaves the configuration unsettled, because this call does not select the root port again |
| StpSafety.PriorityUnsettles | lib/stp.c:653-669 | such parallel links exist |
| StpSafety.RunKeepsInv | lib/stp.c:226-270 | a new bridge satisfies the whole invariant, and every run keeps it in which no message makes an unprepared bridge root |
| StpSafety.RunKeepsRoles | lib/stp.c:226-320 | a new bridge has right roles, and every run keeps them whatever messages it receives; path costs must be positive and priority changes such that the port's role stands |
| StpSafety.EveryReachableState | lib/stp.c:226-320 | in every state reachable by any messages, ticks and management calls that leave the roles right, an enabled port blocks exactly if it is neither root port nor designated, there is no root port exactly on the root, and configuration update changes nothing |
| StpSafety.EveryRootDoesItsDuties | lib/stp.c:1131-1141 | in every state of such a run in which no message makes an unprepared bridge root, a root keeps its hello timer running and its own timer values |
| StpTiming.CallOnPort | lib/stp.c:280-320 | any one call, seen from one port, is a change that starts no forward delay early and sends no more than the hold timer allows, followed for a tick by the two port timers |
| StpTiming.HoldTimeLimitsRate | lib/stp.c:712-755 | over any stretch of any run in which a port stays enabled, each configuration message it sends after the first costs a full hold time of 256 ticks |
| StpTiming.SentInfoIsFresh | lib/stp.c:739-753 | no configuration message sent in any run carries a message age that has reached the maximum age |
| StpTiming.EveryStateHasPast | lib/stp.c:280-320 | after every call of every run each port's state has the past its forward delay timer accounts for |
| StpTiming.ForwardingTakesTwoDelays | lib/stp.c:1079-1093 | in every run of a new bridge, a port forwards only after a tick that completed a whole listening wait and a later tick that completed a whole learning wait, without leaving those states in between; the forward delay timer runs exactly in them |
| StpTiming.NoShortcutToForwarding | lib/stp.c:929-936 | no single call makes a port forward unless it was forwarding, or learning when time passed |
| StpNetwork.UnmovedMeansNoBetter | lib/stp.c:757-771 | if hearing its neighbour moves nothing, the neighbour's message is no better than what the port holds |
| StpNetwork.RefreshMovesNothing | lib/stp.c:991-1027 | hearing again what a port already knows moves neither the bridge's choice nor any port's information, whatever times the message carries |
| StpNetwork.TwoBridges | lib/stp.c:226-270 | a connected network at rest: a root and a bridge that hears it, so the statements about networks at rest are not empty |
| StpNetwork.LinkRoles | lib/stp.c:757-771 | in a network at rest exactly one end of every link is designated, both ends agree on the root, and the other end holds the designated end's message |
| StpNetwork.LinkCost | lib/stp.c:853-877 | in a network at rest no link offers a cheaper way to the root than the bridge already has |
| StpNetwork.FollowRootPorts | lib/stp.c:853-877 | in a network at rest, following root ports from any bridge ends at its root and costs exactly its root path cost |
| StpNetwork.ActiveLinks | lib/stp.c:908-950 | a link is unblocked at both ends exactly if one of its ends, and only one, is a root port, and that bridge is farther from the root |
| StpNetwork.NoCycle | lib/stp.c:908-950 | every closed walk over links unblocked at both ends turns back on itself, so they hold no cycle |
| StpNetwork.SpanningTree | lib/stp.c:827-950 | in every connected network at rest all bridges agree on the bridge with the least identifier as root, each knows the least path cost to it and reaches it at that cost over unblocked links, and the unblocked links hold no cycle |
| StpConvergence.ReceivingImproves | lib/stp.c:991-1027 | a message that is no worse than what the port knows and does not claim to come from it makes no bridge or port vector worse, is known to the port afterwards, and leaves the roles right |
| StpConvergence.DeliveryAdvances | lib/stp.c:545-595 | in a network whose ports know only what their peers once sent, a message that a designated port sent now or earlier makes no bridge or port vector of the network worse when it arrives, and keeps the network so |
| StpConvergence.Converges | lib/stp.c:757-1027 | every endless run of arriving messages comes to rest, whatever their ages and times and however late they arrive, overtaken, lost or repeated, as long as of a port that stays designated something sent later arrives: from some arrival on the network is at rest for good |
| StpConvergence.ConvergesToTree | lib/stp.c:757-1027 | and if the network is connected, from then on the bridges agree on the least identifier as root, on least costs, and on a tree of unblocked links |
| StpConvergence.NewIsUntold | lib/stp.c:226-270 | a new bridge with any of its ports enabled, in any order, knows nothing but itself and has right roles |
| StpConvergence.UntoldIsGrounded | lib/stp.c:226-270 | well wired bridges with different identifiers that know nothing but themselves are where such runs start |
| StpConvergence.FirstNews | lib/stp.c:991-1027 | a bridge that was told nothing believes the first message that names a better root |
| StpConvergence.EndlessRunExists | lib/stp.c:801-811 | there is an endless fair run of two linked new bridges that have not heard of each other, so the statements about convergence are not empty |
| StpBridge.Stp.constructor | lib/stp.c:226-270 | a new bridge is the model's initial bridge |
| StpBridge.Stp.UpdateBridgeTimers | lib/stp.c:1199-1217 | the clamps in place compute the model's timer values |
| StpBridge.Stp.TransmitConfig | lib/stp.c:712-755 | sending, or marking as pending under the hold timer, in place is the model's step |
| StpBridge.Stp.ConfigBpduGeneration | lib/stp.c:801-811 | the loop over ports in place is the model's generation of configuration messages |
| StpBridge.Stp.TransmitTcn | lib/stp.c:813-825 | the in-place notification is the model's |
| StpBridge.Stp.TopologyChangeDetection | lib/stp.c:964-975 | the in-place detection is the model's |
| StpBridge.Stp.RootSelection | lib/stp.c:853-877 | the in-place scan over enabled ports chooses the root port, root and cost of the model, whose choice is proved best |
| StpBridge.Stp.BecomeDesignatedPort | lib/stp.c:898-906 | the port takes the bridge's own vector and nothing else changes |
| StpBridge.Stp.DesignatedPortSelection | lib/stp.c:879-896 | the in-place loop, each of whose steps sees the earlier ones, equals selecting all ports at once |
| StpBridge.Stp.PortStateSelection | lib/stp.c:908-927 | the in-place loop, with topology change detection in the middle of it, equals selecting all states at once and detecting once |
| StpBridge.Stp.MakeBlocking | lib/stp.c:938-950 | blocking a port in place, with the topology change it may signal |
| StpBridge.Stp.BecomeRootBridge | lib/stp.c:1131-1141 | taking over as root in place is the model's step |
| StpBridge.Stp.ReceivedConfigBpdu | lib/stp.c:991-1027 | handling a configuration message in place is the model's step |
| StpBridge.Stp.ReceivedTcnBpdu | lib/stp.c:1029-1038 | handling a notification in place is the model's step |
| StpBridge.Stp.ReceivedBpdu | lib/stp.c:545-595 | a message handled in place is the model's step, leaves right roles right, and keeps the whole invariant if and only if it does not make an unprepared bridge root |
| StpBridge.Stp.MessageAgeTimerExpiry | lib/stp.c:1047-1064 | an expired message age in place is the model's step |
| StpBridge.Stp.ForwardDelayTimerExpiry | lib/stp.c:1079-1093 | an expired forward delay in place is the model's step |
| StpBridge.Stp.IsDesignatedForSomePort | lib/stp.c:1066-1077 | the loop finds whether this bridge is designated bridge on some enabled port |
| StpBridge.Stp.Tick | lib/stp.c:280-320 | the tick in place is the model's step and keeps the roles right and a root at its duties |
| StpBridge.Stp.SetBridgeId | lib/stp.c:322-342 | the change in place is the model's step and keeps the roles right and a root at its duties |
| StpBridge.Stp.PortDisable | lib/stp.c:621-639 | disabling in place is the model's step and keeps the roles right and a root at its duties |
| StpBridge.Stp.PortEnable | lib/stp.c:642-649 | enabling in place is the model's step and keeps the roles right and a root at its duties |
| StpBridge.Stp.SetPriority | lib/stp.c:653-669 | the change in place is the model's step, and leaves the roles right exactly if the port's role stands |
| StpBridge.Stp.SetPathCost | lib/stp.c:674-683 | the change in place is the model's step, keeps the roles right for positive costs, and for any cost leaves the configuration settled exactly if the chosen root port holds |
| MacSpec.LearnKeepsMap | lib/mac-learning.c:188-232 | learning keeps keys unique and the table within its capacity |
| MacSpec.LearnEvictsOldest | lib/mac-learning.c:129-139 | learning removes at most one other entry, the least recently used, and only from a full table |
| MacSpec.LearnedIsFound | lib/mac-learning.c:188-242 | a learned address is then looked up on the port where it was seen |
| MacSpec.NewsInvalidatesLookups | lib/mac-learning.c:188-268 | learning reports a tag if and only if it changes the answer for the address it learns, and the tag is the one a lookup of that address just before would have attached to a flow |
| MacSpec.EvictionGoesUntold | lib/mac-learning.c:188-232 | learning changes the answer for another address if and only if it evicts it, that is, if the learned one is new, the table full and the other one the oldest; what is then reported is the learned address's tag, which meets the evicted one's only if the two happen to share two bits |
| MacSpec.FullTableForgets | lib/mac-learning.c:188-232 | a full table that learns a new address and so changes the answer for another, while the reported tag does not meet the one that flows to it carry |
| MacSpec.LearnKeepsTimely | lib/mac-learning.c:188-232 | learning keeps the table sorted by expiry, with nothing due later than one lifetime from now |
| MacSpec.ExpireFreesExactlyExpired | lib/mac-learning.c:282-292 | stopping at the first live entry frees an entry if and only if it has expired |
| MacSpec.ExpiryReachesTagSet | lib/mac-learning.c:282-292 | the tag of every expired entry meets the set handed in, and nothing the set met before is lost |
| MacSpec.EveryRunIsTimely | lib/mac-learning.c:152-292 | after every run of calls with a clock that does not go back the table is a bounded map of valid tags sorted by expiry |
| MacTable.EntryPlaces | lib/mac-learning.c:58-77 | every entry has one place on the free or the LRU list, and one in the bucket of its key exactly if it is in use |
| MacTable.MacLearning.constructor | lib/mac-learning.c:152-170 | a new table is empty and well formed: all entries on the free list, all buckets empty |
| MacTable.MacLearning.SearchBucket | lib/mac-learning.c:113-124 | the loop over a bucket finds the entry in use with the key, exactly if there is one |
| MacTable.MacLearning.LearnMac | lib/mac-learning.c:188-232 | relinking entries between free list, LRU list and buckets acts on the table as the specification's learning, with its result |
| MacTable.MacLearning.Lookup | lib/mac-learning.c:236-268 | finds port and tag as the specification says |
| MacTable.MacLearning.FreeOldest | lib/mac-learning.c:143-149 | the oldest entry goes back to the free list and out of its bucket |
| MacTable.MacLearning.Flush | lib/mac-learning.c:273-280 | afterwards the table is empty |
| MacTable.MacLearning.Run | lib/mac-learning.c:282-292 | frees the entries the specification expires and adds exactly their tags to the set, if there is one |
| Tags.TwoBitsAreValid | lib/tag.c:65-72 | two different bit numbers make a valid tag |
| Tags.CreateDeterministic | lib/tag.c:65-72 | every seed gives a valid tag |
| Tags.CreateRandom | lib/tag.c:48-58 | drawing until the two bit numbers differ gives a valid tag |
| Tags.AddGrows | lib/tag.c:82-98 | adding to a set of four slots takes no bit out of any slot or of the total |
| Tags.AddStores | lib/tag.c:82-98 | a tag the set does not meet yet goes whole into the total and into some slot |
| Tags.AddedIsMet | lib/tag.h:140-149 | an added tag is met if and only if it has at least two 1-bits |
| Tags.NothingForgotten | lib/tag.c:82-98 | after any number of additions to any set, every tag added is met if and only if it has at least two 1-bits, as every valid tag has |
| Tags.AddAllKeepsMeeting | lib/tag.h:140-149 | what the set met before further additions it still meets after them |
| Tags.TagSet.AddTag | lib/tag.c:82-98 | adding in place, with its rotating slot, is the specification's addition |
| Lists.RingInsert | lib/list.c:45-52 | relinking four pointers inserts the node at its place in the ring |
| Lists.RingRemove | lib/list.c:103-109 | relinking two pointers takes the node out of its ring |
| Lists.InsertLeavesOther | lib/list.c:45-52 | insertion into one ring leaves every other ring of the same nodes alone |
| Lists.RemoveLeavesOther | lib/list.c:103-109 | removal from one ring leaves every other ring of the same nodes alone |
| Lists.RingsDisjoint | lib/list.c:45-52 | rings of different heads share no node |
| Lists.Pool.Insert | lib/list.c:45-52 | inserts before a node, in place |
| Lists.Pool.Remove | lib/list.c:103-109 | removes a node, in place, and returns its successor |
| Lists.Pool.PopFront | lib/list.c:113-119 | takes the first node out and returns it |
| Lists.Pool.PopBack | lib/list.c:121-129 | takes the last node out and returns it |
| Lists.Pool.Size | lib/list.c:151-160 | the loop counts the nodes of the ring |
| RconnSafety.PopConserves | lib/rconn.c:787-811 | sending or dropping the first packet keeps the books: every counter is the number of queued packets that name it, and accepted packets are those already dealt with followed by the queue |
| RconnSafety.FlushConserves | lib/rconn.c:857-872 | flushing empties the queue, keeps the books and changes nothing else |
| RconnSafety.DisconnectKeepsInv | lib/rconn.c:816-853 | a dropped connection keeps the invariant and leads to waiting if reliable and to giving up otherwise; the wait is never over at once |
| RconnSafety.PassKeepsInv | lib/rconn.c:301-439 | every pass of every state keeps the invariant and changes state only by using up rank |
| RconnSafety.RunTakesFourPasses | lib/rconn.c:444-458 | whatever the connection answers, the loop of a run ends within four passes |
| RconnSafety.EveryRun | lib/rconn.c:161-589 | after every run of calls from creation, each counter is the number of queued packets that name it, accepted packets are those dealt with plus the queue in order, packets are sent in order of acceptance, a connection exists exactly while connecting or connected, and the sequence number is odd exactly while active |
| RconnSafety.PassBacksOff | lib/rconn.c:816-853 | while the connection does not come up, a failure to open, a timeout or a refusal before the deadline doubles the backoff, from 1, up to the maximum; a refusal after the deadline sets it back to 1; and nothing else changes it |
| RconnSafety.BackoffDoubles | lib/rconn.c:816-853 | after k failures in a row, however the waits and refusals fall, the backoff is 2 to the k-1 or the maximum; a refusal after the deadline is the first of a new row |
| ReliableConnection.Connection.StateTransition | lib/rconn.c:898-911 | entering a state in place, with the sequence number that tells connections apart, is the model's step |
| ReliableConnection.Connection.RconnDisconnect | lib/rconn.c:264-281 | the in-place disconnection is the model's step |
| ReliableConnection.Connection.FlushQueue | lib/rconn.c:857-872 | the loop that pops and frees the linked packets is the model's flush |
| ReliableConnection.Connection.Disconnect | lib/rconn.c:816-853 | dropping the connection in place is the model's step |
| ReliableConnection.Connection.Reconnect | lib/rconn.c:313-333 | opening the connection again in place is the model's step |
| ReliableConnection.Connection.TrySend | lib/rconn.c:787-811 | one attempt to send the first packet in place is the model's step |
| ReliableConnection.Connection.Send | lib/rconn.c:543-565 | queueing a packet in place, sent at once if it is the first, is the model's step |
| ReliableConnection.Connection.DoTxWork | lib/rconn.c:374-389 | the sending loop is the model's, and ends |
| ReliableConnection.Connection.RunOnce | lib/rconn.c:301-439 | one pass in place is the model's |
| ReliableConnection.Connection.Run | lib/rconn.c:444-458 | the do-while loop in place is the model's run, in at most four passes, and keeps the invariant |
| ReliableConnection.Connection.RconnRecv | lib/rconn.c:480-518 | receiving in place is the model's step |
| PacketQueue.OfpQueue.PushTail | lib/queue.c:89-103 | appends to the linked queue |
| PacketQueue.OfpQueue.PopHead | lib/queue.c:108-114 | takes the first packet off the linked queue |
| StreamLink.RecvMoves | lib/vconn-stream.c:113-169 | for every short read, a call to receive only moves bytes from the connection to its buffer or to one whole message, and reports a broken stream only for a bad length field or an end inside a message |
| StreamLink.RunKeepsBooks | lib/vconn-stream.c:113-225 | after every run of a sender and a receiver, the bytes read are the delivered messages followed by the buffer, and accepted bytes are written, pending or lost; bytes are lost exactly if a pending message was dropped |
| StreamLink.OneWayToSplit | lib/vconn-stream.c:126-143 | a stream of whole messages can be cut into whole messages in one way only, so what the receiver cut off is the first messages sent and its buffer begins the next |
| StreamLink.DeliveredInOrder | lib/vconn-stream.c:113-225 | for every run with any short reads and writes: written and pending bytes are the accepted messages end to end if and only if no pending message was dropped; then the delivered messages are the first accepted ones, unchanged and in order, and all of them once everything is written and read |
| StreamLink.DropBreaksFraming | lib/vconn-stream.c:179-199 | a run in which a hard write error drops a half-written message and the receiver delivers a message that was never sent |
| StreamVconns.StreamVconn.Recv | lib/vconn-stream.c:113-169 | receiving in place, with its jump back for the body, is the model's, in at most two reads |
| StreamVconns.StreamVconn.Send | lib/vconn-stream.c:201-225 | sending in place is the model's; a message is taken whole or not at all, and a write callback is registered exactly while bytes are pending |
| StreamVconns.StreamVconn.DoTx | lib/vconn-stream.c:179-199 | writing pending bytes in place is the model's |
| DhcpOptions.PiecesFit | lib/dhcp.c:766-787 | the pieces of an option value put end to end are the value, none exceeds 255 bytes, and all but the last are multiples of 8 |
| DhcpOptions.ParseWrites | lib/dhcp.c:575-609 | reading what was written is adding its items one by one, whatever follows END, the end of the packet or a cut-off option |
| DhcpOptions.EveryInputIsItems | lib/dhcp.c:575-609 | every byte string is a sequence of pads and options followed by a place where reading stops |
| DhcpOptions.ParseGathers | lib/dhcp.c:575-609 | for every byte string, reading it appends to each option all of that option's pieces in order, however they are split and mixed |
| DhcpOptions.OptionIsPut | lib/dhcp.c:766-787 | reading back the pieces of one option is adding its whole value at once |
| DhcpOptions.RoundTrip | lib/dhcp.c:815-840 | for every type and all options, reading back the written area gives each standard option its value, except that the type stands in front of its own option and the vendor's options are appended to the one that carries them; only in a message of type 0 are empty options before the first one with data gone; bytes after END do not matter |
| DhcpOptions.RoundTripIff | lib/dhcp.c:815-840 | the standard options other than the type come back as they were if and only if there are no vendor's options, and the type is not 0 or no empty option precedes the first one with data; a type comes back alone if and only if the option of its code held nothing |
| DhcpOptions.DataComesBack | lib/dhcp.c:766-787 | standard options of codes 1 to 254 that all hold data, of any length, come back exactly whatever the type, that of the type and the one that carries vendor's options apart |
| DhcpOptions.VendorComesBack | lib/dhcp.c:828-836 | of bytes that stay where they are, reading those packed for the vendor's options brings all of them back, empty ones too, if and only if none has the code of a pad or of the end |
| DhcpOptions.VendorCodeLost | lib/dhcp.c:187-207 | an option can be put under the code of a vendor's pad and does not come back, so the failing side of the condition occurs |
| DhcpOptions.EmptyOptionLost | lib/dhcp.c:187-207 | an empty host name in front of a requested address does not come back in a message of type 0, and does in one of type 1 |
| DhcpMessages.DhcpMsg.constructor | lib/dhcp.c:116-122 | a new message has no options |
| DhcpMessages.DhcpMsg.Copy | lib/dhcp.c:134-144 | a copy has the same options in a block that holds just them |
| DhcpMessages.DhcpMsg.AppendData | lib/dhcp.c:161-168 | appends to the block and returns the offset |
| DhcpMessages.DhcpMsg.CopyData | lib/dhcp.c:170-183 | packs what the slots point to into a new block in order of code, within its size, and every option keeps its content |
| DhcpMessages.DhcpMsg.PreallocData | lib/dhcp.c:146-159 | afterwards there is room, and every option keeps its content though the block may have moved |
| DhcpMessages.DhcpMsg.MoveToEnd | lib/dhcp.c:196-201 | moves an option to the end of the block, changing no option's content |
| DhcpMessages.DhcpMsg.Put | lib/dhcp.c:185-207 | appends to one option and leaves all others as they were, through growth, compaction and relocation of the block, and moves the block exactly if its room is too small for the option and what is added |
| DhcpMessages.DhcpMsg.ParseOptions | lib/dhcp.c:575-609 | the loop with its cursor reads what the specification reads, from any buffer, the message's own block included; it is left reading a block that was given up if and only if the buffer is that block and some option read from it does not fit in its room while there is more to read |
| DhcpMessages.DhcpMsg.PutFrom | lib/dhcp.c:185-207 | appends the bytes at a place in some buffer, after which the bytes that follow them there are still to be read |
| DhcpMessages.DhcpMsg.ParseVendor | lib/dhcp.c:719-726 | reads the vendor's options from the block they lie in, as the specification does if and only if the block stays put |
| DhcpMessages.DhcpMsg.ParsePacket | lib/dhcp.c:694-717 | reads the area after the cookie and the overloaded header fields, with the layout in memory that this leads to |
| DhcpMessages.DhcpMsg.Validate | lib/dhcp.c:611-649 | the loop drops the options of a length that their kind does not allow, and no other |
| DhcpMessages.Packet.PutOption | lib/dhcp.c:766-787 | the loop writes the option's pieces |
| DhcpMessages.Packet.PutOptions | lib/dhcp.c:822-833 | the loop over 256 codes writes the options of one range in order |
| DhcpMessages.Packet.AssembleOptions | lib/dhcp.c:815-840 | writes the specified packet area: the type, the standard options, the vendor's options packed into one, and END |
| DhcpMessages.Packet.Assemble | lib/dhcp.c:789-841 | writes the header, the cookie and the packet area of a message |
| DhcpMessages.DhcpParse | lib/dhcp.c:651-735 | reads a whole packet as the specification does, its type and its options included, unless the block moves while vendor's options are read from it, which it does exactly if the specified layout has no room for them |
| DhcpCodec.MessageComesBack | lib/dhcp.c:651-841 | a message that is assembled is accepted by the parser if and only if it has one byte of type in all, its own and the option of that code together; then its header fields, its type and its standard options come back, as far as their lengths are allowed, for every table of allowed lengths |
| DhcpCodec.TypeTwice | lib/dhcp.c:815-820 | a message that also has its type among its options is refused, so the failing side of the condition occurs |
| DhcpCodec.VendorReceived | lib/dhcp.c:719-726 | the vendor's options of an assembled message come back if and only if none has the code of a pad or of the end, given the vendor's class and an empty option of its own to carry them; without the class none comes back |
| DhcpCodec.VendorMessageComesBack | lib/dhcp.c:719-735 | the same after the test of lengths |
| DhcpCodec.SentOn | lib/dhcp.c:728-734 | a message that was accepted and is assembled again as it is is accepted again if and only if its type is 0, because its type is then written twice |
| DhcpCodec.WidthMatters | lib/dhcp.c:694-695 | all that can be assembled is accepted exactly where a pointer is as long as the cookie, because that many bytes are skipped for it |
| DhcpCodec.BareMessageRefused | lib/dhcp.c:694-695 | where pointers have 8 bytes, a message with a type and no option is refused |
| DhcpCodec.OrdinaryMessageMoves | lib/dhcp.c:146-159 | a message of the vendor's class that names a controller in 40 bytes, which is assembled and meets all other conditions, makes the block move while it is read |
| DhcpClientSafety.StagesFillLease | lib/dhcp-client.c:723-738 | the three stages of an accepted lease come in order and fill it exactly if it is not a lease under 60 seconds with a T2 in its first half and no T1 before that; otherwise the unsigned difference wraps around |
| DhcpClientSafety.RunOnTime | lib/dhcp-client.c:792-810 | after a call to run, a client still bound is inside a stage whose end, with the later stages, is no later than the limit |
| DhcpClientSafety.ForceKeepsGood | lib/dhcp-client.c:269-289 | a forced renewal keeps the invariant and gives the address up within the deadline asked for |
| DhcpClientSafety.DeadlineStands | lib/dhcp-client.c:291-319 | without an accepted lease, running does not move the time by which the address is given up |
| DhcpClientSafety.NeverPastLease | lib/dhcp-client.c:792-872 | in every run of calls with run called every second, a binding exists exactly while bound and its addresses are the ones in use, after each call to run a bound client's lease and any forced deadline lie in the future, and while the change flag is clear the binding is the one the owner last asked about |
| DhcpClientSafety.HeldPastLeaseIff | lib/dhcp-client.c:696-784 | a client left alone from the moment it is bound still holds the address when the lease expires if and only if the lease is such a short one with an early T2 |
| DhcpClientSafety.LeaseOutlived | lib/dhcp-client.c:723-738 | a lease of 20 seconds with T2 after 5, with which the client still holds the address 100 seconds later |
| DhcpClientSafety.AloneRenews | lib/dhcp-client.c:735-775 | a client with such a lease stays in the renewing state |
| DhcpClientModel.RankFalls | lib/dhcp-client.c:792-810 | without replies, a trip around the loop changes state only towards one that waits |
| DhcpClients.Dhclient.constructor | lib/dhcp-client.c:191-207 | a new client is released and unbound, and starts on time |
| DhcpClients.Dhclient.StateTransition | lib/dhcp-client.c:837-872 | entering a state in place is the model's step; leaving the bound states drops the binding |
| DhcpClients.Dhclient.ReceiveAck | lib/dhcp-client.c:696-749 | handling a refusal or acknowledgment in place is the model's step: a lease under the least acceptable time is ignored, and an accepted one sets addresses, times and the change flag |
| DhcpClients.Dhclient.RunOnce | lib/dhcp-client.c:555-790 | one trip in place is the model's |
| DhcpClients.Dhclient.Run | lib/dhcp-client.c:792-810 | the do-while loop in place is the model's run and ends; called every second it keeps the guarantee of the lease, so that a client still bound is before the end of its lease and of any deadline |
| DhcpClients.Dhclient.DoForceRenew | lib/dhcp-client.c:269-289 | forcing a renewal in place is the model's step, with the comparison of int and unsigned written out |
| DhcpClients.Dhclient.ForceRenew | lib/dhcp-client.c:291-319 | forcing a renewal in any state in place is the model's step, keeps the guarantee of the lease and brings it within the deadline |
| DhcpClients.Dhclient.Changed | lib/dhcp-client.c:328-336 | returns the change flag and clears it; if it was clear the binding is the one seen at the last call |
| DhcpClients.Dhclient.InitClient | lib/dhcp-client.c:240-251 | starting over in place is the model's step and keeps the guarantee of the lease |
| DhcpClients.Dhclient.Release | lib/dhcp-client.c:253-267 | giving the address up in place is the model's step and keeps the guarantee of the lease |
| DhcpClients.Dhclient.LeaseRemaining | lib/dhcp-client.c:353-364 | the time left of an unexpired lease of a bound client, which right after a call to run is positive exactly if the client is bound |
| DhcpClients.Dhclient.GetIp | lib/dhcp-client.c:366-372 | the address in the binding, or 0 if there is none |
| HashMaps.SlotIsMask | lib/hmap.h:139-147 | masking a hash with one less than a power of two is its remainder |
| HashMaps.CalcMaskFits | lib/hmap.c:103-121 | the mask is one less than a power of two, at least half the capacity, and larger than needed by less than a factor of two |
| HashMaps.ComputeMask | lib/hmap.c:103-121 | the shifts and or-operations of a 64-bit word, with the correction at the end, compute that mask |
| HashMaps.Hmap.InsertFast | lib/hmap.h:139-147 | links the node into its bucket, in place |
| HashMaps.Hmap.Insert | lib/hmap.h:151-158 | adds one node, keeping the others, and expands so that half the nodes, rounded down, do not exceed the mask |
| HashMaps.Hmap.Resize | lib/hmap.c:75-101 | moving every node to new buckets in place keeps the nodes and their hashes |
| HashMaps.Hmap.Rehash | lib/hmap.c:92-98 | the inner loop moves one chain to the new buckets, node by node |
| HashMaps.Hmap.Expand | lib/hmap.c:124-131 | keeps the nodes and grows to the computed size |
| HashMaps.Hmap.Shrink | lib/hmap.c:134-141 | keeps the nodes and shrinks to the computed size |
| HashMaps.Hmap.Remove | lib/hmap.h:162-171 | the pointer walk takes out exactly the node |
| HashMaps.Hmap.FindHash | lib/hmap.h:173-180 | the loop stops at the next node of the chain with the hash |
| HashMaps.Hmap.VisitHash | lib/hmap.h:184-202 | iteration by hash visits every node with that hash once, and no other |
| HashMaps.Hmap.Next | lib/hmap.h:232-238 | a step of the iteration leaves one node behind and nothing else |
| HashMaps.Hmap.VisitAll | lib/hmap.h:204-238 | iteration visits every node exactly once |
| PortArrays.LevelsOfIndex | lib/port-array.h:41-45 | an index is made up of its three levels |
| PortArrays.IndexOfLevels | lib/port-array.h:41-45 | three levels make up one index and are its levels |
| PortArrays.LevelsAreBits | lib/port-array.h:41-45 | the three levels are the bits that the shifts and masks on a 32-bit word extract |
| PortArrays.PortArray.constructor | lib/port-array.c:43-56 | a new array is empty and shares the sentinel nodes |
| PortArrays.PortArray.Get | lib/port-array.h:91-98 | finds the element by its three levels |
| PortArrays.PortArray.Set | lib/port-array.c:91-113 | sets one element and no other, giving the array nodes of its own in place of the shared ones |
| PortArrays.PortArray.Search | lib/port-array.c:115-153 | the three nested loops, which skip the sentinel nodes, find the least non-empty element from any start |
| PortArrays.PortArray.First | lib/port-array.c:158-163 | the least non-empty element |
| PortArrays.PortArray.Next | lib/port-array.c:169-174 | the least non-empty element above the given one if and only if that is not the largest 32-bit number or the array is empty; above that number the search starts over |
| PortArrays.StartsOver | lib/port-array.c:169-174 | above the largest 32-bit number the step finds an element with a smaller index |
| PortArrays.Visit | lib/port-array.c:158-174 | iteration visits exactly the non-empty elements, once each and in order |
| PortArrays.SetLeavesOthersAlone | lib/port-array.c:91-113 | setting an element of one array changes no other array that shares the sentinels |
| RateLimit.RateIsLimited | lib/vlog.c:625-667 | any stretch of calls with a clock that does not go back passes no more than two bursts and the rate allow |
| RateLimit.NewLimiterIsLimited | lib/vlog.h:87-116 | the same for any stretch of any run from a new limiter on |
| RateLimit.NothingUncounted | lib/vlog.c:625-667 | every call passed, was told of in a report, or is counted for the next report |
| RateLimit.RateLimiter.LogMessage | lib/vlog.c:625-667 | the decision in place is the model's step, and the report tells the number dropped |

## Left out

- StpSafety.RunKeepsRoles: runs that set a path cost of 0 are not covered; `SetPathCostKeepsInv` says exactly what one such call does to the configuration, and `FreePathCostUnsettles` that it can leave it unsettled.
- DhcpClientSafety.NeverPastLease: leases whose end exceeds the unsigned range are excluded, and forced renewals whose time cannot be multiplied by 3 in an int, because that is undefined in C.
- MacTable.MacLearning.LearnMac: the hash of a key is any function into the buckets; the hash functions themselves are not modelled.
- Spanning tree: the conversion of milliseconds to ticks with its carry, the byte order and flag bits of BPDUs on the wire, `stp_get_changed_port`, and 16- and 32-bit overflow of costs and timer values.
- StpConvergence.Converges: links do not fail and no timer runs out, so aging and the hold timer play no part in how a network comes to rest.
- Lists: `list_splice` and `list_replace`.
- Reliable connection: monitors, protocol statistics, and the test for questionable connectivity.
- Vconn: version negotiation, the passive side, and transports other than streams.
- DhcpMessages.DhcpParse: what the code finds in a block that it has freed is not modelled; the table of option kinds is a parameter, of which only the length of the type is used.
- DHCP: the byte order of header fields, and rendering as text.
- DHCP client: retransmission times, the packets it sends, the network device, and which options beside address, netmask and router make two configurations different, which a number stands for.
- Hash map: the bucket embedded in an empty map, `hmap_swap` and `hmap_reserve`; nodes are numbers with maps for their links.
- Rate limiting: wrap-around of the count of dropped messages, and the text of the report.
- Everything else in the repository: checksums, netlink, flow tables, the switch datapath and the user-space tools.
- Memory is never freed in the models, and allocation never fails.
