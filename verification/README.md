# STUN Max: a verified model of its packet, tunnel and room logic

STUN Max joins peers into rooms, punches direct UDP paths between them, and carries port forwards,
a VPN and file transfers over whatever path works, with a signalling and relay server behind it.
This project models the parts of it that are hard to get right by reading, and proves what they
promise for every input and every run:

- **VPN packets** (`Checksum`, `Transport`, `FlowKeys`, `NatHistory`, `Snat`, `SnatTheorems`, `SnatBytes`,
  `Mss`, `MssBytes`, `IcmpReply`): one's-complement checksums, source NAT in both directions over a table that lives
  across whole runs, clamping of the TCP segment size, echo replies.
- **RUTP**, reliable UDP (`RutpFrame`, `RutpSender`, `RutpSenderTheorems`, `RutpTiming`,
  `RutpReceiver`, `TunnelInbound`): the frame codec, retransmission with relay fallback, the pruned set of seen
  numbers, and the map that suppresses relay copies of UDP chunks.
- **The server** (`HubState`, `HubInvariant`, `HubServer`, `HubTheorems`, `HubJoins`, `HubEffects`,
  `HubReload`, `RateLimiter`): rooms, members, bans and relaying as one state machine with its database, through any
  number of restarts, and the sliding-window limiter.
- **Multi-hop bridges** (`HopRelay`, `HopSystem`, `HopTheorems`, `HopWritten`, `HopClose`): the middle
  peer's handlers, and origin, middle and target joined by FIFO links.
- **Peer modes and automatic hops** (`PeerModes`, `PeerHistory`): mode changes, reports of who reaches whom, the
  search for a peer to hop through.
- **Codecs and streams** (`Stun`, `StunWire`, `DirectFraming`, `MessageBatch`, `FileChunks`): STUN attributes,
  direct-TCP frames, newline batches, chunked file copy.

Code that changes state step by step is modelled by classes, arrays and loops. Each such method is
proved equal to a function on values (`View() == Joined(old(View()), ...)`), and the theorems over
runs are about those functions. `SnatBytes`, `MssBytes`, `RutpTiming`, `HubEffects`, `HopClose`,
`PeerHistory` and `StunWire` say what these functions do in terms of packet bytes, literal constants, and
the state before and after alone. `Bytes` holds fixed-width integers and big-endian fields, `Options`
the option type. A handler is one atomic step; clocks, random ids and the outcome of network sends
are parameters.

Where a promise does not hold of the code, the model keeps the code and states exactly when it
holds:

- The incremental checksum update subtracts in a uint32. The result is valid if and only if
  ~old - o0 + n0 - o1 + n1 >= 0 (`Transport.IncrementalFixIff`, `SnatTheorems.TransportIff`);
  `SnatTheorems.WrapIsReachable` gives a valid SYN that leaves applySNAT with a broken checksum.
- The RUTP receiver's cutoff wraps for small numbers, so number 500 clears the whole set.
  `RutpReceiver.DeliveredIff` says when a number is delivered again.
- A chunk that the relay has delivered is written again when its UDP copy arrives
  (`TunnelInbound.UdpCopyAfterRelayIsWritten`); `TunnelInbound.UdpWritesIff` says exactly when a UDP
  arrival is written.
- A request whose name contains a colon may enter a protected room without its password
  (`HubJoins.GuestEntersProtectedRoom`). Whoever enters has entered the room asked for exactly when no
  room of another name is live under the same key (`HubJoins.EntersAskedRoomIff`), and always on a server
  that has only seen names without a colon (`HubJoins.PlainNamesEnterAskedRoom`).
- A ban outlives a room that a client made, and is back after the room name is made persistent and the
  server restarts (`HubReload.StaleBanIsReloaded`). A persistent room is reloaded with its live blacklist
  exactly if a restart made it, or every ban that was stored under its key when it was made has been set
  or lifted since (`HubReload.ReloadIff`).
- The origin of a hop drops what arrives before it has accepted a local connection, so its local
  connection may miss the beginning (`HopWritten.OriginMissesEarlyData`). With pairwise different chunks
  it sees a prefix exactly when none came early or nothing has been written yet
  (`HopWritten.WrittenIsPrefixIff`).
- The origin of a hop does not hear of a close that arrives before it has accepted a local connection
  (`HopClose.EarlyCloseIsMissed`). A close takes the origin's end down exactly if its local connection was
  accepted before (`HopClose.OriginIsTakenDownIff`); the target's end is always told (`HopClose.TargetIsTold`).
- A receiver that resumes from a leftover which is not a prefix of the source file ends up with a
  different file (`FileChunks.Transfer`).
- An eligible peer may be passed over by the search for a hop in states that no run reaches
  (`PeerModes.SearchNeedsInvariant`); in reachable ones it is not (`PeerModes.SearchIsComplete`).

`dafny verify dfyconfig.toml` checks the whole project.

## Model

| member | source | states |
|---|---|---|
| `Checksum.ResidueLaws` | client/core/tun.go:1229-1231 | carry folding keeps the value modulo 65535, gives 0 only for 0, and gives all ones exactly for the positive multiples of 65535 |
| `Checksum.SumBound` | client/core/tun.go:1221-1228 | a message of at most 131074 bytes, odd lengths included, cannot overflow the uint32 word sum |
| `Checksum.SumOfOnes` | client/core/tun.go:1221-1228 | the bound is sharp: two more 0xFF bytes overflow |
| `Checksum.Fold` | client/core/tun.go:1229-1231 | the fold loop terminates with the residue of the sum |
| `Checksum.AddWords` | client/core/tun_proxy.go:721-729 | the word loop with its odd tail computes the sum of the zero-padded 16-bit words, wrapped to 32 bits |
| `Checksum.Compute` | client/core/tun_proxy.go:721-733 | the result is the complement of the folded wrapped sum, and the true checksum up to 131074 bytes |
| `Checksum.StoreVerifies` | client/core/tun.go:796-800 | zero the field, recompute, store: the folded sum of the whole message is 0xFFFF (section 2 of RFC 1071) |
| `Transport.ShiftSum` | client/core/tun.go:1253-1258 | the subtract-and-add loop equals the integer ~old - o0 + n0 - o1 + n1 wrapped to 32 bits |
| `Transport.FixTransportChecksum` | client/core/tun.go:1237-1264 | only the checksum field changes, short packets and zero UDP checksums not at all |
| `Transport.FoldedDelta` | client/core/tun.go:1253-1263 | the folded complement is the negated difference modulo 65535, off by exactly one when the uint32 wrapped |
| `Transport.IncrementalFixIff` | client/core/tun.go:1237-1264 | a valid TCP or non-zero UDP checksum stays valid after an address change if and only if the difference is not negative; otherwise the new sum is -1 modulo 65535 (section 3 of RFC 1624) |
| `FlowKeys.PrintInjective` | client/core/tun.go:764-783 | two flows that print to the same table key are the same flow |
| `NatHistory.TableIsLastForward` | client/core/tun.go:785-791 | after any interleaving of forwards, replies and cleanups the table holds a flow exactly when its latest forward has not expired, with that forward's source and the time of the latest use |
| `NatHistory.NeverForwardedAbsent` | client/core/tun.go:1112-1115 | a flow never forwarded is never in the table |
| `NatHistory.KeysWereForwarded` | client/core/tun.go:1267-1277 | the table holds nothing but flows that were forwarded |
| `Snat.TunDevice.InRoute` | client/core/tun.go:748-755 | the subnet loop finds a match exactly when some routed subnet contains the destination |
| `Snat.TunDevice.ApplySNAT` | client/core/tun.go:732-811 | the packet becomes its forwarded form in place, and the table stays the fold of the history extended by this forward |
| `Snat.TunDevice.ApplyReverseSNAT` | client/core/tun.go:1066-1139 | the packet becomes its returned form in place, and the table stays the fold of the history extended by this reply |
| `Snat.TunDevice.CleanupNATTable` | client/core/tun.go:1267-1277 | the sweep over the map, in any order, is one expiry event |
| `Snat.TunDevice.RecordEcho` | client/core/tun_proxy.go:142-190 | an echo request with a complete header that could be sent on is recorded under its flow, anything else is refused |
| `SnatTheorems.ReaddressedFrame` | client/core/tun.go:793-808 | readdressing changes only the address and the two checksums, and the address becomes the new one |
| `SnatTheorems.HeaderVerifies` | client/core/tun.go:796-800 | the IP header of a readdressed packet verifies, in both directions |
| `SnatTheorems.TransportIff` | client/core/tun.go:802-808 | through the whole rewrite, header checksum included, the transport checksum stays valid exactly when the update does not wrap |
| `SnatBytes.ForwardedBytes` | client/core/tun.go:732-811 | an IPv4 packet to a routed subnet leaves with the SNAT address as its source, any other unchanged; no byte changes but the source, the header checksum, and the checksum at offset 16 of TCP or 6 of UDP |
| `SnatBytes.ForwardedChecksum` | client/core/tun.go:802-808 | for every TCP packet of 18 transport bytes and every UDP packet of 8 with a checksum: one that is valid before is valid after exactly when ~old - o0 + n0 - o1 + n1 >= 0, read off the words before and after |
| `SnatBytes.ReturnedBytes` | client/core/tun.go:1066-1139 | a reply changes at most in its destination and the two checksums |
| `SnatBytes.ReturnedChecksum` | client/core/tun.go:1127-1134 | the same condition decides for every TCP or UDP reply |
| `SnatBytes.OthersPass` | client/core/tun.go:733-746 | what is not an IPv4 packet with its whole header passes both ways unchanged |
| `SnatBytes.ContainsIff` | client/core/tun.go:748-755 | a subnet contains exactly the addresses that share its first bits |
| `SnatBytes.TrackedIff` | client/core/tun.go:758-791 | a flow is recorded exactly for TCP and UDP with both ports and for echo requests with an identifier |
| `SnatBytes.SameFlowIff` | client/core/tun.go:764-783 | two packets on their way out are of one flow exactly if protocol, destination and both ports, or the identifier, agree byte for byte |
| `SnatBytes.AnswersFlowIff` | client/core/tun.go:1084-1106 | a packet coming back answers a flow exactly if its source is the flow's destination and the ports are swapped, or the identifier is the same |
| `SnatTheorems.WrapIsReachable` | client/core/tun.go:793-807 | a SYN with both checksums as computing them gives, routed and from 192.168.1.5, leaves applySNAT for 10.0.0.1 with an invalid TCP checksum |
| `SnatTheorems.MirrorNamesFlow` | client/core/tun.go:1084-1106 | the answer to a forwarded packet, addresses and ports swapped, names the flow that forwarding recorded |
| `SnatTheorems.ReplyDestination` | client/core/tun.go:1066-1139 | after every run a reply to the SNAT address goes to the source of the latest forward of its flow unless that expired; every other packet passes unchanged |
| `SnatTheorems.OutAndBack` | client/core/tun.go:1066-1139 | whatever ran before and since, the answer to a forwarded packet returns to the packet's original source unless its flow was forwarded again or expired |
| `Mss.TcpChecksumCalc` | client/core/tun.go:979-1000 | the checksum over pseudo-header and segment with the checksum field taken as zero |
| `Mss.WalkOptions` | client/core/tun.go:939-974 | the option loop terminates on every byte string and finds the option that the recursive walk finds |
| `Mss.WalkFindsFirst` | client/core/tun.go:939-974 | on every well-formed option list, ended by length or by an end-of-options byte, that is the first MSS option |
| `Mss.ClampMSS` | client/core/tun.go:922-976 | the packet, a prefix of a larger buffer, is clamped in place; slicing options past the buffer panics exactly when the data offset points there, and every packet that is not an IPv4 SYN with options is left alone |
| `MssBytes.ClampsEverySyn` | client/core/tun.go:922-976 | every IPv4 TCP packet whose flags have bit 1 set, SYN-ACKs included, leaves with the word of the first MSS option in its option list at the smaller of its old value and 1360, and only that word and the TCP checksum touched |
| `MssBytes.NothingToClamp` | client/core/tun.go:939-974 | without an MSS option in the list the buffer is unchanged |
| `MssBytes.OthersPass` | client/core/tun.go:923-937 | every packet without that flag, without options, or that is not TCP over IPv4 is unchanged |
| `Mss.InsideThePacket` | client/core/tun.go:939-974 | when the options lie inside the packet it never panics and the rest of the buffer plays no part |
| `Mss.ClampedBytes` | client/core/tun.go:957-970 | when something changes, only the option's value and the TCP checksum do |
| `Mss.ClampedIsSmallAndStable` | client/core/tun.go:922-976 | afterwards the first MSS option is at most 1360, and clamping again changes nothing |
| `Mss.ClampedVerifies` | client/core/tun.go:957-970 | a rewritten packet has a valid TCP checksum whatever it had before |
| `Mss.ClampedInVerifies` | client/core/tun.go:957-970 | so does one whose option slice reached past the packet into the buffer |
| `IcmpReply.BuildICMPReply` | client/core/tun_proxy.go:656-688 | every field of the reply is as asked for, and both its checksums verify |
| `IcmpReply.AnswerEcho` | client/core/tun_proxy.go:222-250 | an echo reply is passed on exactly when its flow is live, to the source that last pinged that host under that id |
| `RutpFrame.BuildFrame` | client/core/udp_reliable.go:171-188 | the buffer-filling code yields the frame of the packet |
| `RutpFrame.ParseFrame` | client/core/udp_reliable.go:190-218 | the sequence of checks accepts what the parse function accepts |
| `RutpFrame.ParseIffBuilt` | client/core/udp_reliable.go:171-218 | parsing yields a packet if and only if the input begins with exactly that packet's frame and its data has at most 65535 bytes |
| `RutpFrame.FrameHasFields` | client/core/udp_reliable.go:171-188 | on the wire: magic 0x534D, type, number, length modulo 2^16, then the data, in big-endian order |
| `RutpSender.Sender.SendData` | client/core/udp_reliable.go:71-89 | the next number is taken, the datagram leaves once and the packet is pending |
| `RutpSender.Sender.OnAck` | client/core/udp_reliable.go:91-96 | an acknowledged packet leaves pending; an unknown number changes nothing |
| `RutpSender.Sender.OnTick` | client/core/udp_reliable.go:100-138 | visiting the pending packets in any order has one outcome: each keeps, retries or hands over once |
| `RutpSenderTheorems.RunKeeps` | client/core/udp_reliable.go:71-138 | every run of fewer than 2^32 sends keeps the issued numbers 1..k partitioned into pending, acknowledged and relayed, with what left the sender accounted for |
| `RutpSenderTheorems.AtMostThreeAndOne` | client/core/udp_reliable.go:100-138 | each packet causes at most three datagrams and one relay copy, and nothing else ever leaves the sender |
| `RutpSenderTheorems.DatagramsAreFrames` | client/core/udp_reliable.go:71-89 | in every run the datagram of a packet is the prefix and the frame of type 1 with its own number and data |
| `RutpSenderTheorems.SettledForever` | client/core/udp_reliable.go:91-138 | once a packet has left pending, no continuation of the run touches it |
| `RutpSenderTheorems.LateTicksCount` | client/core/udp_reliable.go:100-138 | each tick at age over 450 ms uses up one of the 3 - retries left to an unacknowledged packet |
| `RutpSenderTheorems.ThreeLateTicksRelay` | client/core/udp_reliable.go:100-138 | any three such ticks, whatever happens between them, move it from pending to the relay |
| `RutpTiming.NothingLeavesEarly` | client/core/udp_reliable.go:100-138 | in every run a second datagram of a packet means a tick more than 150 ms after its Send, a third a later tick more than 300 ms after it, a relay copy a still later tick more than 450 ms after it |
| `RutpTiming.TickLaw` | client/core/udp_reliable.go:100-138 | conversely, a tick on a pending packet adds one datagram exactly if one has left and 150 ms are over or two have and 300 ms are over, and hands it to the relay exactly if three have and 450 ms are over |
| `RutpTiming.PendingIff` | client/core/udp_reliable.go:91-138 | in every run a packet is pending exactly if no acknowledgement of it has come since its Send and no relay copy has left |
| `RutpReceiver.Receiver.OnData` | client/core/udp_reliable.go:145-169 | the payload is returned exactly when the arrival counts as new, and two acknowledgements are written either way |
| `RutpReceiver.Receiver.Prune` | client/core/udp_reliable.go:158-165 | the sweep drops exactly the numbers below the cutoff |
| `RutpReceiver.DeliveredIff` | client/core/udp_reliable.go:145-169 | a number is delivered exactly when, since each earlier delivery of it, some s with s % 500 == 0 and k < (s - 5000) mod 2^32 was delivered |
| `RutpReceiver.AtMostOnce` | client/core/udp_reliable.go:145-169 | at most one delivery when the pruning numbers are at least 5000 and no arrival lags one by more than 5000 |
| `RutpReceiver.SmallNumbersForget` | client/core/udp_reliable.go:158-165 | without that: arrivals 1, 500, 1 are all delivered |
| `TunnelInbound.Inbound.HandleUdp` | client/core/stun.go:1168-1209 | the receiver is made on first use, a new chunk is written and its hash recorded |
| `TunnelInbound.Inbound.HandleRelay` | client/core/tunnel.go:571-601 | a relay chunk is written unless its hash is in the dedup map |
| `TunnelInbound.Inbound.ResetDedup` | client/core/tunnel.go:447-449 | reading over UDP starts a new dedup map |
| `TunnelInbound.RelayWritesIff` | client/core/tunnel.go:588-600 | in every run a relay copy is written, decompressed if that is possible and as it is otherwise, exactly when no chunk of that hash was written since the event that made the map: the last start of UDP reading, or else the first UDP arrival |
| `TunnelInbound.UdpWritesIff` | client/core/stun.go:1168-1209 | in every run, whatever the relay has written, a UDP chunk is written, decompressed if that is possible, exactly when it is not empty and every earlier delivery of its number, among the UDP events, has been forgotten since |
| `TunnelInbound.NoRelayCopyAfterUdp` | client/core/tunnel.go:588-600 | a chunk written over UDP is never written again from the relay while the map lives |
| `TunnelInbound.UdpCopyAfterRelayIsWritten` | client/core/stun.go:1168-1209 | after any run that wrote the relay copy of a chunk, the first UDP arrival of the chunk is written as well |
| `RateLimiter.Limiter.Allow` | server/main.go:62-79 | with a non-decreasing clock, accepts exactly when fewer than max earlier acceptances of the key lie in (now - window, now] of the full history |
| `RateLimiter.RecentTwice` | server/main.go:66-72 | pruning at an earlier cutoff loses nothing that a later cutoff keeps |
| `RateLimiter.WindowBound` | server/main.go:62-79 | every interval (s, s + window] holds at most max acceptances of a key |
| `RateLimiter.CountIsCardinality` | server/main.go:62-79 | the count that decides is the number of calls of the key in the interval that were let through |
| `HubServer.Store.SaveRoom` | server/store.go:58-76 | upsert of the row under the room's key |
| `HubServer.Store.DeleteRoom` | server/store.go:78-85 | the row and all bans of the key go, nothing else |
| `HubServer.Store.LoadRooms` | server/store.go:87-140 | the two loops yield one room per row, each with exactly the bans stored under its key |
| `HubServer.Store.SaveBan` | server/store.go:142-148 | insert-or-ignore of the ban |
| `HubServer.Store.DeleteBan` | server/store.go:150-156 | exactly that ban goes |
| `HubServer.Store.UpdateBytesRelayed` | server/store.go:158-163 | only the counter of an existing row changes |
| `HubServer.Hub.constructor` | server/hub.go:73-92 | starting loads what the database holds; rows that this program wrote give a state that meets the invariant |
| `HubServer.Hub.SyncBytesToStore` | server/hub.go:112-123 | the counters of the persistent rooms' rows become the live ones |
| `HubServer.Hub.FindRoomByName` | server/hub.go:134-154 | whatever order the map is searched in: found under the derived key, else wrong password if a room of that name exists, else none |
| `HubServer.Hub.GetOrCreateRoom` | server/hub.go:157-192 | a live room is returned as it is; a new one is made with an empty blacklist, and stored exactly when it has no owner |
| `HubServer.Hub.CreateRoom` | server/main.go:232-253 | the dashboard makes a persistent room and keeps the invariant |
| `HubServer.Hub.RemoveClientFromRoom` | server/hub.go:194-250 | the connection goes from its room, and a client-made room goes with its owner or its last member, while its bans stay stored |
| `HubServer.Hub.HandleLeave` | server/client.go:296-301 | leaving keeps the invariant |
| `HubServer.Hub.FindClient` | server/hub.go:252-267 | finds a member of that id exactly when some live room has one |
| `HubServer.Hub.DisconnectExisting` | server/hub.go:269-284 | the client id goes from every room |
| `HubServer.Hub.Connect` | server/main.go:167-182 | a reconnecting client id leaves all rooms before its new connection is made |
| `HubServer.Hub.DeleteRoom` | server/hub.go:390-416 | all rooms of that name go, in memory and in the database, and the answer says whether there was one |
| `HubServer.Hub.BanClient` | server/hub.go:425-464 | one room of that name gets the ban, in memory and in the database alike; without such a room nothing changes |
| `HubServer.Hub.KickClient` | server/hub.go:466-504 | one room of that name loses the member, and the answer says whether it was one |
| `HubServer.Hub.UnbanClient` | server/hub.go:506-531 | one room of that name loses the ban, in memory and in the database |
| `HubServer.Hub.HandleJoin` | server/client.go:179-284 | the branches of a join, with leaving, lookup, creation, ban, lock and admission, add up to the join function and keep the invariant |
| `HubServer.Hub.RelayData` | server/relay.go:93-144 | the two searches pick members of live rooms, and delivery follows the relay function |
| `HubInvariant.ConnectKeeps` | server/hub.go:269-284 | a connection keeps: members carry their room's key, rows mirror persistent rooms, live bans are stored |
| `HubInvariant.CreateKeeps` | server/hub.go:157-192 | creating a room keeps it |
| `HubInvariant.LeaveKeeps` | server/hub.go:194-250 | leaving keeps it and takes the connection out of every live room |
| `HubInvariant.JoinKeeps` | server/client.go:179-284 | joining keeps it for every request and every answer |
| `HubInvariant.DeleteKeeps` | server/hub.go:390-416 | deleting rooms keeps it |
| `HubInvariant.BanKeeps` | server/hub.go:425-464 | banning keeps it |
| `HubInvariant.UnbanKeeps` | server/hub.go:506-531 | unbanning keeps it |
| `HubInvariant.KickKeeps` | server/hub.go:466-504 | kicking keeps it |
| `HubInvariant.RelayKeeps` | server/relay.go:93-144 | relaying keeps it |
| `HubInvariant.SyncKeeps` | server/hub.go:112-123 | syncing the counters keeps it |
| `HubInvariant.RestartKeeps` | server/hub.go:73-92 | a restart from stored rows establishes it |
| `HubInvariant.RowsAreGood` | server/store.go:58-76 | the rows of a state that meets the invariant are what a restart needs |
| `HubTheorems.RunKeeps` | server/hub.go:73-531 | every run of handlers and restarts of a new server ends in a state that meets the invariant, and its rows are such that the next restart does too |
| `HubTheorems.OneRoomPerConnection` | server/client.go:215-267 | a connection is a member of at most one live room, under one id |
| `HubTheorems.RelayIsolation` | server/relay.go:93-144 | data crosses exactly between two members of the same live room whose relay is on; that room's counter grows by the payload length, the target's queue by the envelope unless full, and nothing else changes |
| `HubTheorems.StaleKeyAfterKick` | server/hub.go:466-504 | the converse of membership-implies-key fails: a kicked connection keeps the key |
| `HubJoins.JoinOutcome` | server/client.go:179-284 | the answers decide by exclusive conditions: a wrong password only if rooms of that name exist and none has this password, a ban before a lock; whoever enters is a member under its own id, whoever is refused a room is a member of none |
| `HubEffects.AnswerIs` | server/client.go:179-284 | the answer to every join, with when each must be given: no name, rate limit, then wrong password exactly if rooms of that name are live and none has it, then ban, then lock, and otherwise entered |
| `HubEffects.EnterEffects` | server/client.go:215-267 | whoever enters is in; exactly the members of other ids with the same non-empty name go; nothing else of any room changes |
| `HubEffects.RefusedEffects` | server/client.go:219-246 | a refusal leaves everything as it was when the room was chosen |
| `HubEffects.NameAfter` | server/client.go:179-284 | whatever the answer, the announced name is recorded and no other client changes |
| `HubEffects.LeaveEffects` | server/hub.go:194-250 | leaving removes the room exactly if a client made it and its owner leaves or nobody else is in it; everybody else and every other room stays |
| `HubEffects.BanDecides` | server/hub.go:425-531 | a ban shuts the client out of the room it asks for, and lifting the ban lets it pass |
| `HubEffects.BanEffects` | server/hub.go:425-464 | a ban adds exactly that ban to the room and to the database, and moves nobody out |
| `HubEffects.UnbanEffects` | server/hub.go:506-531 | an unban takes exactly that ban from both |
| `HubEffects.LockDecides` | server/client.go:231-246 | a locked room answers every unbanned client that is not in it with a lock, an unlocked one lets it in |
| `HubEffects.SwitchDecides` | server/relay.go:104-113 | switching off a room's relay stops its data, and switching it on lets it through |
| `HubEffects.ConnectEffects` | server/hub.go:269-284 | a connection takes its id out of every room and changes no other membership |
| `HubEffects.KickEffects` | server/hub.go:466-504 | a kick ends exactly that membership |
| `HubEffects.DeleteEffects` | server/hub.go:390-416 | exactly the live rooms of that name and their rows go |
| `HubEffects.CreateEffects` | server/hub.go:157-192 | the dashboard's new room is persistent, empty, open and stored; a live one under its key is left as it is |
| `HubEffects.SyncEffects` | server/hub.go:112-123 | after a sync every row carries the counter of its live room, and nothing else has changed |
| `HubEffects.RestartEffects` | server/hub.go:73-92 | after a sync and a restart exactly the persistent rooms are back, unlocked and empty, with stored bans and live counters |
| `HubJoins.EntersAskedRoomIff` | server/client.go:219-229 | the room entered has the requested name and password exactly when, after the connection has left its old room, no room of another name is live under the request's key |
| `HubJoins.PlainNamesEnterAskedRoom` | server/client.go:219-229 | on a server that has only seen names without a colon, through any run and restarts, whoever enters has entered the room asked for |
| `HubJoins.GuestEntersProtectedRoom` | server/client.go:219-229 | with a colon not: a guest who asks for "a:h" without a password enters room "a" with password hash "h" |
| `HubReload.ReloadMatches` | server/store.go:87-140 | reloading yields exactly the live persistent rooms, each with at least its live bans and only stored ones |
| `HubReload.StoredIff` | server/store.go:78-156 | in every run a ban is stored exactly when it was recorded and neither unbanned nor deleted with its live room since |
| `HubReload.ReloadedBansStand` | server/store.go:123-136 | so the reloaded blacklist of a room holds exactly the clients whose ban under its key still stands |
| `HubReload.StepFollows` | server/hub.go:390-531 | while a room lives, an operation takes from the stored bans that the room does not know exactly those it bans or unbans, and keeps whether the room is persistent |
| `HubReload.ReloadIff` | server/hub.go:157-192 | from the operation that makes a room, through any run in which it lives: it is reloaded exactly if no client made it, and with its live blacklist exactly if a restart made it or every ban stored under its key at that moment has been set or lifted since |
| `HubReload.StaleBanIsReloaded` | server/hub.go:218-241 | a run in which a client may enter a room until the server restarts, and is then banned by a ban from an earlier room of that name |
| `HubJoins.RoomKeyInjective` | server/hub.go:125-132 | names without a colon and their passwords are determined by the key |
| `HopRelay.Relay.HandleHopForward` | client/core/multihop.go:70-145 | an accepted hop registers both ids and answers both sides; a refused one leaves the index as it was and answers the origin only |
| `HopRelay.Relay.HandleTunnelData` | client/core/tunnel.go:540-569 | bridged data leaves for the other peer under the other id, unchanged |
| `HopRelay.Relay.HandleCloseTunnel` | client/core/tunnel.go:603-637 | the close goes on to the other side once and the bridge is dropped |
| `HopRelay.Relay.HandleTunnelRejected` | client/core/tunnel.go:639-669 | the origin learns of the failure and the bridge is dropped |
| `HopRelay.CloseKeepsPairs` | client/core/tunnel.go:603-637 | dropping a bridge takes out both of its ids and leaves all other pairs whole |
| `HopRelay.SwapTwice` | client/core/tunnel.go:546-569 | swapping sides is an involution without fixed point |
| `HopTheorems.RunKeeps` | client/core/multihop.go:96-132 | in every run the index holds both ids of a bridge or neither, and while it stands nothing sent is missing |
| `HopTheorems.DeliveredIsPrefix` | client/core/tunnel.go:546-569 | in every run over FIFO links what is delivered at one end is a prefix of what was sent into the other, in both directions |
| `HopTheorems.TeardownIsComplete` | client/core/tunnel.go:603-669 | a close or reject that reaches the middle takes both ids of its bridge out |
| `HopClose.DataGoesOn` | client/core/tunnel.go:540-569 | in every reachable state data of a standing bridge goes to the holder of the other end under the other end's id, and other data nowhere |
| `HopClose.CloseGoesOn` | client/core/tunnel.go:603-637 | a close goes to the holder of the other end under the other end's id if the bridge still stood, and otherwise nowhere |
| `HopClose.RejectGoesOn` | client/core/tunnel.go:639-669 | a rejection goes to the origin under the name of the hop, if the bridge still stood |
| `HopClose.CloseTakesDown` | client/core/tunnel.go:603-637 | in every run an end that is up when a close of its tunnel is delivered is down from then on |
| `HopClose.TargetIsTold` | client/core/tunnel.go:603-669 | in every run, once the bridge of a target's end is gone and no close is on its way to it, that end is down, whoever closed |
| `HopClose.OriginIsTakenDownIff` | client/core/multihop.go:179-228 | in every run a close delivered to an origin's end takes it down exactly if its local connection was accepted before |
| `HopClose.EarlyCloseIsMissed` | client/core/multihop.go:179-228 | a run in which the target has closed and nothing is under way, but the origin's local connection is up |
| `HopTheorems.NothingCrossesAfterClose` | client/core/tunnel.go:603-669 | once a bridge is dropped, what crossed it is fixed for the rest of every run |
| `HopTheorems.DeliveriesEnd` | client/core/tunnel.go:603-692 | without new local activity only a bounded number of deliveries follows any run, so closes cannot echo for ever |
| `HopWritten.WrittenIsStretch` | client/core/multihop.go:179-228 | in every run the local connection at an end sees an uninterrupted stretch of what the other sent: from the beginning at the target, and at the origin after exactly the chunks handed to it before its local connection was accepted |
| `HopWritten.WrittenIsPrefixIff` | client/core/multihop.go:179-228 | it is a prefix if none came early or nothing is written yet, and with pairwise different chunks only then |
| `HopWritten.OriginRun` | client/core/multihop.go:179-228 | in every run an origin waits exactly until its local connection is accepted, and has lost as many chunks as were handed to it before |
| `HopWritten.OriginMissesEarlyData` | client/core/multihop.go:179-228 | a run in which that stretch is not a prefix |
| `PeerModes.Peers.HandlePeerList` | client/core/client.go:1031-1052 | exactly the newly listed peers other than ourselves that have no record yet get a connecting one |
| `PeerModes.Peers.HandleStunInfo` | client/core/stun.go:575-632 | a direct peer at the same address is left alone, one that moved goes back to connecting, and any other gets the address |
| `PeerModes.Peers.HolePunchSuccess` | client/core/stun.go:835-872 | a peer that was not direct becomes direct with this address and no failures |
| `PeerModes.Peers.RetryTick` | client/core/stun.go:1396-1433 | the sweep demotes exactly the peers that failed five times and returns exactly those to punch again |
| `PeerModes.Peers.FindAutoHopCandidate` | client/core/autohop.go:66-101 | the loop over the map, in any order, returns an eligible peer of maximal score above -1, or "" if there is none |
| `PeerModes.Peers.TryAutoHop` | client/core/autohop.go:105-140 | an existing hop is kept, otherwise the chosen peer is recorded for the target |
| `PeerModes.Peers.PeerLeft` | client/core/autohop.go:143-157 | the peer's record and report go, and so does every hop through it |
| `PeerModes.Peers.ResetP2PState` | client/core/client.go:871-900 | every peer is back to connecting, without address, cipher or hop, and all reports are forgotten; failure counts stay |
| `PeerModes.RunKeeps` | client/core/stun.go:598-632 | every run keeps: direct implies no failures and an address, relay implies at least five failures, a hop implies a stored report of that peer |
| `PeerModes.SearchIsComplete` | client/core/autohop.go:66-101 | in every reachable state the search returns a peer exactly when one is direct to us and reported direct to the target, and a best one: an encrypted one if there is any |
| `PeerModes.SearchNeedsInvariant` | client/core/autohop.go:84-95 | outside the reachable states it may pass over an eligible peer |
| `PeerModes.HopsFollowMaps` | client/core/autohop.go:143-157 | a recorded hop leads through a peer that still reports, and no hop survives the peer it leads through |
| `PeerHistory.DirectIff` | client/core/stun.go:598-632 | in every run a peer is direct exactly if a punch made it so and it has neither announced another address, nor left, nor been reset since, and it is reached under the punched address |
| `PeerHistory.RelayIff` | client/core/stun.go:1396-1433 | in every run a peer is relayed exactly if a retry tick found it connecting, with an address and five failures, and it has neither been punched, nor left, nor been reset since |
| `PeerHistory.ReportIff` | client/core/autohop.go:47-62 | in every run the stored report of a peer is the last one it sent, unless it left or all was reset since |
| `PeerHistory.HopIff` | client/core/autohop.go:105-157 | in every run a target is reached through a peer exactly if that peer was chosen when the target was known and had no hop, and neither has left nor all been reset since |
| `PeerHistory.KnownAfter` | client/core/client.go:1031-1052 | a record appears with a peer list, an announced address or a punch, and goes only when the peer leaves |
| `PeerHistory.DirectAfter` | client/core/stun.go:835-872 | one event makes a peer direct exactly if it is a punch of it, and ends that exactly if it is a reset, its leaving, or another address of it |
| `PeerHistory.RelayAfter` | client/core/stun.go:1396-1433 | one event makes a peer relayed exactly if it is a retry tick on five failures, and ends that exactly if it is a punch, its leaving or a reset |
| `PeerHistory.FailsAfter` | client/core/stun.go:1396-1433 | failures are counted while the peer is not direct, and a success clears them |
| `PeerHistory.AddrAfter` | client/core/stun.go:598-632 | the address of a peer is the last one announced or punched, until a reset |
| `PeerHistory.EncryptedAfter` | client/core/stun.go:598-632 | a key exchange lasts until the peer leaves, is reset, or was direct and has moved |
| `Stun.WalkAttributes` | client/core/stun.go:108-132 | the offset loop terminates on every byte string and finds what the recursive walk finds |
| `Stun.ParseXorMappedAddress` | client/core/stun.go:108-160 | the value found is decoded; short values, other families and missing attributes are told apart |
| `Stun.WalkFindsFirst` | client/core/stun.go:108-132 | on every list of padded attributes the first XOR-MAPPED-ADDRESS is decoded (section 15 of RFC 5389) |
| `Stun.XorTwice` | client/core/stun.go:145-157 | exclusive-or with the same bits twice gives the value back, at every width |
| `StunWire.XorBits` | client/core/stun.go:145-157 | a bit of the exclusive-or is set exactly where the operands differ |
| `StunWire.DecodeWire` | client/core/stun.go:134-160 | a value of eight bytes and family 1 gives bytes 4 to 7 masked by 0x2112A442 and bytes 2 to 3 masked by 0x2112; a shorter one and another family are told apart |
| `StunWire.WalkDecodes` | client/core/stun.go:108-132 | on every list of padded attributes the first one of type 0x0020 decides, and without one nothing is found |
| `Stun.BuildBindingResponse` | tools/stunserver/main.go:194-242 | the offset-filling code yields header and three attributes one after the other |
| `StunWire.ResponseWire` | tools/stunserver/main.go:194-242 | all 56 bytes of the response: type 0x0101, length 36, cookie, transaction id, masked address, plain address, software name |
| `Stun.ClientReadsServer` | tools/stunserver/main.go:194-242 | for every IPv4 address, port and transaction id the client's walk over the server's response returns that address and port |
| `DirectFraming.TunnelIDRoundTrip` | client/core/stun.go:170-186 | an id survives the conversion to eight bytes and back exactly when it is 16 lower-case hexadecimal digits |
| `DirectFraming.BuildFrame` | client/core/tunnel.go:390-405 | header and data copied into one buffer are the frame |
| `DirectFraming.FrameWire` | client/core/tunnel.go:390-405 | on the wire: eight bytes that the id's hexadecimal digits spell, the length with its highest byte first, the data |
| `DirectFraming.ReadOne` | client/core/stun.go:1443-1462 | one turn of the reader accepts exactly a complete frame of 1 to 512*1024 bytes of data |
| `DirectFraming.ReadLoop` | client/core/stun.go:1439-1466 | the loop hands on exactly the frames before the first one it refuses |
| `DirectFraming.ReadsWhatFits` | client/core/stun.go:1443-1466 | reading concatenated frames returns exactly the chunks before the first empty or oversized one |
| `DirectFraming.ReadsAllIff` | client/core/stun.go:1443-1466 | it returns the whole list if and only if every chunk has 1 to 512*1024 bytes |
| `DirectFraming.CutStreamIsPrefix` | client/core/stun.go:1443-1466 | a connection that breaks at any byte delivers a prefix of the list, never a damaged chunk |
| `MessageBatch.WriteFrame` | server/client.go:92-104 | the drain loop writes the newline-joined batch |
| `MessageBatch.SplitMessages` | client/core/client.go:968-977 | the loop yields the trimmed non-blank lines in order |
| `MessageBatch.JoinLines` | client/core/client.go:970 | cutting into lines loses nothing |
| `MessageBatch.BatchReadsAsParts` | client/core/client.go:968-977 | any batch at all is read as its parts would be read one by one |
| `MessageBatch.RoundTripIff` | client/core/client.go:968-977 | a batch comes back as sent if and only if every message is non-empty, without newline and without white space, Unicode included, at either end |
| `MessageBatch.CleanIff` | client/core/client.go:972-975 | clean means: not empty, no newline, and neither beginning with nor ending in the UTF-8 encoding of a code point with the White_Space property |
| `FileChunks.Sender.Accepted` | client/core/filetransfer.go:335-344 | a resume offset becomes both file position and count of bytes done |
| `FileChunks.Sender.SendFileChunks` | client/core/filetransfer.go:732-896 | under any pattern of switches, failures and cancellation, the messages tile the file from the start offset without gap or overlap, each with 1 KB or 32 KB as the path of its chunk says, and bytes done is where they end: the end of the file when nothing stops it |
| `FileChunks.Sender.Turn` | client/core/filetransfer.go:763-834 | one turn reads the next piece of the file and sends it, or stops with an error, a cancellation or the end of the file |
| `FileChunks.Sender.SendChunk` | client/core/filetransfer.go:785-807 | a chunk is sent exactly if the direct send of a direct path or else the relay succeeds |
| `FileChunks.ElevenFailures` | client/core/filetransfer.go:791-803 | between two looks at the peer's mode, up to ten failures in a row leave the path direct and eleven turn it to the relay |
| `FileChunks.FreshPath` | client/core/filetransfer.go:855-870 | every hundredth chunk takes the path that the peer's mode then says |
| `FileChunks.SteadyPath` | client/core/filetransfer.go:785-870 | a transfer is direct throughout if the peer is and no direct send fails, and relayed throughout if the peer never is direct |
| `FileChunks.Receiver.AcceptFile` | client/core/filetransfer.go:135-177 | a pending transfer continues a shorter non-empty leftover and overwrites anything else; any other transfer is refused and unchanged |
| `FileChunks.Receiver.WriteFileChunk` | client/core/filetransfer.go:523-539 | the chunk is appended and counted, and only while the transfer is active |
| `FileChunks.Receiver.HandleFileDone` | client/core/filetransfer.go:580-646 | a shortfall is asked for from the first missing byte; otherwise the hash decides, if there is one to compare with |
| `FileChunks.TilesContent` | client/core/filetransfer.go:763-896 | messages that tile a stretch of the file hold exactly that stretch |
| `FileChunks.Transfer` | client/core/filetransfer.go:523-896 | with every message delivered in order, file_done finds no gap, and the received file equals the source if and only if the part it resumed from was a prefix of the source |

## Left out

- Interleaving inside a handler: locks are taken as making each handler atomic; a lookup and an
  update under two separate locks are one step here.
- Client and room objects of the server are values in maps, named by connection number and room key;
  closed send channels, writes to them, and sessions of the relay manager are not modelled.
- Peer lists, endpoints, features, creation times and status broadcasts of the server: they do not
  feed back into membership or relaying.
- HubServer.Hub.GetOrCreateRoom: the log line slices the owner's id to eight characters, which
  panics on a shorter id; logging is not modelled.
- HubServer.Hub.RelayData: payloads are byte strings, and whether a payload is data is a parameter;
  the JSON inspection of isDataRelay is not modelled.
- PeerModes.RunKeeps: reports come from named peers, as the server, which makes the ids, sends them.
- Mss.ClampedVerifies: for at most 131062 bytes after the IP header, the reach of the uint32 sum;
  an IPv4 packet has at most 65535.
- Transport.IncrementalFixIff: says nothing of UDP's rule that a computed zero is sent as 0xFFFF;
  the code stores the zero.
- RutpSenderTheorems.RunKeeps: for fewer than 2^32 sends, after which numbers repeat.
- RutpSender.Sender.OnTick: the order of messages within one tick is the map's and is not fixed; the
  output is a multiset.
- HopTheorems.DeliveredIsPrefix: for globally fresh ids, peers that follow the protocol and FIFO
  links; all data takes the relay path, which is the only one that bridges.
- HopRelay.Relay.HandleHopForward: two bridges under one hop id overwrite each other in the table of
  hops; the index by tunnel id, which routes, is what the theorems are about.
- HopWritten.WrittenIsStretch: one local connection per tunnel id; the accept loop of the origin
  reuses the id for later connections.
- FileChunks.Transfer: loss-free delivery in order; negative acknowledgements and retransmission,
  compression, base64 and the choice of hash are outside.
- FileChunks.Receiver.HandleFileDone: the file can be read back for hashing; one that cannot is
  completed unchecked, like one without a hash.
- FileChunks.Receiver.WriteFileChunk: writing to disk does not fail.
- TunnelInbound.NoRelayCopyAfterUdp: the hash is an arbitrary function, so two chunks of equal hash
  count as copies, as they do in the code.
- IPv6, the gVisor network stack, the TUN device, routes, sockets and WebSocket keep-alive.
- Key agreement, encryption, deflate, CRC32, SHA-256, JSON and base64: libraries.
- Hole punching by burst, birthday and port prediction; NAT detection; the speed test: timing and
  randomness.
- handleTCP, handleUDP and tcpReadLoop of tun_proxy.go: no longer called.
- Command line, dashboard, web and mobile user interfaces, statistics, configuration files.
