# Le Voile: verified model of the relay, the tunnel and the updater

Le Voile is a VPN: a client sends IPv4 packets through a framed stream to a relay, which translates addresses and
splices TCP in userspace, accounts bandwidth, and sends replies back the same way. On the client, a reconnection loop
works under a DNS kill switch, fails over between relays, and an updater stages and installs releases under
anti-downgrade markers. This Dafny project models those parts and proves what they are for. `dafny verify
dfyconfig.toml` checks everything.

## How it is organised

| files | subject |
|---|---|
| `Bytes`, `Checksum`, `Packet`, `PacketLayout`, `PacketOps` | big-endian words, the Internet checksum, decoding, its inverse with every option, building and rewriting packets in place |
| `TupleKey`, `NatModel`, `PortPool`, `NatTable` | the NAT: a reference table over flows, and the running object with two indexes that refines it |
| `TcpSplice`, `TcpEntry` | the userspace TCP splice, one atomic step at a time, and the methods that run those steps |
| `Framing`, `ReversePath`, `ForwardPath` | both ends of the length-prefixed stream, and the whole path in either direction |
| `Bandwidth`, `Subnet`, `BandwidthLimiter`, `LazyReset`, `Admission` | the limiters, sequential and concurrent |
| `StateChannel`, `Reconnect` | the lossy state channel, the reconnection loop and the kill switch |
| `Sorting`, `Text`, `Countries`, `AlternateCountries`, `Selector`, `Failover` | relay grouping, ranking, round-robin and failover |
| `Stun` | XOR-MAPPED-ADDRESS responses |
| `Versions`, `AntiDowngrade` | the version order and the update markers |

An object whose methods change its fields is a class here too; its methods are proved equal to functions on values,
and the theorems over runs are about those functions. What the environment decides (dial results, clock readings,
iteration orders, failures, interleavings) is a parameter that ranges over everything.

## What was found false, and when it is true

- The limiter answers like one that stores all traffic forever exactly when the daily quota is positive: with a quota
  of zero or less, a key never seen may still open a tunnel (`Bandwidth.LimiterIsIdealIff`).
- A client address text that reads like a subnet key shares that subnet's bucket (`BandwidthLimiter.SlashedAddressCollides`);
  `BandwidthLimiter.SubnetConservation` gives the exact condition, which addresses that parse always meet. Only a direct
  caller of the limiter can pass such a text: the handlers pass the host of the remote address.
- What the splice writes is a prefix of the client's stream in every run exactly when the stream is shorter than 2^32
  bytes (`TcpSplice.PrefixIffShort`): after a whole turn a late copy of an old segment carries the expected number.
- A data packet acknowledges what was recorded when it took its numbers. That is everything written when it is sent
  exactly when no write was waiting to be recorded then and none was done in between (`TcpSplice.DataAckExactIff`, and
  `TcpSplice.FinAckExactIff` for the closing FIN; `TcpSplice.StaleAckWitness` is a run where it is not). Only pure ACKs
  always acknowledge everything written.
- Data on a new flow without SYN is meant to be forwarded, and is always dropped (`TcpSplice.FirstDataDropped`).
- The client's last segment is acknowledged truthfully exactly when it carries no bytes beside the FIN and has the
  expected number (`TcpSplice.FinTruthfulIff`); the code tests neither, and never writes bytes carried by a FIN.
- The FIN-ACK does not use up a number: a data packet with the same number follows exactly when something is numbered
  after the client's FIN arrived (`TcpSplice.FinAckNumberReusedIff`), and a client that has taken the FIN drops it
  (`ReversePath.ClientReassembles`).
- When both activation calls of the kill switch fail and the reconnection then succeeds, the release is refused and the
  DNS proxy stays stopped (`Reconnect.DnsLostWitness`); `Reconnect.DnsRestoredIff` says exactly when DNS comes back.
- An install writes the max-seen marker without comparing. A run never lowers the marker exactly when no install in it
  completes with a recorded version below the marker (`AntiDowngrade.RunLowersIff`). Runs that do are reached when a
  verified payload is not recorded (`AntiDowngrade.UnrecordedPayloadLowersMarker`) or an undone swap is not restored
  (`AntiDowngrade.UnrestoredSwapDowngrades`); from a consistent state, never otherwise (`AntiDowngrade.MarkerNeverDecreases`).
- A slot can be refused while no slot is held, because a failed attempt has not undone its count yet
  (`Admission.SpuriousRejection`).
- The client recovers everything the relay framed exactly when no packet is empty (`Framing.RelayToClientIff`); no packet
  the relay builds is (`ReversePath.PacketsFit`).
- The country of a relay depends on map iteration order exactly when neither its ID nor its domain decides and two
  matching legacy prefixes disagree (`Countries.OrderInvisibleIff`, and `Countries.OrderShowsWitness` for such a relay).
- A state notification is lost exactly when four newer ones overtake it unread (`StateChannel.LostIff`).

Where the code's own comments promise more (that no downgrade slips through after an install, that a successful
reconnection releases the kill switch, that the data of a first packet without SYN is forwarded), the model follows the
code.

## Model

| member | source | states |
|---|---|---|
| `Checksum.FoldStep` | relay/relay/nat_packet.go:199-204 | moving the high half of the accumulator onto the low half keeps its residue modulo 65535 |
| `Checksum.ComplementCompletes` | relay/relay/nat_packet.go:199-204 | a sum completed by the complement of its fold reads 0xffff, and still does when a zero complement is replaced by 0xffff |
| `Checksum.RawSumPut16` | relay/relay/nat_packet.go:145-149 | storing a word at an even offset moves the raw sum by exactly the difference between the new and the old word |
| `Checksum.ChecksumRaw` | relay/relay/nat_packet.go:188-197 | the loop sums the big-endian words, odd last byte padded, in a 32-bit accumulator that never overflows on up to 65535 bytes |
| `Checksum.OnesComplement` | relay/relay/nat_packet.go:199-204 | the folding loop ends and yields the complement of the one's-complement representative, on every 32-bit value |
| `Checksum.RawSumIsNumber` | relay/relay/nat_packet.go:188-197 | modulo 65535, the sum of words is the big-endian number the bytes write, with one zero byte appended when their count is odd |
| `Checksum.PseudoSumIsHeader` | relay/relay/nat_packet.go:175-186 | what is added for the pseudo-header is the word sum of both addresses, a zero byte, the protocol and the 16-bit length laid out as bytes |
| `Packet.ParseIPv4` | relay/relay/nat_packet.go:59-118 | on any bytes decoding stays in bounds, and an accepted packet has headerLen + L4 header <= payloadOffset <= totalLen <= length and the addresses at offsets 12 and 16; the PacketLayout theorems say what every field is |
| `PacketLayout.TCPPacketDecodes` | relay/relay/nat_packet.go:59-118 | a TCP packet laid out with any header fields, any IP options, any TCP options, any payload and any trailing bytes decodes to exactly those fields and that payload |
| `PacketLayout.UDPPacketDecodes` | relay/relay/nat_packet.go:59-118 | the same for a UDP packet after any IP options |
| `PacketLayout.AcceptedIff` | relay/relay/nat_packet.go:59-118 | a packet is accepted if and only if it is one of those two layouts |
| `PacketLayout.UnsupportedIff` | relay/relay/nat_packet.go:59-118 | a packet is refused as unsupported, rather than invalid, if and only if it says IPv6, or has a sound IPv4 header of another protocol |
| `Packet.HeaderSumHolds` | relay/relay/nat_packet.go:145-149 | once the header checksum is stored, the header words fold to 0xffff |
| `Packet.SegmentSumHolds` | relay/relay/nat_packet.go:151-173 | once the L4 checksum is stored, pseudo-header plus segment fold to 0xffff for TCP and UDP, odd lengths included, and a UDP checksum is never stored as zero |
| `Packet.RecalculatedHolds` | relay/relay/nat_packet.go:136-173 | whatever the packet held, recomputing makes both receiver checks succeed and touches nothing but the two checksum fields |
| `Packet.RecalculatedForgets` | relay/relay/nat_packet.go:136-173 | recomputing gives the same bytes for two packets that differ only in their checksum fields |
| `Packet.SourceRoundTrip` | relay/relay/nat_packet.go:121-126 | rewriting the source to anything and back yields the packet with fresh checksums, hence the packet itself byte for byte when its checksums were fresh |
| `Packet.DestRoundTrip` | relay/relay/nat_packet.go:129-134 | rewriting the destination to anything and back yields the packet with fresh checksums, hence the packet itself when they were fresh |
| `Packet.SourceRewrittenParses` | relay/relay/nat_packet.go:121-126 | the rewritten packet decodes to the old fields with the new source, both checksums verify, and options, payload and trailing bytes are unchanged |
| `Packet.DestRewrittenParses` | relay/relay/nat_packet.go:129-134 | the rewritten packet decodes to the old fields with the new destination, both checksums verify, and options, payload and trailing bytes are unchanged |
| `Packet.ParseBuiltTCP` | relay/relay/nat_packet.go:207-238 | decoding a built TCP packet gives back addresses, ports, both numbers, flags, window and payload, with valid checksums, up to 65535 bytes |
| `Packet.ParseBuiltUDP` | relay/relay/nat_packet.go:241-270 | decoding a built UDP packet gives back addresses, ports and payload, with valid checksums and a length field of 8 plus the payload |
| `Packet.BuiltTCPConstants` | relay/relay/nat_packet.go:207-238 | a built TCP packet has no options, type of service, identification or fragment bits, a time to live of 64 and no urgent pointer |
| `Packet.BuiltUDPConstants` | relay/relay/nat_packet.go:241-270 | the same for a built UDP packet |
| `PacketOps.RecalcIPv4Checksum` | relay/relay/nat_packet.go:145-149 | in place, the buffer becomes the one whose header sum verifies |
| `PacketOps.PseudoHeaderSum` | relay/relay/nat_packet.go:175-186 | the 32-bit pseudo-header sum of addresses, protocol and length, without overflow |
| `PacketOps.L4RawSum` | relay/relay/nat_packet.go:151-186 | pseudo-header plus segment added in 32 bits without overflow |
| `PacketOps.RecalcL4Checksum` | relay/relay/nat_packet.go:136-173 | in place, the buffer becomes the one whose segment sum verifies |
| `PacketOps.RewriteSource` | relay/relay/nat_packet.go:121-126 | the in-place rewrite leaves exactly the packet of Packet.SourceRewrittenParses and SourceRoundTrip |
| `PacketOps.RewriteDest` | relay/relay/nat_packet.go:129-134 | the in-place rewrite leaves exactly the packet of Packet.DestRewrittenParses and DestRoundTrip |
| `PacketOps.BuildTCPPacket` | relay/relay/nat_packet.go:207-238 | writing header fields into a zeroed buffer and checksumming in place gives the packet of Packet.ParseBuiltTCP |
| `PacketOps.BuildUDPPacket` | relay/relay/nat_packet.go:241-270 | building in place over a zeroed buffer gives the packet of Packet.ParseBuiltUDP |
| `TupleKey.KeyInjective` | relay/relay/nat_table.go:225-233 | two flows have the same key text only when session, both addresses, both ports and protocol are all equal, whatever characters the session contains |
| `TupleKey.DecimalInjective` | relay/relay/nat_table.go:225-233 | two numbers with the same decimal text are equal, whatever their lengths |
| `NatModel.RunKeeps` | relay/relay/nat_table.go:279-386 | after every run of translations, replies, sweeps, session closings and shutdown, each of the 50001 ports is either free once or bound to exactly one flow |
| `NatModel.PassKeeps` | relay/relay/nat_table.go:671-722 | whatever order the map is visited in, a pass removes the entries it is for and returns their ports on top of the free stack; SweepExact and SessionEndExact say which those are |
| `NatModel.SweepExact` | relay/relay/nat_table.go:701-711 | after a sweep an entry is bound if and only if it was and has been idle at most 300 s for TCP or 120 s for any other protocol; those kept are as they were |
| `NatModel.SessionEndExact` | relay/relay/nat_table.go:671-679 | the end of a session removes exactly the flows of that session; the others keep port and time |
| `NatModel.EvictKeeps` | relay/relay/nat_table.go:713-722 | evicting one entry gives its port back exactly once |
| `NatModel.BindKeeps` | relay/relay/nat_table.go:305-335 | binding the port on top of the stack to a new flow keeps ports distinct and accounted for |
| `NatModel.TouchKeeps` | relay/relay/nat_table.go:279-303 | refreshing an entry moves no port |
| `NatModel.TranslateKeeps` | relay/relay/nat_table.go:279-340 | every outcome of a translation, refused and failed ones included, keeps the port accounting |
| `NatModel.FreshTable` | relay/relay/nat_portpool.go:15-23 | a table over any arrangement of the whole range starts out consistent |
| `NatModel.PortsConserved` | relay/relay/nat_portpool.go:15-45 | free ports plus live entries number 50001, always |
| `NatModel.ExhaustedIff` | relay/relay/nat_table.go:305-314 | exhaustion is reported if and only if the flow is new, all 50001 ports are bound, and no entry is past its TTL at the time of the sweep |
| `NatModel.TranslateOutcome` | relay/relay/nat_table.go:279-340 | success if and only if not stopped and the flow is bound, or there is room (fewer than 50001 entries, or one idle too long) and the dial succeeds; which error comes when; on success the flow owns the port, seen now; no other entry changes, and one disappears only from a full table and only when idle too long |
| `NatModel.DialFailureHarmless` | relay/relay/nat_table.go:327-330 | a failed dial binds nothing and loses no port; without a sweep it changes nothing at all |
| `NatModel.RunKeepsPort` | relay/relay/nat_table.go:279-386 | a flow that stays bound keeps its port and remains its only owner |
| `NatModel.ReplyReachesClient` | relay/relay/nat_table.go:279-359 | after a flow was given port p, and while the entry lives, looking p up finds that flow and no other, whatever else happens |
| `NatModel.SeenLivesOn` | relay/relay/nat_table.go:279-359 | a flow seen at some moment lives through every run, of any operations but the end of its own session and shutdown, that sweeps no later than its idle limit after that |
| `NatModel.ReplyWithinLimit` | relay/relay/nat_table.go:279-359 | so for that long after a packet of the flow was translated it keeps its port, and a reply to the port finds this flow |
| `NatModel.ReplyKeepsAlive` | relay/relay/nat_table.go:344-359 | and likewise for that long after a reply to it |
| `NatModel.ShutdownEmpties` | relay/relay/nat_table.go:370-386 | shutdown leaves no entry and all 50001 ports free |
| `NatModel.ShutdownIsFinal` | relay/relay/nat_table.go:279-386 | after shutdown no run binds anything again |
| `PortPool.Pool.constructor` | relay/relay/nat_portpool.go:15-23 | for any random draws the shuffled stack holds each port of the range exactly once |
| `PortPool.SwapKeeps` | relay/relay/nat_portpool.go:15-23 | one shuffle swap neither loses nor repeats a port |
| `PortPool.Pool.Allocate` | relay/relay/nat_portpool.go:25-35 | pops the top of the stack and marks it in use, or reports exhaustion and changes nothing |
| `PortPool.Pool.Release` | relay/relay/nat_portpool.go:37-45 | pushes back a port in use; releasing any other port changes nothing |
| `NatTable.ReplyRoundTrip` | relay/relay/nat_table.go:279-359 | a translated packet decodes with the relay source; while the entry lives and through any run, a reply to that port belongs to the same session and, readdressed, decodes with the client address and port, verifies, and keeps its payload |
| `NatTable.LookupBound` | relay/relay/nat_table.go:279-303 | the text index finds a key exactly when the flow itself is bound: the text-keyed table is the table keyed by the six fields |
| `NatTable.FlowIdentifies` | relay/relay/nat_table.go:225-303 | two packets are of one flow if and only if session, both addresses, both ports and protocol agree |
| `NatTable.BlockedRanges` | relay/relay/connect_handler.go:265-278 | as 32-bit numbers, the refused IPv4 destinations are the all-zero and the all-one address and six blocks: 10/8, 127/8, 169.254/16, 172.16/12, 192.168/16 and 224/4 |
| `NatTable.ConsistentRemove` | relay/relay/nat_table.go:713-722 | removing one entry keeps both indexes, the ports in use and both counters in step |
| `NatTable.ConsistentAdd` | relay/relay/nat_table.go:314-335 | filing one entry keeps both indexes, the ports in use and both counters in step |
| `NatTable.Nat.constructor` | relay/relay/nat_table.go:182-203 | a new table is empty and consistent over a shuffled pool |
| `NatTable.Nat.EvictEntry` | relay/relay/nat_table.go:713-722 | the object refines the reference eviction and closes the entry's socket |
| `NatTable.Nat.SweepOnce` | relay/relay/nat_table.go:701-711 | in any visiting order: an entry stays if and only if it was idle at most 300 s for TCP, 120 s otherwise, with time and socket untouched; the sockets of the others are closed; and the object refines the reference sweep |
| `NatTable.Nat.CloseSessionEntries` | relay/relay/nat_table.go:671-679 | in any visiting order: an entry stays if and only if its session is another one, with time and socket untouched; the sockets of the others are closed; and the object refines the reference pass |
| `NatTable.Nat.Shutdown` | relay/relay/nat_table.go:370-386 | the object refines the reference shutdown: nothing is bound afterwards, and the socket of every entry is closed |
| `NatTable.Nat.TouchEntry` | relay/relay/nat_table.go:279-303 | the object refines the refresh of one entry |
| `NatTable.Nat.TakePort` | relay/relay/nat_table.go:305-314 | a port comes off the pool, after one sweep when it is empty; otherwise exhaustion, with the table consistent |
| `NatTable.Nat.BindNew` | relay/relay/nat_table.go:305-335 | the object refines the reference translation of a new flow, dial failure included |
| `NatTable.Nat.Translate` | relay/relay/nat_table.go:279-340 | in order: shutdown, malformed packet and a destination refused by isBlockedIP change nothing; else table and result are those of the reference, and the packet is rewritten exactly on success |
| `NatTable.Nat.Reverse` | relay/relay/nat_table.go:344-359 | a malformed packet or unknown port changes nothing; else the packet is readdressed to the flow that owns the port and its entry is refreshed |
| `NatTable.Nat.PortLookup` | relay/relay/nat_table.go:344-359 | the port index finds exactly the flow the reference table names as owner |
| `TcpSplice.SpliceIntegrity` | relay/relay/nat_table.go:401-626 | for every interleaving of client segments (in order, duplicated, reordered, refused) with reads, socket closings and FINs: bytes written are a prefix of the client stream, the expected number is that of the first unrecorded byte or follows the last FIN, data packets tile what was read with no gap or overlap, and every packet of every kind is numbered by the first destination byte not numbered, and acknowledges exactly what was recorded (or the FIN answered), when it took its numbers; for a pure ACK that is everything written |
| `TcpSplice.StepKeeps` | relay/relay/nat_table.go:401-626 | each atomic step of either goroutine, and a socket closed under them, keeps the splice invariant of both streams, numbers and packets sent |
| `TcpSplice.RunKeeps` | relay/relay/nat_table.go:401-626 | every interleaving keeps the splice invariant |
| `TcpSplice.OpenedInv` | relay/relay/nat_table.go:401-442 | the handshake answer establishes the splice invariant |
| `TcpSplice.ForwardKeepsForward` | relay/relay/nat_table.go:482-567 | the packet-handling goroutine keeps the client side of the invariant, between any two of its lock sections |
| `TcpSplice.ForwardKeepsReplies` | relay/relay/nat_table.go:482-567 | whatever the packet-handling goroutine does, the numbering of the destination bytes and the number of every packet stay right |
| `TcpSplice.BackwardKeepsBackward` | relay/relay/nat_table.go:583-626 | the reading goroutine numbers what it reads consecutively and sends it in order |
| `TcpSplice.BackwardKeepsForward` | relay/relay/nat_table.go:583-626 | the reading goroutine disturbs nothing on the client side |
| `TcpSplice.BackwardAcks` | relay/relay/nat_table.go:583-626 | every acknowledgement the reading goroutine takes, holds and sends is that of the bytes recorded, or the FIN answered, when it took it |
| `TcpSplice.ForwardAcks` | relay/relay/nat_table.go:482-567 | every acknowledgement the packet-handling goroutine sends is too, and a pure ACK covers everything written |
| `TcpSplice.ShortStreams` | relay/relay/nat_table.go:529-567 | streams shorter than 2^32 bytes need no assumption about late segments |
| `TcpSplice.SeqOfInjective` | relay/relay/nat_table.go:544-548 | within one turn of the sequence space a number names one byte of the stream |
| `TcpSplice.DeliverWrites` | relay/relay/nat_table.go:529-567 | any segment is written and acknowledged when its number is the expected one, and changes nothing otherwise |
| `TcpSplice.InOrderDelivers` | relay/relay/nat_table.go:529-567 | in-order segments of any sizes with successful writes deliver all their bytes, each acknowledged once in order and the last covering everything, however the steps of the reading goroutine fall in between while the destination has not ended |
| `TcpSplice.InterleavingInvisible` | relay/relay/nat_table.go:482-626 | until the destination ends, the reading goroutine cannot change what the packet-handling one writes, expects or acknowledges |
| `TcpSplice.PrefixIffShort` | relay/relay/nat_table.go:529-567 | whatever segments of the stream arrive early, late or repeatedly, what is written is a prefix of the stream in every run if and only if the stream is shorter than 2^32 bytes |
| `TcpSplice.LateByteIsWritten` | relay/relay/nat_table.go:544-548 | for every stream of 2^32 bytes or more, a run of its own segments that writes one byte too many |
| `TcpSplice.DataAckExactIff` | relay/relay/nat_table.go:589-603 | a data packet takes its numbers, any steps of the packet handler follow, and it is sent: it acknowledges the bytes recorded when it took them, and those are everything written when it is sent if and only if no write was waiting to be recorded then and none was done in between |
| `TcpSplice.FinAckExactIff` | relay/relay/nat_table.go:605-620 | the same condition, for the FIN sent when the destination ends, under any steps of the packet handler in between |
| `TcpSplice.StaleAckWitness` | relay/relay/nat_table.go:589-603 | a run in which a data packet is sent with the acknowledgement from before a byte that was since written, recorded and acknowledged |
| `TcpSplice.FirstDataDropped` | relay/relay/nat_table.go:417-430 | the payload of the packet that opened the connection is always dropped, because the number after its own is expected whether or not it was a SYN, whatever the reading goroutine has done since the dial |
| `TcpSplice.RepliesIntact` | relay/relay/nat_table.go:583-626 | whatever the client sends, with no assumption on its segments, what was read is numbered consecutively and carried by the data packets in order, and every packet, pure ACKs and FIN-ACKs included, is numbered by the first byte not numbered when it took its number |
| `TcpSplice.FinIsAcked` | relay/relay/nat_table.go:503-519 | in any open state a FIN closes the connection, is answered with its own number plus one, and writes nothing, whatever it carries |
| `TcpSplice.FinTruthfulIff` | relay/relay/nat_table.go:503-519 | for a final segment at any offset with any number of bytes and the FIN: the whole stream is written and the answer acknowledges all of it and the FIN, if and only if the segment carries no bytes and has the expected number |
| `TcpSplice.FinAckNumberReusedIff` | relay/relay/nat_table.go:503-519 | the FIN-ACK takes the number of the next destination byte, and a data packet with that same number is sent or about to be if and only if something is numbered after the FIN arrived |
| `TcpEntry.Entry.OpenTCP` | relay/relay/nat_table.go:401-442 | after the dial both next numbers follow their SYN, the state is established, nothing was written or read, and exactly one SYN-ACK was sent, acknowledging the SYN; this is the initial state of the splice |
| `TcpEntry.Entry.ForwardTCPData` | relay/relay/nat_table.go:529-567 | written, recorded and acknowledged by exactly one pure ACK if and only if the segment has bytes and the expected number, the socket is open and the write succeeds; otherwise nothing changes; and this is a run of splice steps |
| `TcpEntry.Entry.HandleTCPPacket` | relay/relay/nat_table.go:482-527 | on the fields: a closed entry ignores everything; else a RST closes without sending or writing anything; else a FIN sends exactly one FIN-ACK of its number plus one, then closes, and writes nothing; else bytes with the expected number, an open socket and a successful write are written and acknowledged once; else nothing changes. Each is also a run of splice steps |
| `TcpEntry.Entry.ForwardNew` | relay/relay/nat_table.go:460-471 | the packet that opened the connection changes nothing more, whatever it carries and whatever the reading goroutine has done since the dial |
| `TcpEntry.Entry.CloseEvicted` | relay/relay/nat_table.go:713-722 | eviction or shutdown closes the socket and changes nothing else; it is one splice step |
| `TcpEntry.Entry.AnswerFin` | relay/relay/nat_table.go:503-519 | on the fields: exactly one FIN-ACK acknowledging the FIN, then closed, in FIN_WAIT, nothing written; and this is a run of the FIN steps |
| `TcpEntry.Entry.CloseOnRst` | relay/relay/nat_table.go:491-501 | on the fields: closed, nothing sent, written or renumbered; and this is a run of the RST steps |
| `TcpEntry.Entry.IgnoredWhenClosed` | relay/relay/nat_table.go:482-492 | a closed entry is unchanged by any client packet |
| `TcpEntry.Entry.TCPReverseLoop` | relay/relay/nat_table.go:583-626 | over any results of reads, what is added to the bytes read, and to the data sent, is what the reads gave up to and with the first failing one; then the entry is closed and, unless it was, its last packet is a FIN with both current numbers; and this is a run of splice steps |
| `TcpEntry.Entry.ReadTurn` | relay/relay/nat_table.go:583-626 | one iteration: bytes are sent on as one data packet with the current number, even when an error came with them |
| `TcpEntry.Entry.EndReading` | relay/relay/nat_table.go:604-624 | at the end of the stream: closed, and exactly one FIN sent unless it was closed before |
| `Framing.ClientToRelay` | internal/tunnel/pump.go:249-280 | the relay receives exactly the packets of 1 to 1420 bytes, in order |
| `Framing.RoundTrip` | relay/relay/tunnel_handler.go:243-267 | decoding the stream of non-empty packets gives back exactly those that fit, in order |
| `Framing.FiltersExact` | internal/tunnel/pump.go:249-280 | the packets that go through are, with multiplicity, those of 1 to 1420 bytes |
| `Framing.HeaderMeans` | relay/relay/tunnel_handler.go:204-225 | a frame is the length in big-endian order and the packet; a length of 0 or over 1420 stops the decoder as a bad size |
| `Framing.CutFrameStops` | relay/relay/tunnel_handler.go:204-225 | a frame cut at any point yields nothing, and the decoder tells a cut header from a cut payload |
| `Framing.RelayToClientIff` | relay/relay/tunnel_handler.go:243-267 | the client recovers all framed packets if and only if none is empty |
| `Framing.TruncatedDecodesToPrefix` | relay/relay/tunnel_handler.go:204-225 | cut anywhere, a stream decodes to a prefix of its packets |
| `Framing.DecodedNonEmpty` | relay/relay/tunnel_handler.go:204-225 | no decoder ever hands over an empty packet, on any bytes |
| `Framing.PumpOutbound` | internal/tunnel/pump.go:249-280 | despite the reused buffer the output is the stream of the packets taken, up to the first failed write, counted exactly, and the relay decodes from it exactly those of 1 to 1420 bytes |
| `Framing.FillFrame` | internal/tunnel/pump.go:266-270 | the front of the reused buffer becomes the whole frame, whatever it held |
| `Framing.ReadFrames` | relay/relay/tunnel_handler.go:204-235 | on any bytes the loop over reused buffers hands over what the reference decoder gives and stops for the same reason |
| `Framing.WriteFrames` | relay/relay/tunnel_handler.go:240-302 | header then body for each packet that fits, up to the first failed write; whatever fails, the client decodes a prefix of the packets that fit |
| `ReversePath.PacketsFit` | relay/relay/nat_table.go:36-42 | every TCP packet the read loop builds fits one frame, so none is dropped for its size |
| `ReversePath.UdpPacketFits` | relay/relay/nat_table.go:628-647 | a UDP packet with a full read buffer fits one frame and comes out of it with its payload |
| `ReversePath.PacketMeans` | relay/relay/nat_table.go:401-626 | the client decodes from each packet the swapped addresses and ports, both numbers, and the flags of its kind: SYN only on the handshake, FIN only on the two FIN kinds, PSH only on data, never RST |
| `ReversePath.FlagsMean` | relay/relay/nat_table.go:401-626 | the flag bytes of the five packet kinds |
| `ReversePath.ReassemblePackets` | relay/relay/nat_table.go:583-626 | the payloads extracted from the built packets, in order, are the data bytes sent |
| `ReversePath.ClientReassembles` | relay/relay/nat_table.go:583-626 | end to end, for every interleaving and whatever the client sends: the frames decode to exactly the packets built; a client that takes packets in order by their numbers gets the bytes read from the destination up to the first FIN in order, and all of them but those in flight if and only if no data follows such a FIN |
| `ReversePath.ClientGets` | relay/relay/nat_table.go:583-626 | such a client, after any of the packets, has got exactly the data sent before the first FIN in order and expects the number after it |
| `ForwardPath.DestinationReceives` | relay/relay/nat_table.go:529-567 | end to end the other way: a stream cut into data packets, framed by the client, decoded, parsed and readdressed by the relay, handled on a connection ready for it with successful writes, reaches the destination in full and in order, however the reading goroutine interleaves while it still reads |
| `ForwardPath.DataIsDelivered` | relay/relay/nat_packet.go:51-126 | building, parsing and rewriting the source of a data packet leave its number and payload to the splice |
| `ForwardPath.DataPacketsFit` | internal/tunnel/pump.go:249-280 | every data packet of up to 1380 bytes fits one frame |
| `Bandwidth.LimiterIsIdealIff` | relay/relay/bandwidth_limiter.go:85-276 | over every run with a clock that never goes back, the lazily reset, evicting limiter gives the answers of one that stores all traffic forever and sums it per UTC day and hour, if and only if the daily quota is positive |
| `Bandwidth.RunAgrees` | relay/relay/bandwidth_limiter.go:85-276 | the answers agree from any state in agreement |
| `Bandwidth.AddAgrees` | relay/relay/bandwidth_limiter.go:85-120 | after adding, both counters are the ideal totals of the current day and hour |
| `Bandwidth.CanOpenAgrees` | relay/relay/bandwidth_limiter.go:125-144 | the daily counter read is the ideal total of the day, an unknown key having none |
| `Bandwidth.CleanupAgrees` | relay/relay/bandwidth_limiter.go:261-276 | a cleanup pass cannot be observed |
| `Bandwidth.EvictedIsQuiet` | relay/relay/bandwidth_limiter.go:261-276 | a key idle for over 24 hours has no traffic in the current day or hour |
| `Bandwidth.TwoPassesEvict` | relay/relay/bandwidth_limiter.go:261-276 | a key silent for over 24 hours is gone after two passes, and one used since the first pass survives the second for 24 hours |
| `Bandwidth.RolledMirrors` | relay/relay/bandwidth_limiter.go:93-117 | rolling a counter leaves it the ideal total of the window of the access |
| `Bandwidth.TotalAppend` | relay/relay/bandwidth_limiter.go:118-119 | an event counts for its own key and window and no other |
| `Bandwidth.WindowHolds` | relay/relay/bandwidth_limiter.go:72-80 | windows are whole days of 86400 and hours of 3600 seconds of Unix time |
| `Subnet.SameBucketIff` | relay/relay/bandwidth_limiter.go:225-244 | two parsed addresses share a bucket if and only if they are of one family and in one /24 or /64 |
| `Subnet.CleanCuts` | relay/relay/bandwidth_limiter.go:225-236 | a zone, brackets with whatever follows them, and surrounding space are cut off an address text |
| `Subnet.KeyText` | relay/relay/bandwidth_limiter.go:237-243 | the key of an IPv4 client is its first three numbers, a zero and /24 |
| `Subnet.SubnetPrefix` | relay/relay/bandwidth_limiter.go:225-244 | a subnet key is empty or contains a slash |
| `Subnet.DottedInjective` | relay/relay/bandwidth_limiter.go:225-244 | two IPv4 addresses with the same dotted text are equal |
| `BandwidthLimiter.Limiter.AddBytesScaled` | relay/relay/bandwidth_limiter.go:85-120 | table and answer are those of the step function (scale 1 is addBytes), whichever branch creates or resets the entry |
| `BandwidthLimiter.Limiter.CanOpen` | relay/relay/bandwidth_limiter.go:125-144 | table and answer are those of the step function |
| `BandwidthLimiter.TunnelOpensIff` | relay/relay/bandwidth_limiter.go:125-144 | after any run of traffic and cleanups, with a positive daily quota, a tunnel may be opened if and only if the ideal total of the day is below it |
| `BandwidthLimiter.Limiter.CleanupPass` | relay/relay/bandwidth_limiter.go:261-276 | in any order of keys: a key seen in the last 24 hours is left as it is, an idle one is marked, and an idle one already marked is removed |
| `BandwidthLimiter.Limiter.AccountAndThrottle` | relay/relay/bandwidth_limiter.go:155-185 | client bucket, first-crossing flag, then subnet bucket; throttles if and only if afterwards a stored day or hour counter of the client is at or over its quota, or one of its subnet is at or over four times that |
| `BandwidthLimiter.ThrottledIff` | relay/relay/bandwidth_limiter.go:155-185 | after any run of traffic and cleanups, accounting throttles if and only if, with it counted, the ideal total of the client over the day or hour reaches its quota, or that of its subnet reaches four times it |
| `BandwidthLimiter.StoredBucketIsSum` | relay/relay/bandwidth_limiter.go:155-276 | after any traffic of parseable addresses and any cleanups, a stored subnet bucket reads, for its day and its hour, the sum over the subnet's clients of all they ever used then |
| `BandwidthLimiter.SubnetConservation` | relay/relay/bandwidth_limiter.go:155-244 | in every day and hour a subnet bucket totals what its clients total, if and only if nothing in that window came from a client whose address text is the key itself, which cannot happen when all addresses parse |
| `BandwidthLimiter.BucketIsSum` | relay/relay/bandwidth_limiter.go:155-219 | whatever the address texts, a subnet bucket is exactly the sum of its clients plus what such texts used |
| `BandwidthLimiter.NoSharedKey` | relay/relay/bandwidth_limiter.go:155-244 | an address that parses never reads like a subnet key, so the two kinds of bucket never share one |
| `BandwidthLimiter.PrefixesAreOpaque` | relay/relay/bandwidth_limiter.go:225-244 | the real subnet prefixes meet what conservation needs: a subnet key has itself no subnet |
| `Subnet.PrefixHasNoPrefix` | relay/relay/bandwidth_limiter.go:225-244 | a subnet key, cleaned and parsed like an address, is refused |
| `BandwidthLimiter.SlashedAddressCollides` | relay/relay/bandwidth_limiter.go:155-244 | a caller that passes a client's subnet key as an address counts in the subnet's own bucket |
| `BandwidthLimiter.PlayedAgrees` | relay/relay/bandwidth_limiter.go:155-276 | every run of accounted traffic and cleanups stays in agreement with the full log |
| `BandwidthLimiter.MetricCountsFirstCrossings` | relay/relay/bandwidth_limiter.go:155-166 | after any run of traffic and cleanups, accounting a client moves the throttle metric if and only if its ideal total of the hour is below the quota before and reaches it now |
| `BandwidthLimiter.PlayedFlags` | relay/relay/bandwidth_limiter.go:104-166 | over every run, the flag of every client address is set exactly while its hourly counter is at or over the quota |
| `LazyReset.ExactAtTheEnd` | relay/relay/bandwidth_limiter.go:93-119 | for any number of threads and any schedule of single atomic operations, the counter ends as what it held for the window plus every thread's bytes |
| `LazyReset.ExactOncePublished` | relay/relay/bandwidth_limiter.go:93-119 | it is exact at every moment after the new stamp is published |
| `LazyReset.StepKeeps` | relay/relay/bandwidth_limiter.go:93-119 | each load, store, add, lock or unlock keeps the counter zeroed once and before the stamp |
| `LazyReset.StepKeepsLock` | relay/relay/bandwidth_limiter.go:94-103 | the mutex is held by exactly the thread inside the critical section |
| `LazyReset.SomeThreadMoves` | relay/relay/bandwidth_limiter.go:93-119 | until all are done some thread can move |
| `Admission.AdmissionSafe` | relay/relay/limiter.go:27-41 | for any number of clients and any interleaving of add, compare and undo: holders never exceed the maximum, the counter is holders plus pending undos, never negative, and zero once everyone left |
| `Admission.SafeFromStart` | relay/relay/limiter.go:21-41 | from a fresh counter, holders never exceed the maximum, the counter is holders plus pending undos, and it is zero once everyone left |
| `Admission.StepKeeps` | relay/relay/limiter.go:27-41 | each atomic operation keeps the counter equal to holders plus pending undos and holders within the maximum |
| `Admission.AcquireIff` | relay/relay/limiter.go:27-34 | acquire succeeds if and only if holders and pending undos together leave room |
| `Admission.SpuriousRejection` | relay/relay/limiter.go:27-34 | a run in which a client is refused with no slot held |
| `Admission.Limiter.Acquire` | relay/relay/limiter.go:27-34 | uninterrupted, takes a slot exactly when the counter is below the maximum |
| `Admission.Limiter.Release` | relay/relay/limiter.go:37-41 | a release without a matching acquire is absorbed at zero |
| `StateChannel.RunKeeps` | internal/tunnel/state.go:47-65 | the channel always holds the latest notifications in order and the receiver only older ones in order |
| `StateChannel.NotOvertaken` | internal/tunnel/state.go:47-65 | a notification followed by at most three others is received or still queued, whatever the receiver does |
| `StateChannel.LostIff` | internal/tunnel/state.go:47-65 | for every run of notifications and receives, a notification is lost if and only if at some moment four newer ones have overtaken it unread |
| `StateChannel.StateManager.Set` | internal/tunnel/state.go:47-65 | never blocks: the oldest notification makes room, and after closing only the current state changes |
| `StateChannel.StateManager.Close` | internal/tunnel/state.go:81-89 | closing twice is harmless and loses no queued notification |
| `Reconnect.RunSafe` | internal/tunnel/reconnect.go:151-345 | over every run and every failure: active implies the proxy is stopped, no connect or failover attempt happens with the proxy running even when activation failed, and the proxy is started only right after a success |
| `Reconnect.DisconnectReacts` | internal/tunnel/reconnect.go:165-211 | wherever a run stands, a disconnect tears the tunnel down and, unless cancelled before, makes an attempt after 100 ms, exactly when the breaker has not tripped, and always after a Reset; any other state changes nothing |
| `Reconnect.RunTears` | internal/tunnel/reconnect.go:165-180 | from an untripped reconnector a run tears the tunnel down if some input is a disconnect, and otherwise changes nothing at all |
| `Reconnect.CycleKeeps` | internal/tunnel/reconnect.go:219-297 | one disconnect handled, cancelled at any point, keeps the safety of the whole history and of the switch |
| `Reconnect.ArmedStopsProxy` | internal/tunnel/reconnect.go:241-250 | after the activation calls the proxy is stopped whatever they returned, and the switch is active exactly when it was or one of them succeeded |
| `Reconnect.AttemptsEnd` | internal/tunnel/reconnect.go:252-297 | every connect loop has exactly one ending among cancelled, reconnected, failed over and given up, and which one is told by the outcomes alone: at most five connects at growing backoffs, one failover at most and only right after the third failure, and the breaker only after the fifth |
| `Reconnect.BreakerHistory` | internal/tunnel/reconnect.go:219-297 | the complete history of a disconnect after which nothing works: tear-down, proxy stopped, attempts after 100, 200 and 400 ms, one failover if there is one, attempts after 800 and 1600 ms, and the breaker, the switch still active |
| `Reconnect.FailoverHistory` | internal/tunnel/reconnect.go:219-297 | the complete history of a disconnect that the failover ends, with the proxy running again |
| `Reconnect.BackoffBounds` | internal/tunnel/reconnect.go:339-345 | every backoff is between 100 ms and 30 s and never shrinks within a cycle |
| `Reconnect.TrippedIsFinal` | internal/tunnel/reconnect.go:173-180 | after the breaker trips nothing at all happens until Reset |
| `Reconnect.ReleasedKeeps` | internal/tunnel/reconnect.go:326-335 | the release with its one retry starts the proxy exactly when the switch was active and one start succeeded, and then the switch is off |
| `Reconnect.DnsRestoredIff` | internal/tunnel/reconnect.go:219-335 | after an uncancelled activation, DNS is back at the end of the cycle if and only if it succeeded, some activation had taken effect, and one of the two starts succeeded |
| `Reconnect.DnsLostWitness` | internal/tunnel/reconnect.go:219-335 | a run that reconnects, leaves the switch off, and leaves DNS stopped |
| `Reconnect.KillSwitch.Activate` | linux/internal/dns/kill_switch.go:59-86 | refused and unchanged when active; otherwise stops the proxy first and is active only if the resolver call succeeds |
| `Reconnect.KillSwitch.Deactivate` | linux/internal/dns/kill_switch.go:93-107 | refused and unchanged when inactive; otherwise released only if the proxy restarts |
| `Reconnect.Reconnector.ArmKillSwitch` | internal/tunnel/reconnect.go:227-250 | tear-down, activation and its one retry, or cancellation in the wait between them |
| `Reconnect.Reconnector.ConnectLoop` | internal/tunnel/reconnect.go:252-297 | the loop is the recursive attempt function the theorems are about |
| `Reconnect.Reconnector.HandleDisconnect` | internal/tunnel/reconnect.go:219-297 | the method tears the tunnel down and, unless cancelled before, makes an attempt after 100 ms; it performs exactly one cycle |
| `Reconnect.Reconnector.Start` | internal/tunnel/reconnect.go:151-183 | unless tripped, the listening loop tears the tunnel down if an input is a disconnect, and otherwise changes nothing; it performs exactly the run of its inputs, of which DisconnectReacts says when each has an effect |
| `Reconnect.Reconnector.DeactivateKillSwitch` | internal/tunnel/reconnect.go:326-335 | release with one retry, unless cancelled between |
| `Countries.CodeIsKnown` | internal/registry/countries.go:37-72 | an extracted code is empty or one of the known countries |
| `Countries.IDNamesCountry` | internal/registry/countries.go:37-47 | an ID names a known country if and only if it starts with relay-, the code and a dash |
| `Countries.DomainNamesCountry` | internal/registry/countries.go:48-62 | a domain names a known country if and only if it starts with the code and a dot, or with the code and a dash and has a dot |
| `Countries.IDThenDomain` | internal/registry/countries.go:37-72 | an ID that names a country decides, whatever the domain; otherwise a domain that does, whatever the legacy prefixes |
| `Countries.OrderInvisibleIff` | internal/registry/countries.go:37-72 | the country does not depend on map iteration order if and only if ID or domain decides or all matching legacy prefixes agree |
| `Countries.OrderShowsWitness` | internal/registry/countries.go:27-33 | over the real prefix table, one relay has two countries in two iteration orders |
| `Countries.LegacyOrderInvisibleIff` | internal/registry/countries.go:64-69 | the legacy lookup does not depend on iteration order if and only if all matching prefixes agree, for any prefix table |
| `Countries.GroupPartitions` | internal/registry/countries.go:77-104 | a relay occurs in the pool of its own country as often as in the list, and in no other pool |
| `Countries.GroupKeepsOrder` | internal/registry/countries.go:77-104 | a pool is the list at increasing positions |
| `Countries.RelaysByCountry` | internal/registry/countries.go:77-104 | one pass builds exactly the non-empty pools |
| `Countries.RankingIsPermutation` | internal/registry/discoverer.go:182-227 | cached ranking loses and invents no relay; known latencies come first, ascending |
| `Countries.SortByLatencyCache` | internal/registry/discoverer.go:182-227 | the partition loop and the sort give such a ranking, relays without latency keeping their order; with nothing cached the list is unchanged |
| `AlternateCountries.MedianHalves` | internal/registry/failover.go:222-241 | at most half of the measured latencies are below the median and at most half above |
| `AlternateCountries.MedianOfAscending` | internal/registry/failover.go:222-241 | of numbers in ascending order the median is the middle one, or the mean of the two middle ones rounded down |
| `AlternateCountries.MedianLatency` | internal/registry/failover.go:222-241 | the median of the positive measurements of a pool; none exactly when there is no such measurement |
| `AlternateCountries.SortedAlternateCountries` | internal/registry/failover.go:183-217 | every other country with relays once, the unknown bucket excluded, medians first and ascending, then by code, whatever the iteration order |
| `AlternateCountries.OrderMeans` | internal/registry/failover.go:183-217 | every country of a listed relay but the current one and the unknown bucket, once; those with a median first, ascending; the others by code |
| `AlternateCountries.BeforeIsStrictWeak` | internal/registry/failover.go:200-208 | the comparison given to the sort is a strict weak order |
| `Selector.DrawnRotates` | internal/registry/selector.go:25-42 | while the pool of a country keeps its ordered IDs its picks rotate strictly, whatever other countries draw in between |
| `Selector.PicksArePermutation` | internal/registry/selector.go:25-42 | while the pool of a country keeps its n ordered IDs, any n consecutive picks of it hit every relay exactly once, whatever other countries draw in between |
| `Selector.PickCountsDifferByAtMostOne` | internal/registry/selector.go:25-42 | while the pool keeps its ordered IDs, pick counts since the last reset differ by at most one, whatever other countries draw in between |
| `Selector.CountrySelector.Pick` | internal/registry/selector.go:25-42 | returns the relay at the cursor, always in range, and advances it; a changed pool restarts it |
| `Selector.CountrySelector.SameIDs` | internal/registry/selector.go:44-54 | true exactly when the lists are equal, order included |
| `Failover.FailoverExact` | internal/registry/failover.go:75-177 | failover succeeds if and only if some candidate works; it takes the first that does; when none does every eligible relay was offered exactly as often as it is listed |
| `Failover.OfferMeans` | internal/registry/failover.go:154-177 | everything before the relay taken was offered and failed, nothing after it was offered, and target, current relay and result agree |
| `Failover.CandidatesExact` | internal/registry/failover.go:75-217 | every eligible relay is a candidate as often as it is listed, and nothing else is |
| `Failover.OwnCountryFirst` | internal/registry/failover.go:75-135 | candidates of the current country all come before the others |
| `Failover.StartsAtHome` | internal/registry/failover.go:86-104 | failover starts from the country of the first listed entry of the current relay, and from the preference only when that names none |
| `Failover.OffersHomeFirst` | internal/registry/failover.go:75-135 | in a whole failover call no relay of another country is offered before every other relay of the starting one |
| `Failover.TakenIsTarget` | internal/registry/failover.go:154-177 | on success the tunnel points at domain and public key of the relay offered last, a listed one other than the current, which becomes the current |
| `Failover.NoneWorked` | internal/registry/failover.go:75-144 | when none works every listed relay of a known country was offered, but for the current one |
| `Failover.Manager.TryPool` | internal/registry/failover.go:154-177 | offers the pool in order skipping the current relay, and reports the first that updates and connects |
| `Failover.Manager.HandleFailover` | internal/registry/failover.go:75-144 | on success target, current relay and result are those of one listed relay, cross-country exactly for relays of another country; the relays of the listed current country come first, whatever is preferred; on failure everyone was tried, the current relay is unchanged and a listed original is targeted again, domain and key, when its update succeeds |
| `Stun.MappedAddressComesBack` | internal/leakcheck/xor_mapped.go:27-110 | for any header, other attributes before, any after and trailing bytes, the walker returns the address the first XOR-MAPPED-ADDRESS encodes, IPv4 or IPv6 |
| `Stun.ParseEncoded` | internal/leakcheck/xor_mapped.go:27-67 | any padded attribute list filling the declared length decodes to the outcome of its first XOR-MAPPED-ADDRESS |
| `Stun.CutResponse` | internal/leakcheck/xor_mapped.go:36-44 | a response that declares more than was received decodes to what its whole attributes call for |
| `Stun.AddressRoundTrip` | internal/leakcheck/xor_mapped.go:70-110 | decoding an encoded address is the identity in both families |
| `Stun.XorTwice` | internal/leakcheck/xor_mapped.go:93-106 | masking twice with the same key restores the bytes |
| `Stun.XorBitwise` | internal/leakcheck/xor_mapped.go:93-106 | each bit of a masked byte is set if and only if exactly one of the two bits is |
| `Stun.XorZero` | internal/leakcheck/xor_mapped.go:93-106 | masking with zero changes nothing, and masking a byte with itself gives zero |
| `Stun.KnownResponseV4` | internal/leakcheck/xor_mapped.go:27-110 | a response written out in bytes, with any transaction ID, decodes to 192.0.2.1 |
| `Stun.KnownValueV6` | internal/leakcheck/xor_mapped.go:93-110 | the all-zero IPv6 address is sent as the cookie 21 12 a4 42 followed by the transaction ID |
| `Stun.WalkAll` | internal/leakcheck/xor_mapped.go:27-67 | the walk visits the attributes one by one over their padding |
| `Stun.ParseXORMappedAddress` | internal/leakcheck/xor_mapped.go:27-67 | on any bytes the loop ends, stays in bounds and gives the outcome of the recursive walk |
| `Stun.DecodeXORMappedAddress` | internal/leakcheck/xor_mapped.go:70-110 | exactly the short values and the unknown families are errors, each its own; otherwise an unmasked address of 4 or 16 bytes |
| `Versions.TotalPreorder` | internal/updater/checker.go:155-205 | the comparison is antisymmetric in sign, transitive, and ties exactly the strings that parse alike |
| `Versions.NumbersDecide` | internal/updater/checker.go:190-205 | a version is lower if and only if its major number is, or with that equal its minor, or with both equal its patch, or with all equal it is a pre-release of the other or its pre-release text is smaller |
| `Versions.WrittenParses` | internal/updater/checker.go:155-187 | any version written as three decimal numbers and an optional pre-release, which may be any text, parses back to itself, with or without a leading v |
| `Versions.NumericNotTextual` | internal/updater/checker.go:155-205 | 1.9.0 is below 1.10.0 |
| `Text.LessMeans` | internal/updater/checker.go:190-205 | a text is smaller if and only if at the first difference it ends or has the smaller character |
| `Versions.PrereleaseBelowRelease` | internal/updater/checker.go:190-205 | a pre-release is below its release |
| `Versions.MalformedIsZero` | internal/updater/checker.go:155-205 | a version with any malformed number reads as zero, ties with 0.0.0, and is below every version with a positive major number |
| `Versions.LeadingV` | internal/updater/checker.go:155-160 | a leading v makes no difference |
| `Versions.ParseVersion` | internal/updater/checker.go:156-187 | the loop fills the three numbers and gives up on the first malformed one, as the recursive parse |
| `AntiDowngrade.MarkerNeverDecreases` | internal/updater/updater.go:194-372 | over every run in which verified payloads are recorded and undone swaps restored, the max-seen marker never decreases, is never erased, and a staged version is never below it |
| `AntiDowngrade.StepKeeps` | internal/updater/installer.go:167-259 | each seed, check, install, rollback, cleanup or boot keeps the staged version at or above marker and running version and never lowers the marker, and no install replaces the executable by an older one |
| `AntiDowngrade.StagedPassesGates` | internal/updater/updater.go:280-372 | a cycle stages exactly when every gate passes and fetch, verification and recording succeed; then the release is newer than the process, not below the marker, and not the version marked failed |
| `AntiDowngrade.LowersIff` | internal/updater/installer.go:228-240 | a step of any kind lowers the marker if and only if it is an install that completes, writes it, and has a recorded version below it |
| `AntiDowngrade.RunLowersIff` | internal/updater/installer.go:228-240 | over every run, faithful or not, the marker is never lowered if and only if no step is such an install |
| `AntiDowngrade.InstallsNeverDowngrade` | internal/updater/installer.go:167-243 | in a run in which verified payloads are recorded and undone swaps restored, no install replaces the executable by an older one |
| `AntiDowngrade.UnrecordedPayloadLowersMarker` | internal/updater/installer.go:167-243 | a run with an unrecorded payload that lowers the marker |
| `AntiDowngrade.UnrestoredSwapDowngrades` | internal/updater/installer.go:192-226 | a run with an unrestored swap in which a later install lowers both the executable and the marker |
| `AntiDowngrade.MarkerStays` | internal/updater/updater.go:194-210 | no step erases the marker |
| `AntiDowngrade.FreshInstallHolds` | internal/updater/updater.go:194-210 | a fresh install starts out consistent |
| `AntiDowngrade.Updater.SeedMaxSeenVersion` | internal/updater/updater.go:194-210 | the marker becomes the running version if and only if that is a release, the marker is readable, absent or lower, and the write succeeds; nothing else changes |
| `AntiDowngrade.Updater.CheckAndDownload` | internal/updater/updater.go:280-372 | each verdict has its exact condition: up to date, downgrade, failed version, staged; a refused release changes nothing, a staged one is recorded with its payload and clears the failed version, and no outcome touches executable, backup, process version or marker |
| `AntiDowngrade.Updater.InstallStaged` | internal/updater/installer.go:167-243 | on success executable, backup, process version and, if writable, the marker are those of the staged pair; on failure process version, marker and staged pair are kept, and so is the executable unless the restore failed; the failed version never changes |
| `AntiDowngrade.Updater.RollbackInstall` | internal/updater/installer.go:246-259 | with a backup that can be renamed, the executable is the backup and the running version is marked failed; otherwise nothing changes |

## Left out

- Sockets, QUIC, TLS, HTTP, migration, sessions and channels (`OpenSession`): a connection is two byte streams and success or failure chosen by the environment; a write is all or error, and a writer that failed keeps failing.
- Ed25519, SHA-256, base64, JSON and TOML: verification of an update is one outcome chosen by the environment.
- DNS interception in the NAT, the DoH paths, UDP forwarding contents, and the RST a client gets when the dial for its SYN fails.
- Sleeping and real time: a clock reading is a parameter, one per operation, never before 1970 for the limiter.
- Overflow of the 64-bit byte counters and of the slot counter.
- Races of eviction or cleanup with other operations: those are operation-sized steps. Only the splice, the lazy reset and the slot counter are modelled one atomic step at a time.
- TcpSplice.SpliceIntegrity: assumes each segment is one of the stream and arrives within 2^32 bytes of the write position, because the prefix claim is false otherwise (TcpSplice.PrefixIffShort); TcpSplice.RepliesIntact needs no assumption.
- ReversePath.ClientReassembles: the client is one that drops packets out of order; a stack that keeps them for later is not modelled.
- NatTable.Nat.Translate: the TCP side of an entry is the separate class TcpEntry.Entry; that the table hands it each packet is not modelled.
- TcpSplice.InOrderDelivers: the destination has not ended; once it has, the connection is closed and later segments are refused.
- Packet.ParseBuiltTCP: requires at most 65535 bytes in all, because a longer packet does not fit the 16-bit length; the relay's buffers keep every caller far below that.
- BandwidthLimiter.StoredBucketIsSum: assumes every client address parses; BandwidthLimiter.BucketIsSum says what is added otherwise.
- BandwidthLimiter.Limiter.AddBytesScaled: an entry is a value in a map, so two goroutines sharing one entry are not captured; LazyReset covers them.
- Subnet.SameBucketIff: the address parser and the IPv6 formatter of Go are any pair of functions, the formatter injective.
- Subnet.PrefixHasNoPrefix: assumes that this parser refuses a slash and that this formatter uses no space, bracket or percent sign.
- isBlockedIP is a predicate on four bytes here; the IPv6 forms it also covers never reach the table.
- LazyReset.ExactAtTheEnd: all threads are in the same day (for the hourly counter, hour), and cleanup is not running.
- Framing.ReadFrames: the consumer of a packet never fails; on the client a failed write to the TUN device ends the loop early. The pump's watchdog is not modelled.
- Reconnect.RunSafe: hooks and user interface are not modelled; a disconnect hook is one event.
- Countries.RelaysByCountry: the sort of each pool by list position, which finds it already ascending, is not repeated.
- Failover.Manager.HandleFailover: the country of a relay is one function for the whole call, and the order of the other countries, which depends on nothing that is tried, is settled before the first attempt.
- Sorting.Sort: stands for Go's sort.Slice through its contract only; equal elements may come in any order.
- AntiDowngrade.MarkerNeverDecreases: assumes verified payloads are recorded and undone swaps restored, because the property is false otherwise (AntiDowngrade.RunLowersIff has the exact condition); version files carry no surrounding whitespace.
- AntiDowngrade.Updater.CheckAndDownload: the checker compares with the version the process reported when it was created; the service installs before it creates the updater, so the two are one here.
- AntiDowngrade.Updater.RollbackInstall: marks the version the process reports; the service reads the same version from its rollback file.
- Install-retry counter, package-managed installs, Windows renames, SELinux labels and file permissions.
- The volume tracker, IP limiter, blocklists, captive probe, watchdogs and log scrubbing: easier forms of the properties here.
- The user interface, tray, CLI tools, Android shims and service wiring.
