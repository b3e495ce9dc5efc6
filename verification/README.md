# cutieproxy: relay, translation and negotiation

cutieproxy redirects the connections of chosen Windows processes through a SOCKS5 server. Packets are read from a
network driver by a pipeline of four threads, translated so that they reach a local proxy, and the local proxy
negotiates with the SOCKS server and then relays data between the two sockets. This project models the parts of that
path that hold state, and proves what they promise each other.

Each component has a specification made of functions on values, lemmas about all its runs, and, where the program
changes things in place, a class whose methods are proved to do what the specification says. The operating system, the
driver and the peers are the environment: their answers are parameters of a step or the step itself, and the results
hold for all of them.

| module | what it models |
|---|---|
| `Basics` | fixed-width integers, big-endian words, replacing part of a sequence |
| `Relay`, `RelayRuns`, `TcpProxySocket` | the two cyclic buffers of a relayed connection and its teardown |
| `Checksum`, `Ipv6Helper` | the IPv6 transport checksum against RFC 1071, and the extension-header walk |
| `PacketPipeline`, `PipelineRuns`, `QueuedPacketFilter` | ten blocks of packets circulating between four threads |
| `Frames`, `TcpRedirect`, `UdpRedirect` | in-place translation of IPv4 frames and the connection tables |
| `Router` | which packets are redirected, and the destination remembered for each client port |
| `Socks5`, `Socks5Runs`, `Socks5TcpProxySocket` | the negotiation with the SOCKS server, including short reads |
| `ProxyServer`, `TcpProxyServer` | the list of pending connections shared by accepting and connecting threads |
| `EndToEnd` | router, proxy server and negotiation together: SYN to CONNECT |
| `StaticFilters` | the list that mirrors the driver's filter table |
| `Subnet` | CIDR masks, prefixes and membership |

## Conventions

- A run is a sequence of events; `Reaches` says that some run over these events leads from one state to another, and
  `Enabled` says which events the environment can cause. Threads interleave at critical sections.
- `accepted` parameters are the answers of Winsock to a posted operation; an invalid socket always refuses. The wait on
  event handles is taken to return the index of a signalled one, and a new event handle to differ from all open ones.
- Times are numbers passed in. Checksums of IPv4 frames come from the driver's library, so their values are parameters.
  Which process owns a packet, which filters match it and the order of map iteration are parameters as well.
- Ports are host-order values of fields stored in network order. A driver buffer has at least 1514 bytes; its exact
  size is a constant of the driver's headers, which are not part of this model.

## Where the code departs from what one would expect

The model follows the code in these cases, and a lemma shows each.

- A write that completes successfully with no bytes while the ring is full loses the queue of its direction and stalls
  it (`RelayRuns.EmptyWriteNeedsSpace`, `RelayRuns.EmptyWriteStallsFullRing`, `RelayRuns.EstablishedStallsIff`).
- A socket can be ready for removal while a write to the remote socket is outstanding, because its length is lost in
  three ways: when a completed connection finishes its last write to the local socket, when a write to the local
  socket empties a whole full ring but the read that should follow is refused, and when a write of the negotiation
  fails after the relay has started (`RelayRuns.RemovableTooEarly`, `RelayRuns.FullRingLosesWrite`,
  `RelayRuns.RemovableAfterLateFailure`). `RelayRuns.RemovalIsSafeIff` says exactly when none of the four relay
  operations is outstanding at removal; a write of the negotiation that is still outstanding is not counted.
- A session that closes before its CONNECT was granted never becomes ready for removal before the time-out; one that
  was granted but could not start its relay does (`Socks5Runs.UnrelayedIsRemovableIff`).
- The mask 0xFC on the fragment field recognises only fragments at 1024 octets or more (`Ipv6Helper.LaterFragmentsSeen`),
  and a truncated fragment header yields a transport header outside the packet (`Ipv6Helper.FoundHeaderPastEnd`).
- The key of the TCP table lacks the destination port, so two connections from one client port to two ports of one host
  share an entry (`TcpRedirect.NatIsTransparent`, `TcpRedirect.SharedEntryMistranslates`,
  `Router.TargetsAgreeIff`, `Router.ReusedPortDisagrees`).
- A FIN or RST of either side removes the entry at once, so what the other side still sends is not translated
  (`TcpRedirect.ClosedUntilReopened`).
- A negotiate read that delivers one byte is taken for a whole reply; the rest is what the structure held, which is zero
  for a reply code (`Socks5Runs.AnswersAreGroundedIff`, `Socks5Runs.ShortRepliesStartRelay`). The rest of
  a cut reply to CONNECT is relayed to the client (`Socks5Runs.ClientReceivesTheRest`).
- A connection whose connect fails at once stays in the list of pending connections with closed sockets, and one that
  arrives between the connecting thread's clean-up and the end of a stop is dropped with its sockets open
  (`ProxyServer.ClosedSocketsInList`).
- A reset that the driver refuses empties the list of filters all the same (`StaticFilters.MirrorsIffNoStrays`).
- A filter whose start failed stays at `starting` and can be neither started nor stopped
  (`PipelineRuns.StoppedIsEmpty`).
- Text after the prefix length of a CIDR subnet is ignored (`Subnet.TextIsReadBack`).

## Model

| member | source | states |
|---|---|---|
| `RelayRuns.RelayIsFifo` | netlib/netlib/proxy/tcp_proxy_socket.h:327-684 | For every interleaving of completions, failures, refused posts, writes of no bytes and bytes landing early, what was taken from a ring is exactly the first bytes its source delivered; while the connection is established the unsent cells read cyclically are exactly the rest, if and only if no write of the direction completed with no bytes on a full ring |
| `RelayRuns.ReceiveEnqueues` | netlib/netlib/proxy/tcp_proxy_socket.h:348-422 | A completed read of 1..len bytes appends them to the queue the ring stands for, in all shapes of the ring, wrapped or not |
| `RelayRuns.SendDequeues` | netlib/netlib/proxy/tcp_proxy_socket.h:528-601 | A completed write, whole, partial, or of no bytes on a ring with room, removes exactly its bytes from the front of the queue |
| `RelayRuns.ReceiveStaysOpenIff` | netlib/netlib/proxy/tcp_proxy_socket.h:348-422 | A completed read leaves the connection open if and only if the write it needs (of bytes into an empty queue) and the read it needs (of space that is left) are accepted |
| `RelayRuns.SendStaysOpenIff` | netlib/netlib/proxy/tcp_proxy_socket.h:528-601 | The same for a completed write: the read that reopens a full ring and the write of what is still unsent |
| `RelayRuns.EstablishedIff` | netlib/netlib/proxy/tcp_proxy_socket.h:327-684 | Along every run, told from the events alone: a connection is established if and only if no operation failed and none that the queues called for was refused |
| `RelayRuns.WindowsAfterReceive` | netlib/netlib/proxy/tcp_proxy_socket.h:384-421 | The read window moves on cyclically by the bytes received and takes all the free space up to the end of the buffer or the first unsent byte; the write window is kept, or is what was received |
| `RelayRuns.WindowsAfterSend` | netlib/netlib/proxy/tcp_proxy_socket.h:528-601 | The write window moves on by the bytes sent and takes all unsent bytes up to the end of the buffer or the first free one; the read window is kept, or on a full ring is what was sent |
| `RelayRuns.CloseOutcome` | netlib/netlib/proxy/tcp_proxy_socket.h:188-250 | Both sockets become invalid, the status completed only if the named one was open, and of the four lengths exactly the one of the failed operation is cleared |
| `RelayRuns.EarlyReceiveIsIgnored` | netlib/netlib/proxy/tcp_proxy_socket.h:348-422 | A read that completes before the relay is established posts and moves nothing |
| `RelayRuns.EstablishedStallsIff` | netlib/netlib/proxy/tcp_proxy_socket.h:384-410 | In every reachable established state the two windows of a direction do not overlap, and it has a read or a write outstanding if and only if no write of it completed with no bytes on a full ring |
| `RelayRuns.WindowsAreSafe` | netlib/netlib/proxy/tcp_proxy_socket.h:609-661 | No room to receive means 65536 unsent bytes, nothing to send means none; the read window covers no unsent cell and the write window only unsent ones |
| `RelayRuns.PostedWriteIsStable` | netlib/netlib/proxy/tcp_proxy_socket.h:327-684 | Between posting a write and its completion no other event moves its window or changes a byte in it |
| `RelayRuns.MemoryWriteKeepsInv` | netlib/netlib/proxy/tcp_proxy_socket.h:403-410 | Bytes of a read may land before it completes: writing anywhere in the read window disturbs no queued byte |
| `RelayRuns.EmptyWriteNeedsSpace` | netlib/netlib/proxy/tcp_proxy_socket.h:528-601 | A successful write of no bytes preserves the queue if and only if the ring has room; on a full ring the direction is left with nothing outstanding |
| `RelayRuns.EmptyWriteStallsFullRing` | netlib/netlib/proxy/tcp_proxy_socket.h:642-661 | From every fresh connection a read fills a ring and a write of no bytes then leaves all 65536 bytes unsent with nothing outstanding |
| `RelayRuns.StepKeepsInv` | netlib/netlib/proxy/tcp_proxy_server.h:101-149 | Whatever completion the dispatcher delivers, the relay invariant of both directions survives the handler it selects |
| `RelayRuns.CompletedDrains` | netlib/netlib/proxy/tcp_proxy_socket.h:188-250 | A completed connection never leaves that state; each further completion of a relay operation retires exactly that one and posts none |
| `RelayRuns.DrainedIsRemovable` | netlib/netlib/proxy/tcp_proxy_socket.h:252-287 | Completed with none of the four relay operations outstanding means ready for removal; ready for removal leaves at most the write to the remote socket outstanding |
| `RelayRuns.RemovalIsSafeIff` | netlib/netlib/proxy/tcp_proxy_socket.h:252-268 | A socket ready for removal after any run has no relay operation outstanding if and only if no event of the run lost the length of a write to the remote socket that has not completed since |
| `RelayRuns.StepTracksRemoteWrite` | netlib/netlib/proxy/tcp_proxy_socket.h:528-569 | That length is lost exactly by a completed write to the local socket that catches up with the receive cursor of a completed connection, by one that empties a whole full ring when the read that should follow is refused, or by a late failure of a negotiation write |
| `RelayRuns.LostUntilCompleted` | netlib/netlib/proxy/tcp_proxy_socket.h:609-682 | Once lost, it agrees with what is outstanding again exactly when that write completes |
| `RelayRuns.FullRingLosesWrite` | netlib/netlib/proxy/tcp_proxy_socket.h:530-566 | The second way is reached on an established connection from every fresh one |
| `RelayRuns.RemovableTooEarly` | netlib/netlib/proxy/tcp_proxy_socket.h:561-569 | The first way is reached too: from every fresh connection a run exists in which the socket is ready for removal while its write to the remote socket is outstanding |
| `RelayRuns.RemovableAfterLateFailure` | netlib/netlib/proxy/tcp_proxy_server.h:117-121 | And the third, by a negotiation write that fails after the relay has started |
| `RelayRuns.StartEstablishesInv` | netlib/netlib/proxy/tcp_proxy_socket.h:806-835 | Starting the relay, with either first read refused or both accepted, establishes the invariant with empty queues |
| `TcpProxySocket.Socket.constructor` | netlib/netlib/proxy/tcp_proxy_socket.h:65-96 | Both receive windows span their 65536-byte buffer, nothing is to be sent and nothing is outstanding |
| `TcpProxySocket.Socket.AssociateToCompletionPort` | netlib/netlib/proxy/tcp_proxy_socket.h:178-186 | The status becomes established even when attaching fails, which is the result |
| `TcpProxySocket.Socket.CloseClient` | netlib/netlib/proxy/tcp_proxy_socket.h:188-250 | Both sockets become invalid, the status completed only if the named socket was open, and one length is cleared |
| `TcpProxySocket.Socket.IsReadyForRemoval` | netlib/netlib/proxy/tcp_proxy_socket.h:252-268 | True exactly when both sockets are invalid and the four lengths are zero |
| `TcpProxySocket.Socket.ProcessReceiveBufferComplete` | netlib/netlib/proxy/tcp_proxy_socket.h:327-514 | In place, the buffers, cursors, sockets and status become what the relay specification says, for both directions and each status |
| `TcpProxySocket.Socket.ProcessSendBufferComplete` | netlib/netlib/proxy/tcp_proxy_socket.h:516-684 | The same for a completed write, with its refilling of a full ring before the cursor moves |
| `TcpProxySocket.Socket.StartDataRelay` | netlib/netlib/proxy/tcp_proxy_socket.h:806-835 | Both first reads, with what is closed and cleared when either is refused |
| `Checksum.WordSumIsSwapped` | netlib/netlib/net/ipv6_helper.h:165-190 | The sum of 32-bit little-endian words and tails, reduced modulo 65535, is the byte-swapped one's-complement sum of RFC 1071, for every byte string, odd lengths included |
| `Checksum.ReferenceIsCanon` | netlib/netlib/net/ipv6_helper.h:192-205 | End-around carries may be postponed: the RFC 1071 sum is the plain big-endian sum reduced so that only zero becomes 0 |
| `Checksum.NoOverflow` | netlib/netlib/net/ipv6_helper.h:165-190 | A 40-byte header and any segment below 4 GiB never overflow the 64-bit accumulator |
| `Checksum.WordSumComposes` | netlib/netlib/net/ipv6_helper.h:260-266 | Partial sums over consecutive buffers add up when the first is a multiple of 4 bytes long |
| `Checksum.IpChecksumPartial` | netlib/netlib/net/ipv6_helper.h:165-190 | The loop and its 2-byte and 1-byte tails add exactly the word sum of the bytes, modulo 2 to the 64 |
| `Checksum.IpChecksumFold` | netlib/netlib/net/ipv6_helper.h:197-205 | Both loops end, and the result is the complement of the residue that keeps zero apart from 65535 |
| `Checksum.FoldStep` | netlib/netlib/net/ipv6_helper.h:199-202 | Each folding step strictly lowers the sum and keeps its residue |
| `Checksum.HeaderChecksumPartial` | netlib/netlib/net/ipv6_helper.h:215-246 | The word sum of the 40-byte pseudo-header of section 8.1 of RFC 2460 |
| `Checksum.PseudoHeaderLayout` | netlib/netlib/net/ipv6_helper.h:215-246 | The 40 bytes of the pseudo-header: both addresses, a 32-bit length in network order, three zeros, the protocol |
| `Checksum.TcpUdpV6Checksum` | netlib/netlib/net/ipv6_helper.h:260-266 | The stored result is, in network order, the RFC 1071 checksum of pseudo-header and segment |
| `Checksum.StoredChecksumVerifies` | netlib/netlib/net/ipv6_helper.h:136-154 | Storing the checksum of a message with a zeroed field into that field makes its one's-complement sum 65535 |
| `Checksum.StoredHalfVerifiesIff` | netlib/netlib/net/ipv6_helper.h:136-154 | A message that ends in the middle of its checksum field verifies if and only if its sum with a zeroed field ends in 0xFF |
| `Ipv6Helper.ChainDecidesWalk` | netlib/netlib/net/ipv6_helper.h:43-99 | Any chain of hop-by-hop, routing and destination headers that cannot be continued determines the answer of the walk |
| `Ipv6Helper.ChainExists` | netlib/netlib/net/ipv6_helper.h:80-93 | From every header such a chain exists, advancing by multiples of 8 |
| `Ipv6Helper.LinksIff` | netlib/netlib/net/ipv6_helper.h:80-93 | In numbers: protocols 0, 43 and 60 are followed; the first byte names what comes next, the second its distance in units of 8 octets beyond the first |
| `Ipv6Helper.OutcomeIs` | netlib/netlib/net/ipv6_helper.h:48-99 | What is answered at the end of the chain: nothing with fewer than 4 bytes left, what follows an unfragmented or first fragment header 8 bytes on, otherwise the header itself |
| `Ipv6Helper.WalkStarts` | netlib/netlib/net/ipv6_helper.h:21-45 | The walk starts at byte 40 with the protocol in byte 6, for version 6 only |
| `Ipv6Helper.FindTransportHeader` | netlib/netlib/net/ipv6_helper.h:21-100 | The loop ends for every packet and answers as the recursive walk does |
| `Ipv6Helper.FoundHeaderPlace` | netlib/netlib/net/ipv6_helper.h:46-98 | A header found lies at a multiple of 8 that is at least 40, with 4 bytes left in the packet unless a fragment header precedes it; it leaves the packet exactly when that fragment header does |
| `Ipv6Helper.FoundHeaderPastEnd` | netlib/netlib/net/ipv6_helper.h:56-78 | A fragment header cut off after 4 bytes yields a transport header beyond the packet |
| `Ipv6Helper.LaterFragmentsSeen` | netlib/netlib/net/ipv6_helper.h:61 | The test for later fragments fires exactly from offset 128, that is 1024 octets, on |
| `Ipv6Helper.RecalculateTcpUdpChecksum` | netlib/netlib/net/ipv6_helper.h:108-155 | The frame is rewritten in place in its checksum field only, and not at all without a transport header or for another protocol |
| `Ipv6Helper.RecalculatedBytes` | netlib/netlib/net/ipv6_helper.h:108-155 | Exactly the bytes 16 and 17 of a TCP header, 6 and 7 of a UDP header, or 2 and 3 of an ICMPv6 header change; they hold the RFC 1071 checksum of the message with these two bytes zero |
| `Ipv6Helper.RecalculatedElse` | netlib/netlib/net/ipv6_helper.h:117-155 | For any other protocol, and without a transport header, no byte of the frame changes |
| `Ipv6Helper.SummedLayout` | netlib/netlib/net/ipv6_helper.h:136-154 | That message, byte by byte: addresses, segment length, protocol, and the segment as it stands |
| `Ipv6Helper.RecalculatedVerifies` | netlib/netlib/net/ipv6_helper.h:108-155 | For TCP, UDP and ICMPv6 the frame verifies after the call if and only if the checksum field lies in the segment, or half of it does and the sum with a zeroed field ends in 0xFF, or none of it does and the frame verified before |
| `Ipv6Helper.RewrittenVerifies` | netlib/netlib/net/ipv6_helper.h:136-154 | The same for one rewrite of any checksum field at an even place |
| `PipelineRuns.RoutingIsInOrder` | netlib/netlib/ndisapi/queued_packet_filter.h:493-683 | In every interleaving of the four threads, over any number of starts and stops, decisions concern a prefix of the packets read and each side has been given a prefix of the packets decided for it, in order |
| `PipelineRuns.IdlePipelineHasSentAll` | netlib/netlib/ndisapi/queued_packet_filter.h:493-683 | When all blocks are back in the read queue every packet read has been decided and sent |
| `PipelineRuns.NoPacketOnBothSides` | netlib/netlib/ndisapi/queued_packet_filter.h:563-613 | With distinct packets none reaches both sides and none that was dropped reaches either |
| `PipelineRuns.RoutedOnlyWhereDecided` | netlib/netlib/ndisapi/queued_packet_filter.h:563-613 | A side is due a packet if and only if one of its decisions sends it there |
| `PipelineRuns.RoutingFollowsCallbacks` | netlib/netlib/ndisapi/queued_packet_filter.h:493-683 | Told from the events alone: each side has been given a prefix, and once all blocks are back all, of the packets read that the answers of the callbacks make due to it, in order |
| `PipelineRuns.GoesWhereDue` | netlib/netlib/ndisapi/queued_packet_filter.h:563-613 | In flags and answers: passed or without a callback, a packet that was being sent goes to the adapter only and any other to the stack only; reverted ones the other way; dropped ones nowhere |
| `PipelineRuns.BlocksAreConserved` | netlib/netlib/ndisapi/queued_packet_filter.h:300-374 | While the filter is live the queues and threads hold exactly the ten blocks created, each once, with no write request larger than its block |
| `PipelineRuns.TakenBlocksAreClean` | netlib/netlib/ndisapi/queued_packet_filter.h:639-681 | A block is taken for reading empty, and for processing with both write counters at zero |
| `PipelineRuns.StoppedIsEmpty` | netlib/netlib/ndisapi/queued_packet_filter.h:336-374 | A stopped filter owns no block and no thread; a start that failed is never left again |
| `PipelineRuns.StartOutcome` | netlib/netlib/ndisapi/queued_packet_filter.h:300-409 | After a start, ten empty blocks wait to be read into and all four threads are idle |
| `PipelineRuns.FailedStartOutcome` | netlib/netlib/ndisapi/queued_packet_filter.h:300-334 | A start that ran out of memory keeps the blocks made so far, one whose event was refused none; no thread exists |
| `PipelineRuns.TargetsAreRouted` | netlib/netlib/ndisapi/queued_packet_filter.h:563-613 | The write request built for a side points at exactly the packets decided for that side, in order |
| `PipelineRuns.StepKeepsInv` | netlib/netlib/ndisapi/queued_packet_filter.h:493-683 | Every critical section of every thread keeps the conservation and order invariant |
| `QueuedPacketFilter.PacketFilter.InitFilter` | netlib/netlib/ndisapi/queued_packet_filter.h:300-334 | Ten blocks, or what an allocation failure or a refused event leaves in the read queue |
| `QueuedPacketFilter.PacketFilter.StartFilter` | netlib/netlib/ndisapi/queued_packet_filter.h:388-409 | Starts only a stopped filter; a failed initialisation leaves the state at starting |
| `QueuedPacketFilter.PacketFilter.BeginStopFilter` | netlib/netlib/ndisapi/queued_packet_filter.h:411-423 | Stops only a running filter |
| `QueuedPacketFilter.PacketFilter.FinishStopFilter` | netlib/netlib/ndisapi/queued_packet_filter.h:336-374 | After the joins all four queues are emptied and the filter is stopped |
| `QueuedPacketFilter.PacketFilter.RoutePacket` | netlib/netlib/ndisapi/queued_packet_filter.h:563-613 | A packet goes into the request of the side its direction and action select, or into none |
| `QueuedPacketFilter.PacketFilter.ProcessBlock` | netlib/netlib/ndisapi/queued_packet_filter.h:539-617 | The loop over a block yields both write requests of the specification and resets the read count |
| `QueuedPacketFilter.PacketFilter.SendPacketsToMstcp` | netlib/netlib/ndisapi/queued_packet_filter.h:619-650 | The request towards the stack is submitted and its counter reset |
| `QueuedPacketFilter.PacketFilter.SendPacketsToAdapter` | netlib/netlib/ndisapi/queued_packet_filter.h:652-683 | The request towards the adapter is submitted and its counter reset |
| `QueuedPacketFilter.PacketFilter.ReadRound` | netlib/netlib/ndisapi/queued_packet_filter.h:493-537 | An undisturbed round of the read thread moves the first free block, filled with the packets read, to the end of the process queue |
| `QueuedPacketFilter.PacketFilter.ProcessRound` | netlib/netlib/ndisapi/queued_packet_filter.h:539-617 | One of the process thread moves the first filled block, routed, to the end of the stack queue |
| `QueuedPacketFilter.PacketFilter.MstcpRound` | netlib/netlib/ndisapi/queued_packet_filter.h:619-650 | One of the stack writer submits the first block's request towards the stack and moves the block, with that request emptied, to the adapter queue |
| `QueuedPacketFilter.PacketFilter.AdapterRound` | netlib/netlib/ndisapi/queued_packet_filter.h:652-683 | One of the adapter writer submits the request towards the adapter and returns the block, emptied, to the read queue |
| `TcpRedirect.NatIsTransparent` | netlib/netlib/ndisapi/tcp_local_redirect.h:100-301 | Along every run, the reply of the proxy to a translated packet whose entry stayed alive is translated, and looks like a direct reply to that packet if and only if the packet went to the port of the SYN that opened the connection |
| `TcpRedirect.TranslatedIff` | netlib/netlib/ndisapi/tcp_local_redirect.h:122-271 | In flags and table: an opening SYN is translated if and only if its endpoint is unknown, any other client packet, FIN and RST included, if and only if it is known; a proxy packet if and only if the endpoint it answers is |
| `TcpRedirect.LiveClientPacketReachesProxy` | netlib/netlib/ndisapi/tcp_local_redirect.h:138-174 | Along every run, a client packet to a live endpoint, one that closes it included, reaches the proxy as its packet turned around |
| `TcpRedirect.LiveProxyPacketReachesClient` | netlib/netlib/ndisapi/tcp_local_redirect.h:262-300 | Along every run, a packet of the proxy for a live endpoint, closing or not, reaches the client from the port of the opening SYN |
| `TcpRedirect.ClosedUntilReopened` | netlib/netlib/ndisapi/tcp_local_redirect.h:122-289 | After a FIN or RST from either side no reply of the proxy is translated until a new SYN has opened the endpoint again |
| `TcpRedirect.SharedEntryMistranslates` | netlib/netlib/ndisapi/tcp_local_redirect.h:122-145 | Two connections from one client port to two ports of one host share an entry, and the reply to the second comes back with the port of the first |
| `TcpRedirect.LiveEntryHasOpener` | netlib/netlib/ndisapi/tcp_local_redirect.h:122-136 | A live entry carries the destination port of the SYN that created it and has carried it ever since |
| `TcpRedirect.EntryIsRemovedBy` | netlib/netlib/ndisapi/tcp_local_redirect.h:138-160 | An entry leaves the table exactly on a FIN or RST of its connection or by expiry, and never changes its port |
| `TcpRedirect.EntryAfter` | netlib/netlib/ndisapi/tcp_local_redirect.h:122-289 | Endpoint by endpoint, the table after any event: closed and used entries, the time of use, the port, and that all others stay as they are |
| `TcpRedirect.EntryTime` | netlib/netlib/ndisapi/tcp_local_redirect.h:122-289 | Along every run, the time of a live entry is that of the last packet that opened or used it |
| `TcpRedirect.EntryGoesIff` | netlib/netlib/ndisapi/tcp_local_redirect.h:33-49 | So a live entry goes if and only if a FIN or RST closes it or a clean-up comes more than 300 seconds after that packet |
| `TcpRedirect.EditsToProxy` | netlib/netlib/ndisapi/tcp_local_redirect.h:162-174 | The edits exchange addresses, set the proxy port and the two checksums and change nothing else |
| `TcpRedirect.EditsToClient` | netlib/netlib/ndisapi/tcp_local_redirect.h:273-300 | The reverse edits do the same with the port of the table entry |
| `TcpRedirect.TurnedAroundView` | netlib/netlib/ndisapi/tcp_local_redirect.h:162-174 | In terms of fields, such a frame is the view the proxy or the client is meant to get |
| `TcpRedirect.RedirectedBytes` | netlib/netlib/ndisapi/tcp_local_redirect.h:162-174 | Every byte of a redirected frame: exchanged addresses, the new destination port, the two checksums in their places, and the rest unchanged |
| `TcpRedirect.ReturnedBytes` | netlib/netlib/ndisapi/tcp_local_redirect.h:273-300 | The same for a returned frame and its source port |
| `TcpRedirect.ViewPlaces` | netlib/netlib/ndisapi/tcp_local_redirect.h:106-145 | Protocol, key, ports and flags in the bytes of the frame |
| `Frames.FieldPlaces` | netlib/netlib/ndisapi/tcp_local_redirect.h:106-120 | Where an Ethernet frame with an IPv4 packet has its addresses, lengths, fragment field, protocol and ports |
| `TcpRedirect.TcpLocalRedirect.ProcessClientToServerPacket` | netlib/netlib/ndisapi/tcp_local_redirect.h:100-175 | The table and the verdict are those of the specification; every byte of the frame is known after the call, whatever the length of its IP header, and a translated frame with a whole IP header is turned around |
| `TcpRedirect.TcpLocalRedirect.ProcessServerToClientPacket` | netlib/netlib/ndisapi/tcp_local_redirect.h:248-301 | The same towards the client, with the source port of the entry |
| `TcpRedirect.TcpLocalRedirect.CleanUpExpired` | netlib/netlib/ndisapi/tcp_local_redirect.h:23-56 | Exactly the entries unused for more than five minutes go |
| `UdpRedirect.UdpIsTransparent` | netlib/netlib/ndisapi/socks5_udp_local_redirect.h:184-411 | Over any run, the proxy's answer to a client's datagram is translated if and only if the client port is still known; the client then receives exactly its payload, and receives it as a direct answer if and only if the header of the answer names the destination of the datagram |
| `UdpRedirect.KnownWasAnnounced` | netlib/netlib/ndisapi/socks5_udp_local_redirect.h:109-142 | A known client port was announced while it was unknown, and has been known ever since |
| `UdpRedirect.EndpointIsRemovedBy` | netlib/netlib/ndisapi/socks5_udp_local_redirect.h:26-55 | A known port is forgotten exactly by a clean-up after more than fifteen minutes of silence |
| `UdpRedirect.EndpointTime` | netlib/netlib/ndisapi/socks5_udp_local_redirect.h:109-401 | Along every run, the time of a known port is that of the last event that announced it while unknown or carried an unfragmented UDP frame from or to it while known |
| `UdpRedirect.EndpointGoesIff` | netlib/netlib/ndisapi/socks5_udp_local_redirect.h:33-51 | So a known port is forgotten if and only if a clean-up comes more than 900 seconds after that event |
| `UdpRedirect.TranslatedIff` | netlib/netlib/ndisapi/socks5_udp_local_redirect.h:109-369 | In bytes and ports: a datagram is translated if and only if it is UDP, not a fragment, and its client port is known; a port is new if and only if it is unknown |
| `UdpRedirect.UdpRoundTrip` | netlib/netlib/ndisapi/socks5_udp_local_redirect.h:184-411 | The client receives the payload of the answer from the address and port its header names, with lengths 10 smaller |
| `UdpRedirect.ProxyReceivesPayload` | netlib/netlib/ndisapi/socks5_udp_local_redirect.h:184-263 | What the proxy receives is the 10-byte header of section 7 of RFC 1928 naming the destination, then the untouched payload |
| `UdpRedirect.EditsEncapsulate` | netlib/netlib/ndisapi/socks5_udp_local_redirect.h:211-262 | The edits in source order, with the overlapping move, give a frame whose lengths grew by 10, modulo 65536, and whose other bytes are kept |
| `UdpRedirect.EditsDecapsulate` | netlib/netlib/ndisapi/socks5_udp_local_redirect.h:365-410 | The reverse edits remove the header, restore address and port from it and shrink both lengths |
| `UdpRedirect.HeaderNames` | netlib/netlib/proxy/socks5_common.h:95-111 | The fields of a SOCKS5 header are where the code reads them |
| `UdpRedirect.Socks5HeaderLayout` | netlib/netlib/ndisapi/socks5_udp_local_redirect.h:234-240 | The ten bytes of the header of section 7 of RFC 1928 for an IPv4 address |
| `UdpRedirect.WrappedByte` | netlib/netlib/ndisapi/socks5_udp_local_redirect.h:223-240 | Every byte of a wrapped frame: payload ten bytes up, header in front of it, both lengths grown modulo 65536 |
| `UdpRedirect.ReaddressedByte` | netlib/netlib/ndisapi/socks5_udp_local_redirect.h:242-251 | Every byte after readdressing: exchanged addresses, the proxy port, both checksums |
| `UdpRedirect.RestoredByte` | netlib/netlib/ndisapi/socks5_udp_local_redirect.h:378-388 | Every byte once address and port of the header are restored |
| `UdpRedirect.UnwrappedByte` | netlib/netlib/ndisapi/socks5_udp_local_redirect.h:390-399 | Every byte of an unwrapped reply: payload ten bytes down, both lengths shrunk, both checksums |
| `UdpRedirect.UdpLocalRedirect.IsNewEndpoint` | netlib/netlib/ndisapi/socks5_udp_local_redirect.h:109-142 | True exactly for a UDP frame of an unknown client port, which is then known |
| `UdpRedirect.UdpLocalRedirect.ProcessClientToServerPacket` | netlib/netlib/ndisapi/socks5_udp_local_redirect.h:184-263 | Translates exactly the unfragmented datagrams of known clients, in place, with every byte known whatever the length of the IP header; others keep every byte |
| `UdpRedirect.UdpLocalRedirect.ProcessServerToClientPacket` | netlib/netlib/ndisapi/socks5_udp_local_redirect.h:343-411 | The same towards the client |
| `UdpRedirect.UdpLocalRedirect.CleanUpExpired` | netlib/netlib/ndisapi/socks5_udp_local_redirect.h:26-55 | Exactly the ports silent for more than fifteen minutes go |
| `Router.MapperHoldsPendingSyns` | netlib/netlib/proxy/socks_local_router.h:175-200 | After any run the mapper holds a port if and only if its last redirected SYN has not been served, and then holds the destination of that SYN |
| `Router.VerdictIff` | netlib/netlib/proxy/socks_local_router.h:175-200 | A packet goes to the proxy if and only if its process is matched and its endpoint is unknown to an opening SYN or known to anything else, and to the client if and only if no filter matches, a local proxy sent it, and the endpoint it answers is live |
| `Router.MapperAfter` | netlib/netlib/proxy/socks_local_router.h:177-182 | The mapper changes only on an opening SYN of a matched process and on an accepted connection, and only for their port |
| `Router.RouterRunsRedirect` | netlib/netlib/proxy/socks_local_router.h:192-198 | Along every run the table is that of the redirect run on exactly the packets the router hands to it, so its run results hold in the router |
| `Router.QueryAnswersPendingSyn` | netlib/netlib/proxy/socks_local_router.h:432-455 | A query is answered with the destination of the SYN pending on the port, and with none if and only if no SYN is pending |
| `Router.AcceptedGoesToTarget` | netlib/netlib/proxy/socks_local_router.h:426-462 | A client is sent to the destination of its SYN if and only if its port was not reused for another destination before it was served; the mapping is then gone |
| `Router.MappingsAreConsumedOnce` | netlib/netlib/proxy/socks_local_router.h:426-462 | A port is served no more often than it sent redirected SYNs |
| `Router.TargetsAgreeIff` | netlib/netlib/proxy/socks_local_router.h:175-200 | All along a run the targets of pending connections agree with the live redirect entries, if and only if no redirected SYN of the run finds a live entry for its host and port that was made for another destination port |
| `Router.StepAgreesIff` | netlib/netlib/proxy/socks_local_router.h:177-193 | From agreement, one packet breaks it if and only if it is such a SYN |
| `Router.TargetsAgreeWithRedirects` | netlib/netlib/proxy/socks_local_router.h:175-200 | In particular they agree as long as no port is reused while something of it is live |
| `Router.ReusedPortDisagrees` | netlib/netlib/proxy/socks_local_router.h:177-191 | With a reused port they disagree |
| `Router.SocksLocalRouter.ProcessOutgoingTcp` | netlib/netlib/proxy/socks_local_router.h:153-202 | Mapper, redirect table and verdict after the callback, for the proxy its process is matched to; a frame passed on is byte-identical, one sent to the proxy or the client is turned around with the right port |
| `Router.SocksLocalRouter.QueryRemotePeer` | netlib/netlib/proxy/socks_local_router.h:426-462 | Hands out and erases the mapping of a port, whatever the address |
| `Router.SocksLocalRouter.GetProxyPortTcp` | netlib/netlib/proxy/socks_local_router.h:712-730 | The port of the first proxy, in iteration order, that has a matching filter; none if that proxy is stopped or no filter matches |
| `Router.SocksLocalRouter.IsTcpProxyPort` | netlib/netlib/proxy/socks_local_router.h:763-776 | True exactly for the port of a running proxy |
| `Router.SocksLocalRouter.StopSocks5Proxy` | netlib/netlib/proxy/socks_local_router.h:552-571 | Drops the port of an existing proxy and keeps all identifiers |
| `Router.SocksLocalRouter.AddFilterToProxy` | netlib/netlib/proxy/socks_local_router.h:573-589 | Appends a filter to an existing proxy and changes no other |
| `Socks5Runs.RelayFollowsConversation` | netlib/netlib/proxy/socks5_tcp_proxy_socket.h:35-217 | A relay is started at most once, on a reply read as 0 to a CONNECT that ended greeting, CONNECT or greeting, credentials, CONNECT; the latter only after method 2 and status 0, with credentials of 1 to 255 bytes |
| `Socks5Runs.SendsOnlyConversations` | netlib/netlib/proxy/socks5_tcp_proxy_socket.h:35-293 | At any time what was sent is the front of one of the two conversations, at most one read is outstanding and at most three have been consumed; credentials are sent only after method 2 |
| `Socks5Runs.RelayStartsClean` | netlib/netlib/proxy/socks5_tcp_proxy_socket.h:204-215 | The read that starts the relay hands it over with untouched buffers and both reads posted, so that the relay invariant holds |
| `Socks5Runs.ClosedStaysSilent` | netlib/netlib/proxy/socks5_tcp_proxy_socket.h:35-217 | A closed session sends nothing, posts nothing and starts no relay |
| `Socks5Runs.RefusalCloses` | netlib/netlib/proxy/socks5_tcp_proxy_socket.h:43-56 | A refusing method, status or reply closes both sockets and nothing more is sent |
| `Socks5Runs.UnrelayedIsRemovableIff` | netlib/netlib/proxy/socks5_tcp_proxy_socket.h:204-215 | A session that closes without having relayed is ready for removal, once the relay operations it may have left behind are completed, if and only if its CONNECT was granted; after a refusal it waits for the time-out |
| `Socks5Runs.UnrelayedIsRemovableAtOnceIff` | netlib/netlib/proxy/tcp_proxy_socket.h:806-835 | It is so at once if and only if its CONNECT was granted and no read was left outstanding |
| `Socks5Runs.GrantedBecomesRemovable` | netlib/netlib/proxy/tcp_proxy_socket.h:806-835 | If a read was left outstanding because only the second was refused, the failure of that read makes the session ready for removal |
| `Socks5Runs.ClientReceivesTheRest` | netlib/netlib/proxy/socks5_tcp_proxy_socket.h:204-215 | The client is sent the front of what the server sent after the bytes the negotiation consumed, and this is what follows the replies if and only if every negotiate read delivered its reply whole |
| `Socks5Runs.AnswersAreGroundedIff` | netlib/netlib/proxy/socks5_tcp_proxy_socket.h:39-212 | An answer acted upon is one the server sent if and only if its read delivered at least two bytes; otherwise it is what the structure held before |
| `Socks5Runs.ShortRepliesStartRelay` | netlib/netlib/proxy/socks5_tcp_proxy_socket.h:204-214 | From every new session two one-byte replies start the relay although no reply code was received |
| `Socks5Runs.PoliteServerStartsRelay` | netlib/netlib/proxy/socks5_tcp_proxy_socket.h:35-217 | A server that follows RFC 1928 and RFC 1929 gets a client with credentials to its relay |
| `Socks5.StepKeepsInv` | netlib/netlib/proxy/socks5_tcp_proxy_socket.h:35-293 | Every event keeps the correspondence of phase, messages sent, replies consumed and structures in memory |
| `Socks5.BeginStaysOpenIff` | netlib/netlib/proxy/socks5_tcp_proxy_socket.h:236-293 | Beginning leaves the session open, awaiting the answer, if and only if the greeting and the read are accepted |
| `Socks5.LoginStaysOpenIff` | netlib/netlib/proxy/socks5_tcp_proxy_socket.h:35-112 | An answer to the greeting keeps the session open if and only if it is of version 5, chooses a method, chooses username and password only if both are usable, and the next write and read are accepted |
| `Socks5.PasswordStaysOpenIff` | netlib/netlib/proxy/socks5_tcp_proxy_socket.h:147-190 | An answer to the credentials, if and only if it is whole, of status 0, and both posts are accepted |
| `Socks5.ConnectStaysOpenIff` | netlib/netlib/proxy/socks5_tcp_proxy_socket.h:192-217 | An answer to CONNECT, if and only if it carries no other status than 0 and both first reads are accepted; then and only then the relay starts |
| `Socks5.FailureCloses` | netlib/netlib/proxy/tcp_proxy_server.h:101-121 | A failed read or write closes the session |
| `Socks5.RefusedPostOutcome` | netlib/netlib/proxy/socks5_tcp_proxy_socket.h:82-106 | A refused write or read of the negotiation closes both sockets and clears the length of the first read from the server |
| `Socks5.RefusedReplyOutcome` | netlib/netlib/proxy/socks5_tcp_proxy_socket.h:43-48 | So does an answer read as a refusal, and nothing else of the relay changes |
| `Socks5.GreetingLayout` | netlib/netlib/proxy/socks5_tcp_proxy_socket.h:242-258 | Section 3 of RFC 1928: version, count, and the methods offered in order, username and password with a username only |
| `Socks5.AuthenticationLayout` | netlib/netlib/proxy/socks5_common.h:34-50 | Section 2 of RFC 1929: username and password are read back behind their lengths |
| `Socks5TcpProxySocket.NegotiatingSocket.RemoteNegotiate` | netlib/netlib/proxy/socks5_tcp_proxy_socket.h:236-293 | The greeting offers username and password only with a username, and the negotiation is never complete at once |
| `Socks5TcpProxySocket.NegotiatingSocket.CompleteRead` | netlib/netlib/proxy/socks5_tcp_proxy_socket.h:219-229 | What a read delivers overwrites the front of the structure it was posted for |
| `Socks5TcpProxySocket.NegotiatingSocket.CheckCredentials` | netlib/netlib/proxy/socks5_tcp_proxy_socket.h:61-75 | True exactly for a username and a password of 1 to 255 bytes each |
| `Socks5TcpProxySocket.NegotiatingSocket.ProcessReceiveNegotiateComplete` | netlib/netlib/proxy/socks5_tcp_proxy_socket.h:35-217 | State, messages, reads and sockets after each reply are those of the specification |
| `ProxyServer.WrapsTheFiredEntry` | netlib/netlib/proxy/tcp_proxy_server.h:502-549 | However many entries were appended since the snapshot, the connection wrapped is the one at that position of the snapshot; its event has fired, no other entry has it, and slot 0 stays the sentinel |
| `ProxyServer.SnapshotStaysPrefix` | netlib/netlib/proxy/tcp_proxy_server.h:502-549 | While the connecting thread works with a snapshot it is position by position a prefix of the live list |
| `ProxyServer.ConnectionsAreConserved` | netlib/netlib/proxy/tcp_proxy_server.h:428-549 | The n-th connection that got as far as the list is in one place only: in the list, wrapped, or dropped by a stop; the list keeps the order of arrival |
| `ProxyServer.ClosedSocketsInList` | netlib/netlib/proxy/tcp_proxy_server.h:446-575 | With connect outside the critical section: until the connecting thread leaves, the connections in the list with closed sockets are exactly those whose connect has failed; what a stop leaves over keeps its sockets open exactly if it came after the clean-up and its connect did not fail |
| `ProxyServer.AppendWakesConnector` | netlib/netlib/proxy/tcp_proxy_server.h:428-436 | An entry appended behind the back of the waiting thread has signalled slot 0 of the snapshot it waits on |
| `ProxyServer.RefusedConnections` | netlib/netlib/proxy/tcp_proxy_server.h:366-419 | Accepting a client changes nothing if and only if it has no mapping, or its socket cannot be made or bound |
| `ProxyServer.StartOutcome` | netlib/netlib/proxy/tcp_proxy_server.h:80-178 | Starting a stopped server leaves the sentinel alone in the list and both threads about to look, or no entry if its socket cannot be attached |
| `ProxyServer.AppendOutcome` | netlib/netlib/proxy/tcp_proxy_server.h:428-438 | A new connection goes to the end of the list; its own event is unsignalled and that of slot 0 signalled |
| `ProxyServer.BeginConnectAnswers` | netlib/netlib/proxy/tcp_proxy_server.h:366-436 | The accepting thread is told to keep the client's socket if and only if its entry was made |
| `ProxyServer.SnapshotIsComplete` | netlib/netlib/proxy/tcp_proxy_server.h:507-520 | The snapshot has the event of every entry at its position |
| `ProxyServer.WakeUpIsReset` | netlib/netlib/proxy/tcp_proxy_server.h:545-548 | Along every run, a wake-up through slot 0 is reset and changes nothing else |
| `ProxyServer.EntryIsTaken` | netlib/netlib/proxy/tcp_proxy_server.h:526-543 | Any other takes exactly its entry out of the list and leaves the signals alone |
| `ProxyServer.StopWakesConnector` | netlib/netlib/proxy/tcp_proxy_server.h:180-196 | Along every run, a stop lets the waiting connecting thread wake up |
| `ProxyServer.CleanUpOutcome` | netlib/netlib/proxy/tcp_proxy_server.h:552-574 | Leaving, the connecting thread closes both sockets of every entry and keeps the entries |
| `ProxyServer.StepKeepsInv` | netlib/netlib/proxy/tcp_proxy_server.h:80-575 | Every critical section of the accepting, connecting and stopping threads keeps the list invariant |
| `TcpProxyServer.Server.Start` | netlib/netlib/proxy/tcp_proxy_server.h:80-178 | Pushes the sentinel into slot 0, or leaves the list empty if its socket cannot be attached |
| `TcpProxyServer.Server.BeginConnect` | netlib/netlib/proxy/tcp_proxy_server.h:366-436 | Result and list for each point at which a connection can fail before its entry is made |
| `TcpProxyServer.Server.FinishConnect` | netlib/netlib/proxy/tcp_proxy_server.h:438-479 | A connect that fails at once closes both sockets and removes no entry |
| `TcpProxyServer.Server.TakeSnapshot` | netlib/netlib/proxy/tcp_proxy_server.h:507-520 | The events of all entries in order |
| `TcpProxyServer.Server.HandleEvent` | netlib/netlib/proxy/tcp_proxy_server.h:526-549 | Slot 0 is reset; any other entry leaves the list and becomes a new proxy socket with its two sockets and context, its greeting sent |
| `TcpProxyServer.Server.ClearFinished` | netlib/netlib/proxy/tcp_proxy_server.h:577-593 | Exactly the sockets ready for removal go, the others keep their order |
| `TcpProxyServer.RemainingIff` | netlib/netlib/proxy/tcp_proxy_server.h:577-593 | A socket with both ends closed and four zero lengths never remains, any other remains as often as it was there |
| `TcpProxyServer.RemainingInOrder` | netlib/netlib/proxy/tcp_proxy_server.h:577-593 | And in the order it was there |
| `TcpProxyServer.Server.CleanUp` | netlib/netlib/proxy/tcp_proxy_server.h:552-574 | On exit of the connecting thread every socket in the list is closed and no entry removed |
| `TcpProxyServer.Server.FinishStop` | netlib/netlib/proxy/tcp_proxy_server.h:180-225 | After the joins both lists are empty |
| `EndToEnd.ConnectionHasOwnOrigin` | netlib/netlib/proxy/tcp_proxy_server.h:246-285 | In every run of router and proxy server, the n-th connection taken on has the socket and client port of one accept event, and the destination of the redirected SYN that was pending on that very port when it was accepted |
| `EndToEnd.OriginsAreDistinct` | netlib/netlib/proxy/socks_local_router.h:432-455 | Different connections stem from different SYNs: each mapping serves one client |
| `EndToEnd.WrappedAreConnections` | netlib/netlib/proxy/tcp_proxy_server.h:534-543 | What becomes a proxy socket is one of these connections, each at most once |
| `EndToEnd.ConnectNamesOriginalDestination` | netlib/netlib/proxy/socks5_tcp_proxy_socket.h:116-140 | The only CONNECT request the session of such a connection ever sends names, byte for byte, the destination in the frame of the SYN pending on its own client port when it was accepted, and the relay starts only after it |
| `EndToEnd.UnmappedIsRefused` | netlib/netlib/proxy/tcp_proxy_server.h:368-371 | A client whose port has no pending SYN changes neither router nor proxy server |
| `EndToEnd.PeerIsUpstream` | netlib/netlib/proxy/socks_local_router.h:432-455 | With a pending SYN the proxy server is told the endpoint and credentials of the SOCKS server, and the destination of that SYN |
| `EndToEnd.TakenOnIff` | netlib/netlib/proxy/tcp_proxy_server.h:366-436 | An accepted client is taken on if and only if a SYN is pending on its port, the SOCKS server has a port, and the remote socket can be made and bound |
| `StaticFilters.MirrorsIffNoStrays` | netlib/netlib/ndisapi/static_filters.h:533-790 | For every sequence of calls with a driver that may refuse any, the list equals the driver's table in order if and only if no filter was left behind by a refused reset or before the first one |
| `StaticFilters.MirrorsWithoutRefusedReset` | netlib/netlib/ndisapi/static_filters.h:784-790 | From an empty driver, calls without a refused reset keep the mirror |
| `StaticFilters.RemoveIfRemovesExactly` | netlib/netlib/ndisapi/static_filters.h:624-658 | Conditional removal keeps the mirror and leaves, in order, the filters that do not match, are of the other address type, or that the driver did not give up |
| `StaticFilters.AgreedSweep` | netlib/netlib/ndisapi/static_filters.h:624-658 | With a driver that agrees, no matching filter of the chosen type is left and all others keep their number |
| `StaticFilters.OneUnremoved` | netlib/netlib/ndisapi/static_filters.h:627-650 | A filter on its own stays unless it matches, is of the chosen type, and the driver gives it up |
| `StaticFilters.UnremovedInOrder` | netlib/netlib/ndisapi/static_filters.h:624-658 | What stays of a front and a back of the list stays in that order, with the numbering carried on |
| `StaticFilters.SweepKeepsMirror` | netlib/netlib/ndisapi/static_filters.h:627-655 | The position passed on is always the index the entry has in the driver's own table |
| `StaticFilters.AddedWhere` | netlib/netlib/ndisapi/static_filters.h:533-590 | A filter becomes the first of both tables, the last of both, or the one at the same position of both, exactly if the driver agrees, has room, and the position exists; the others stay in order |
| `StaticFilters.RemovedWhere` | netlib/netlib/ndisapi/static_filters.h:598-616 | A removal takes out the filter at its position in both tables and no other; a reset empties the list, and the driver if it agrees |
| `StaticFilters.FilterList.AddFilterFront` | netlib/netlib/ndisapi/static_filters.h:533-543 | The filter goes to the front of both lists, or to none |
| `StaticFilters.FilterList.AddFilterBack` | netlib/netlib/ndisapi/static_filters.h:552-562 | The filter goes to the back of both lists, or to none |
| `StaticFilters.FilterList.InsertFilter` | netlib/netlib/ndisapi/static_filters.h:572-590 | The filter goes to the same position of both lists, or to none; a position past the end is refused |
| `StaticFilters.FilterList.RemoveFilter` | netlib/netlib/ndisapi/static_filters.h:598-616 | The filter leaves the same position of both lists, or none |
| `StaticFilters.FilterList.RemoveFiltersIf` | netlib/netlib/ndisapi/static_filters.h:624-658 | The iterator loop implements the sweep |
| `StaticFilters.FilterList.Reset` | netlib/netlib/ndisapi/static_filters.h:784-790 | The list is emptied even if the driver refuses |
| `Subnet.MaskV4` | netlib/netlib/net/ip_subnet.h:200-213 | The shift loop and the byte swap give, in memory, exactly the leading ones of the prefix |
| `Subnet.MaskV6` | netlib/netlib/net/ip_subnet.h:228-250 | Shift loop, byte fill and last byte give exactly the leading ones of the prefix |
| `Subnet.PrefixIsReadBack` | netlib/netlib/net/ip_subnet.h:110-126 | The prefix of such a mask is read back, whatever the byte order of its words |
| `Subnet.CidrMembership` | netlib/netlib/net/ip_subnet.h:156-182 | An address is in a CIDR subnet if and only if the leading bits agree |
| `Subnet.MembershipIsAgreement` | netlib/netlib/net/ip_subnet.h:156-182 | For any mask, membership compares exactly the bits under it |
| `Subnet.SubnetsNestOrAreDisjoint` | netlib/netlib/net/ip_subnet.h:156-182 | Of two CIDR subnets the one with the longer prefix lies inside the other or has no address in common with it |
| `Subnet.FromCidr` | netlib/netlib/net/ip_subnet.h:184-281 | A subnet is made exactly when the address parses and the prefix is a number no larger than the width; without a slash it is the single address |
| `Subnet.TextIsReadBack` | netlib/netlib/net/ip_subnet.h:131-134 | Address and prefix of the text form are read back, and anything but digits after them is ignored |
| `Subnet.FromCharsReads` | netlib/netlib/net/ip_subnet.h:193-227 | A prefix is read up to 255 and refused beyond; text without leading digits is refused |

## Left out

- Ipv6Helper.RecalculateTcpUdpChecksum: a transport header or checksum field outside the buffer, or past the frame's
  length, is excluded, because the code then reads or writes memory it does not own; `Ipv6Helper.FoundHeaderPastEnd`
  shows that such frames exist.
- Ipv6Helper.RecalculatedVerifies: does not replace a UDP checksum of zero by 0xFFFF, since the code does not.
- UdpRedirect.UdpLocalRedirect.ProcessServerToClientPacket: asks for a reply whose UDP length covers a SOCKS5 header and
  stays in the buffer, which the code does not look at.
- UdpRedirect.UdpLocalRedirect.ProcessClientToServerPacket: asks for room for 10 more bytes; the limit in the
  code leaves the 10 bytes it moves the payload by out of account, so nothing is said about longer frames.
- Socks5.Authentication: the copy of credentials into the request is modelled for strings without a zero byte, and not
  the run-time check that a length of 255 runs into.
- TcpProxySocket.Socket.IsReadyForRemoval: not the branch that depends on 120 seconds having passed, which also clears
  the lengths of outstanding operations; all results about removal are about connections that never time out.
- TcpProxySocket.Socket.StartDataRelay: not that a socket is closed twice when the second read is refused.
- QueuedPacketFilter.PacketFilter: blocks are values with an identity, so two references to one block are not modelled
  beyond the proof that each occurs once; waiting and waking of threads is not modelled, only what they do when they run.
- Socks5TcpProxySocket.NegotiatingSocket: requests are values; their memory being reused by the next request before a
  write completes is not modelled.
- The UDP side of the router and its set of client ports, which repeats the TCP mapper with fewer fields, and the UDP
  proxy server and sockets.
- IPv6 branches of both redirects, which no code instantiates.
- Injected writes (`inject_to_local`, `inject_to_remote`) and packet buffers from the pool.
- Conversion of filters to and from the driver's format, and storing and loading the whole table.
- `wait_for_multiple_objects` for 64 handles and more.
- Dialogs, settings, logging, packet capture files, process lookup and adapter enumeration.
- Parsing of addresses as text, which `Subnet.FromCidr` takes as a parameter.
